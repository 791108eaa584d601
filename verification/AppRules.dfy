// Application lookup by domain suffix.
module AppRules {
  import opened Options

  datatype Rule = Rule(app: string, category: Option<string>, confidence: real)

  datatype Match = Match(rule: Rule, suffix: string)

  /** `trim_end_matches('.')`. */
  function TrimDots(s: string): (t: string)
    ensures t <= s && (t != [] ==> t[|t| - 1] != '.')
    ensures forall i :: |t| <= i < |s| ==> s[i] == '.'
  {
    if s != [] && s[|s| - 1] == '.' then TrimDots(s[..|s| - 1]) else s
  }

  /** Position `i` starts a label. */
  predicate Boundary(s: string, i: nat) {
    i <= |s| && (i == 0 || s[i - 1] == '.')
  }

  predicate Known(s: string, i: nat, rules: map<string, Rule>) {
    i <= |s| && s[i..] in rules
  }

  /** `i` is the first label start whose suffix has a rule, that is, the longest such suffix. */
  ghost predicate Longest(s: string, i: nat, rules: map<string, Rule>) {
    Boundary(s, i) && Known(s, i, rules)
    && forall j: nat {:trigger Boundary(s, j)} :: j < i && Boundary(s, j) ==> !Known(s, j, rules)
  }

  ghost predicate NoneBelow(s: string, n: nat, rules: map<string, Rule>) {
    forall j: nat {:trigger Boundary(s, j)} :: j < n && Boundary(s, j) ==> !Known(s, j, rules)
  }

  method FindDot(s: string, start: nat) returns (r: Option<nat>)
    requires start <= |s|
    ensures r.Some? ==> start + r.value < |s| && s[start + r.value] == '.'
    ensures forall k :: start <= k < (if r.Some? then start + r.value else |s|) ==> s[k] != '.'
  {
    var i := start;
    while i < |s|
      invariant start <= i <= |s|
      invariant forall k :: start <= k < i ==> s[k] != '.'
    {
      if s[i] == '.' {
        return Some(i - start);
      }
      i := i + 1;
    }
    r := None;
  }

  /** The rule of the longest suffix that starts a label, and nothing exactly when no such
      suffix has a rule. */
  method Classify(sni: string, rules: map<string, Rule>) returns (r: Option<Match>)
    ensures var s := TrimDots(sni);
      match r
      case None => forall j: nat {:trigger Boundary(s, j)} :: Boundary(s, j) ==> !Known(s, j, rules)
      case Some(m) => exists i: nat :: Longest(s, i, rules) && m == Match(rules[s[i..]], s[i..])
  {
    var s := TrimDots(sni);
    var start := 0;
    while true
      invariant start <= |s| && Boundary(s, start) && NoneBelow(s, start, rules)
      decreases |s| - start
    {
      if s[start..] in rules {
        r := Some(Match(rules[s[start..]], s[start..]));
        assert Longest(s, start, rules) && r.value == Match(rules[s[start..]], s[start..]);
        return;
      }
      assert !Known(s, start, rules);
      var dot := FindDot(s, start);
      match dot {
        case None =>
          return None;
        case Some(i) =>
          start := start + i + 1;
      }
    }
  }

  /** Adding a label in front changes the answer only when the longer name has a rule itself. */
  lemma SubdomainsInherit(first: string, s: string, i: nat, rules: map<string, Rule>)
    requires '.' !in first && first + "." + s !in rules
    ensures Longest(first + "." + s, |first| + 1 + i, rules) <==> Longest(s, i, rules)
  {
    var t, n := first + "." + s, |first| + 1;
    forall j: nat | j <= |s|
      ensures Boundary(t, n + j) <==> Boundary(s, j)
      ensures Known(t, n + j, rules) <==> Known(s, j, rules)
    {
      assert t[n + j..] == s[j..];
    }
    forall j: nat | 0 < j < n
      ensures !Boundary(t, j)
    {
      assert t[j - 1] == first[j - 1];
    }
    assert t[0..] == t;
    if Longest(s, i, rules) {
      forall j: nat | j < n + i && Boundary(t, j)
        ensures !Known(t, j, rules)
      {
        if j >= n {
          assert Boundary(s, j - n);
        }
      }
    }
    if Longest(t, n + i, rules) {
      forall j: nat | j < i && Boundary(s, j)
        ensures !Known(s, j, rules)
      {
        assert Boundary(t, n + j);
      }
    }
  }

  // ----- labels -----

  /** Labels with dots between them. */
  function Join(labels: seq<string>): string
    requires labels != []
  {
    if |labels| == 1 then labels[0] else labels[0] + "." + Join(labels[1..])
  }

  ghost predicate IsLabels(labels: seq<string>) {
    labels != [] && forall k :: 0 <= k < |labels| ==> '.' !in labels[k]
  }

  /** Every name splits into labels. */
  lemma {:induction false} NamesHaveLabels(s: string) returns (labels: seq<string>)
    ensures IsLabels(labels) && Join(labels) == s
  {
    if '.' !in s {
      labels := [s];
    } else {
      var n := FirstDot(s, 0);
      var rest := NamesHaveLabels(s[n + 1..]);
      labels := [s[..n]] + rest;
      assert labels[1..] == rest;
      assert s == s[..n] + "." + s[n + 1..];
    }
  }

  lemma {:induction false} FirstDot(s: string, i: nat) returns (n: nat)
    requires i <= |s| && '.' in s && '.' !in s[..i]
    ensures n < |s| && s[n] == '.' && '.' !in s[..n]
    decreases |s| - i
  {
    assert s[..|s|] == s;
    if s[i] == '.' {
      n := i;
    } else {
      assert s[..i + 1] == s[..i] + [s[i]];
      n := FirstDot(s, i + 1);
    }
  }

  /** From `i` on the name consists of the labels from `k` on. */
  ghost predicate TailAt(labels: seq<string>, i: nat, k: nat)
    requires labels != []
  {
    k < |labels| && i <= |Join(labels)| && Join(labels)[i..] == Join(labels[k..])
  }

  lemma {:induction false} TailsShrink(labels: seq<string>, k: nat)
    requires 0 < k < |labels|
    ensures |Join(labels[k..])| < |Join(labels)|
  {
    if k > 1 {
      assert labels[1..][k - 1..] == labels[k..];
      TailsShrink(labels[1..], k - 1);
    }
  }

  lemma TailShifts(labels: seq<string>, i: nat, k: nat)
    requires |labels| > 1 && k > 0
    ensures var n := |labels[0]| + 1;
      TailAt(labels, i, k) <==> i >= n && TailAt(labels[1..], i - n, k - 1)
  {
    var n := |labels[0]| + 1;
    if k < |labels| {
      assert labels[1..][k - 1..] == labels[k..];
      if k > 1 {
        TailsShrink(labels[1..], k - 1);
      }
      if n <= i <= |Join(labels)| {
        assert Join(labels)[i..] == Join(labels[1..])[i - n..];
      }
    }
  }

  /** The suffixes that are looked up are the last labels of the name, one or more of them. */
  lemma {:induction false} LookedUpAreLastLabels(labels: seq<string>, i: nat)
    requires IsLabels(labels)
    ensures Boundary(Join(labels), i) <==> exists k: nat :: TailAt(labels, i, k)
  {
    var t := Join(labels);
    assert labels[0..] == labels;
    assert TailAt(labels, i, 0) <==> i == 0;
    if |labels| > 1 {
      var n := |labels[0]| + 1;
      forall k: nat | k > 0
        ensures TailAt(labels, i, k) <==> i >= n && TailAt(labels[1..], i - n, k - 1)
      {
        TailShifts(labels, i, k);
      }
      if i >= n {
        var rest, j := labels[1..], i - n;
        LookedUpAreLastLabels(rest, j);
        if k: nat :| TailAt(rest, j, k) {
          assert TailAt(labels, i, k + 1);
        }
        if k: nat :| TailAt(labels, i, k) {
          assert TailAt(rest, j, k - 1);
        }
      }
      if 0 < i < n {
        assert t[i - 1] == labels[0][i - 1];
      }
    }
  }

  lemma {:induction false} TailStarts(labels: seq<string>, k: nat) returns (i: nat)
    requires IsLabels(labels) && k < |labels|
    ensures TailAt(labels, i, k)
  {
    assert labels[0..] == labels;
    if k == 0 {
      i := 0;
    } else {
      var j := TailStarts(labels[1..], k - 1);
      i := |labels[0]| + 1 + j;
      TailShifts(labels, i, k);
    }
  }

  /** A rule is found for a name exactly when one is given for some number of its last labels, and
      it is the one for the most labels. */
  lemma LongestIsMostLabels(labels: seq<string>, rules: map<string, Rule>, i: nat)
    requires IsLabels(labels)
    ensures Longest(Join(labels), i, rules) <==>
      exists k: nat :: TailAt(labels, i, k) && Join(labels[k..]) in rules && forall l :: 0 <= l < k ==> Join(labels[l..]) !in rules
  {
    var s := Join(labels);
    LookedUpAreLastLabels(labels, i);
    if Longest(s, i, rules) {
      var k: nat :| TailAt(labels, i, k);
      forall l: nat | l < k
        ensures Join(labels[l..]) !in rules
      {
        var j := TailStarts(labels, l);
        TailsInOrder(labels, j, l, i, k);
        LookedUpAreLastLabels(labels, j);
        assert Boundary(s, j) && !Known(s, j, rules);
      }
    }
    if k: nat :| TailAt(labels, i, k) && Join(labels[k..]) in rules && forall l :: 0 <= l < k ==> Join(labels[l..]) !in rules {
      forall j: nat | j < i && Boundary(s, j)
        ensures !Known(s, j, rules)
      {
        LookedUpAreLastLabels(labels, j);
        var l: nat :| TailAt(labels, j, l);
        TailsInOrder(labels, j, l, i, k);
      }
    }
  }

  lemma TailsInOrder(labels: seq<string>, i: nat, k: nat, j: nat, l: nat)
    requires labels != [] && TailAt(labels, i, k) && TailAt(labels, j, l)
    ensures i < j <==> k < l
  {
    if k < l {
      assert labels[k..][l - k..] == labels[l..];
      TailsShrink(labels[k..], l - k);
    } else if l < k {
      assert labels[l..][k - l..] == labels[k..];
      TailsShrink(labels[l..], k - l);
    }
  }
}
