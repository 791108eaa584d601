// The hand-written binary min-heap of `landRoute` and `jointRoute`: an array of
// [distance, node] pairs, sifted in place, with stale pairs left inside.
module BinaryHeap {

  datatype Entry = Entry(d: real, node: nat)

  /** Cell `j` is no smaller than its parent cell. */
  ghost predicate ParentOk(c: seq<Entry>, j: nat)
    requires 1 <= j < |c|
  {
    c[(j - 1) / 2].d <= c[j].d
  }

  ghost predicate Ordered(c: seq<Entry>) {
    forall j: nat {:trigger ParentOk(c, j)} :: 1 <= j < |c| ==> ParentOk(c, j)
  }

  /** Only cell `i` may be smaller than its parent. */
  ghost predicate OrderedBut(c: seq<Entry>, i: nat) {
    && i < |c|
    && (forall j: nat {:trigger ParentOk(c, j)} :: 1 <= j < |c| && j != i ==> ParentOk(c, j))
    && ChildrenAboveGrandparent(c, i)
  }

  /** Only the children of cell `i` may be smaller than it. */
  ghost predicate OrderedBelow(c: seq<Entry>, i: nat) {
    && i < |c|
    && (forall j: nat {:trigger ParentOk(c, j)} :: 1 <= j < |c| && (j - 1) / 2 != i ==> ParentOk(c, j))
    && ChildrenAboveGrandparent(c, i)
  }

  ghost predicate ChildrenAboveGrandparent(c: seq<Entry>, i: nat)
    requires i < |c|
  {
    i >= 1 ==>
      && (2 * i + 1 < |c| ==> c[(i - 1) / 2].d <= c[2 * i + 1].d)
      && (2 * i + 2 < |c| ==> c[(i - 1) / 2].d <= c[2 * i + 2].d)
  }

  function Swapped(c: seq<Entry>, i: nat, j: nat): (r: seq<Entry>)
    requires i < |c| && j < |c|
    ensures |r| == |c| && multiset(r) == multiset(c)
  {
    c[i := c[j]][j := c[i]]
  }

  lemma SiftUpStep(c: seq<Entry>, i: nat)
    requires OrderedBut(c, i) && i >= 1 && c[i].d < c[(i - 1) / 2].d
    ensures OrderedBut(Swapped(c, (i - 1) / 2, i), (i - 1) / 2)
  {
    var p := (i - 1) / 2;
    var s := Swapped(c, p, i);
    forall j: nat | 1 <= j < |s| && j != p
      ensures ParentOk(s, j)
    {
      if j != i {
        assert ParentOk(c, j);
      }
    }
    if p >= 1 {
      assert ParentOk(c, p);
      if 2 * p + 1 != i { assert ParentOk(c, 2 * p + 1); }
      if 2 * p + 2 < |c| && 2 * p + 2 != i { assert ParentOk(c, 2 * p + 2); }
    }
  }

  lemma SiftDownStep(c: seq<Entry>, i: nat, s: nat)
    requires OrderedBelow(c, i) && s < |c| && (s == 2 * i + 1 || s == 2 * i + 2) && c[s].d < c[i].d
    requires 2 * i + 1 < |c| ==> c[s].d <= c[2 * i + 1].d
    requires 2 * i + 2 < |c| ==> c[s].d <= c[2 * i + 2].d
    ensures OrderedBelow(Swapped(c, s, i), s)
  {
    var t := Swapped(c, s, i);
    forall j: nat | 1 <= j < |t| && (j - 1) / 2 != s
      ensures ParentOk(t, j)
    {
      if (j - 1) / 2 != i {
        assert ParentOk(c, j);
      }
    }
    if 2 * s + 1 < |c| { assert ParentOk(c, 2 * s + 1); }
    if 2 * s + 2 < |c| { assert ParentOk(c, 2 * s + 2); }
  }

  lemma {:induction false} TopIsLeast(c: seq<Entry>, i: nat)
    requires Ordered(c) && i < |c|
    ensures c[0].d <= c[i].d
  {
    if i > 0 {
      assert ParentOk(c, i);
      TopIsLeast(c, (i - 1) / 2);
    }
  }

  /** A cell that is no larger than its children ends the sift. */
  lemma SettledIsOrdered(c: seq<Entry>, i: nat)
    requires OrderedBelow(c, i)
    requires 2 * i + 1 < |c| ==> c[i].d <= c[2 * i + 1].d
    requires 2 * i + 2 < |c| ==> c[i].d <= c[2 * i + 2].d
    ensures Ordered(c)
  {
  }

  /** Taking the top out and moving the last cell up. */
  lemma TopLeavesOrderBelow(c: seq<Entry>)
    requires Ordered(c) && c != []
    ensures forall e :: e in multiset(c) ==> c[0].d <= e.d
    ensures var rest := c[..|c| - 1];
      && (rest == [] ==> multiset(rest) == multiset(c) - multiset{c[0]})
      && (rest != [] ==>
          && OrderedBelow(rest[0 := c[|c| - 1]], 0)
          && multiset(rest[0 := c[|c| - 1]]) == multiset(c) - multiset{c[0]})
  {
    var n := |c| - 1;
    var rest := c[..n];
    assert c == rest + [c[n]];
    forall i: nat | i < |c|
      ensures c[0].d <= c[i].d
    {
      TopIsLeast(c, i);
    }
    if rest != [] {
      var t := rest[0 := c[n]];
      forall j: nat | 1 <= j < |t| && (j - 1) / 2 != 0
        ensures ParentOk(t, j)
      {
        assert ParentOk(c, j);
      }
    }
  }

  class MinHeap {
    var cells: seq<Entry>

    ghost predicate Valid()
      reads this
    {
      Ordered(cells)
    }

    constructor (d: real, node: nat)
      ensures Valid() && cells == [Entry(d, node)]
    {
      cells := [Entry(d, node)];
    }

    method Push(d: real, node: nat)
      requires Valid()
      modifies this
      ensures Valid()
      ensures multiset(cells) == old(multiset(cells)) + multiset{Entry(d, node)}
    {
      ghost var before := cells;
      cells := cells + [Entry(d, node)];
      var i := |cells| - 1;
      forall j: nat | 1 <= j < |cells| && j != i
        ensures ParentOk(cells, j)
      {
        assert ParentOk(before, j);
      }
      while i > 0
        invariant 0 <= i < |cells| && OrderedBut(cells, i)
        invariant multiset(cells) == multiset(before) + multiset{Entry(d, node)}
      {
        var p := (i - 1) / 2;
        if cells[p].d <= cells[i].d {
          assert ParentOk(cells, i);
          break;
        }
        SiftUpStep(cells, i);
        cells := Swapped(cells, p, i);
        i := p;
      }
    }

    method Pop() returns (top: Entry)
      requires Valid() && cells != []
      modifies this
      ensures Valid()
      ensures top in old(multiset(cells))
      ensures multiset(cells) == old(multiset(cells)) - multiset{top}
      ensures |cells| == old(|cells|) - 1
      ensures forall c :: c in old(multiset(cells)) ==> top.d <= c.d
    {
      TopLeavesOrderBelow(cells);
      top := cells[0];
      var last := cells[|cells| - 1];
      cells := cells[..|cells| - 1];
      if |cells| > 0 {
        cells := cells[0 := last];
        SiftDown();
      }
    }

    // The loop of `pop`, from the root down.
    method SiftDown()
      requires OrderedBelow(cells, 0)
      modifies this
      ensures Valid()
      ensures multiset(cells) == old(multiset(cells)) && |cells| == old(|cells|)
    {
      var i := 0;
      while true
        invariant 0 <= i < |cells| == old(|cells|) && OrderedBelow(cells, i)
        invariant multiset(cells) == old(multiset(cells))
        decreases |cells| - i
      {
        var l, r := 2 * i + 1, 2 * i + 2;
        var s := i;
        if l < |cells| && cells[l].d < cells[s].d {
          s := l;
        }
        if r < |cells| && cells[r].d < cells[s].d {
          s := r;
        }
        if s == i {
          break;
        }
        SiftDownStep(cells, i, s);
        cells := Swapped(cells, s, i);
        i := s;
      }
      SettledIsOrdered(cells, i);
    }
  }
}
