// What re-reading the log does to one record: losing it for good, storing it twice.
module IngestReplay {
  import opened Ingest

  lemma {:induction false} TimesIn<T>(s: seq<T>, x: T)
    ensures Times(s, x) > 0 <==> x in s
  {
    if s != [] {
      TimesIn(s[..|s| - 1], x);
    }
  }

  lemma {:induction false} RunContinue(log: seq<Entry>, es: seq<Event>, more: seq<Event>)
    ensures Continue(log, Run(log, es), more) == Run(log, es + more)
    decreases |more|
  {
    if more == [] {
      assert es + more == es;
    } else {
      RunSnoc(log, es, more[0]);
      RunContinue(log, es + [more[0]], more[1..]);
      assert es + [more[0]] + more[1..] == es + more;
    }
  }

  lemma {:induction false} ContinueConcat(log: seq<Entry>, s: State, a: seq<Event>, b: seq<Event>)
    ensures Continue(log, s, a + b) == Continue(log, Continue(log, s, a), b)
    decreases |a|
  {
    if a == [] {
      assert a + b == b;
    } else {
      assert (a + b)[1..] == a[1..] + b;
      ContinueConcat(log, Next(log, s, a[0]), a[1..], b);
    }
  }

  lemma ContinueCons(log: seq<Entry>, s: State, e: Event, rest: seq<Event>)
    ensures Continue(log, s, [e] + rest) == Continue(log, Next(log, s, e), rest)
  {
    assert ([e] + rest)[1..] == rest;
  }

  // ----- reading a record again -----

  /** Some timed record before `j` carries a later stamp. */
  ghost predicate LaterBefore(log: seq<Entry>, j: nat)
    requires Timed(log, j)
  {
    exists i: nat :: StampedLater(log, i, j)
  }

  ghost predicate StampedLater(log: seq<Entry>, i: nat, j: nat)
    requires Timed(log, j)
  {
    i < j && Timed(log, i) && At(log, i) > At(log, j)
  }

  /** Neither watermark has passed the second of record `j`. */
  ghost predicate NotPassed(log: seq<Entry>, s: State, j: nat)
    requires Timed(log, j)
  {
    s.maxRecv <= At(log, j) && s.persisted <= At(log, j)
  }

  /** Rows of record `j` stored or held. */
  function RowsOf(s: State, j: nat): nat {
    Times(s.db, j) + Times(s.batch, j)
  }

  /** Nothing has passed the second of record `j`, unless some record before it could. */
  ghost predicate Behind(log: seq<Entry>, s: State, j: nat)
    requires Timed(log, j)
  {
    LaterBefore(log, j) || NotPassed(log, s, j)
  }

  /** Record `j` lies ahead of a process that would not skip it. */
  ghost predicate Ahead(log: seq<Entry>, s: State, j: nat) {
    Usable(log, j) && s.running && s.pos <= j && s.start <= At(log, j)
  }

  lemma {:induction false} TakenHolds(log: seq<Entry>, s: State, j: nat)
    requires Ahead(log, s, j)
    ensures var t := Taken(log, s);
      t.running && t.pos == s.pos + 1 && t.start == s.start && t.persisted == s.persisted
      && RowsOf(t, j) == RowsOf(s, j) + (if s.pos == j then 1 else 0)
  {
    TimesSnoc(s.batch, s.pos, j);
  }

  lemma {:induction false} TakenStaysBehind(log: seq<Entry>, s: State, j: nat)
    requires Ahead(log, s, j) && Behind(log, s, j)
    ensures Behind(log, Taken(log, s), j)
  {
    if Timed(log, s.pos) && s.pos < j && At(log, s.pos) > At(log, j) {
      assert StampedLater(log, s.pos, j);
    }
  }

  lemma {:induction false} DoneHolds(log: seq<Entry>, s: State, j: nat)
    requires Timed(log, j) && s.running
    ensures var t := Flushed(s, Done);
      t.running && t.pos == s.pos && t.start == s.start && RowsOf(t, j) == RowsOf(s, j)
      && (Behind(log, s, j) ==> Behind(log, t, j))
  {
    TimesConcat(s.db, s.batch, j);
  }

  lemma {:induction false} ReceiveHolds(log: seq<Entry>, s: State, j: nat)
    requires Ahead(log, s, j)
    ensures var t := Next(log, s, Receive(Done));
      t.running && t.pos == s.pos + 1 && t.start == s.start
      && RowsOf(t, j) == RowsOf(s, j) + (if s.pos == j then 1 else 0)
      && (Behind(log, s, j) ==> Behind(log, t, j))
  {
    TakenHolds(log, s, j);
    if Behind(log, s, j) {
      TakenStaysBehind(log, s, j);
    }
    DoneHolds(log, Taken(log, s), j);
  }

  /** Receive up to and including record `j`. */
  lemma {:induction false} ReadOn(log: seq<Entry>, s: State, j: nat) returns (more: seq<Event>)
    requires Ahead(log, s, j) && Behind(log, s, j)
    ensures AllAtomic(more)
    ensures var t := Continue(log, s, more);
      t.running && RowsOf(t, j) == RowsOf(s, j) + 1 && Behind(log, t, j)
    decreases j - s.pos
  {
    ReceiveHolds(log, s, j);
    var t := Next(log, s, Receive(Done));
    if s.pos == j {
      more := [Receive(Done)] + [];
      ContinueCons(log, s, Receive(Done), []);
    } else {
      var rest := ReadOn(log, t, j);
      more := [Receive(Done)] + rest;
      ContinueCons(log, s, Receive(Done), rest);
    }
  }

  /** From a stopped process whose watermark has not passed record `j`: start over, read up to
      it and flush. It is stored once more. */
  lemma {:induction false} StoreOnceMore(log: seq<Entry>, s: State, j: nat) returns (more: seq<Event>)
    requires Usable(log, j) && !s.running && s.persisted <= At(log, j)
    ensures AllAtomic(more)
    ensures var t := Continue(log, s, more);
      Times(t.db, j) > Times(s.db, j) && (LaterBefore(log, j) || t.persisted <= At(log, j))
  {
    var r := Next(log, s, Restart(true));
    var reading := ReadOn(log, r, j);
    var t := Continue(log, r, reading);
    DoneHolds(log, t, j);
    more := [Restart(true)] + (reading + [Tick(Done)]);
    assert more[1..] == reading + [Tick(Done)];
    ContinueConcat(log, r, reading, [Tick(Done)]);
    assert Continue(log, t, [Tick(Done)]) == Next(log, t, Tick(Done)) by {
      assert [Tick(Done)][1..] == [];
    }
  }

  // ----- losing a record for good -----

  ghost predicate AllReadWatermark(es: seq<Event>) {
    forall i {:trigger es[i]} :: 0 <= i < |es| ==> ReadsWatermark(es[i])
  }

  /** After the run `es`, no continuation that can read the watermark ever stores record `j`. */
  ghost predicate LostForGood(log: seq<Entry>, es: seq<Event>, j: nat) {
    && Usable(log, j)
    && forall more: seq<Event> {:trigger Continue(log, Run(log, es), more)} ::
         AllReadWatermark(more) ==> j !in Continue(log, Run(log, es), more).db
  }

  /** A record can be lost for good if and only if the log has a late record. */
  lemma LossIsPossibleExactlyWithLateRecords(log: seq<Entry>)
    ensures (exists es: seq<Event>, j: nat :: LostForGood(log, es, j)) <==> HasLate(log)
  {
    if HasLate(log) {
      var i: nat, j: nat, k: nat :| LateAt(log, i, j, k);
      var before := LateRecordCanBeLost(log, i, j, k);
      var es := before + [Crash];
      RunSnoc(log, before, Crash);
      forall more: seq<Event> | AllReadWatermark(more)
        ensures j !in Continue(log, Run(log, es), more).db
      {
        GoneForGood(log, Run(log, es), more, j);
      }
      assert LostForGood(log, es, j);
    } else {
      forall es: seq<Event>, j: nat
        ensures !LostForGood(log, es, j)
      {
        if LostForGood(log, es, j) {
          var more := CanStillBeStored(log, es, j);
          assert false;
        }
      }
    }
  }

  /** Without a late record, every usable record can still be stored, whatever happened so far. */
  lemma CanStillBeStored(log: seq<Entry>, es: seq<Event>, j: nat) returns (more: seq<Event>)
    requires !HasLate(log) && Usable(log, j)
    ensures AllReadWatermark(more) && j in Continue(log, Run(log, es), more).db
  {
    var s := Run(log, es);
    if j in s.db {
      more := [];
    } else {
      RunKeepsInv(log, es);
      var c := Next(log, s, Crash);
      var rest := StoreOnceMore(log, c, j);
      more := [Crash] + rest;
      assert more[1..] == rest;
      TimesIn(Continue(log, c, rest).db, j);
      forall i | 0 <= i < |more|
        ensures ReadsWatermark(more[i])
      {
        assert i > 0 ==> Atomic(rest[i - 1]);
      }
    }
  }

  // ----- exactly which records can be stored twice -----

  /** Timed record `i` before `j` has a later stamp: once `j` is stored, the watermark has passed it. */
  ghost predicate StoredOnce(log: seq<Entry>, s: State, i: nat, j: nat)
    requires Usable(log, j) && StampedLater(log, i, j)
  {
    && Copies(log, s, j) <= 1
    && (Times(s.db, j) > 0 ==> At(log, j) < s.persisted)
    && (s.running ==>
        && s.persisted <= s.maxRecv && s.start <= s.maxRecv
        && (s.pos > i ==> At(log, j) < s.maxRecv)
        && (Times(s.batch, j) > 0 ==> s.pos > j))
  }

  lemma {:induction false} TakenKeepsOnce(log: seq<Entry>, s: State, i: nat, j: nat)
    requires Usable(log, j) && StampedLater(log, i, j) && StoredOnce(log, s, i, j) && s.running && s.pos < |log|
    ensures StoredOnce(log, Taken(log, s), i, j)
  {
    TimesSnoc(s.batch, s.pos, j);
  }

  lemma {:induction false} FlushKeepsOnce(log: seq<Entry>, s: State, o: Outcome, i: nat, j: nat)
    requires Usable(log, j) && StampedLater(log, i, j) && StoredOnce(log, s, i, j) && s.running
    requires o != SetFails && o != DiesBeforeSet
    ensures StoredOnce(log, Flushed(s, o), i, j)
  {
    TimesConcat(s.db, s.batch, j);
  }

  lemma {:induction false} NextKeepsOnce(log: seq<Entry>, s: State, e: Event, i: nat, j: nat)
    requires Usable(log, j) && StampedLater(log, i, j) && StoredOnce(log, s, i, j) && Atomic(e)
    ensures StoredOnce(log, Next(log, s, e), i, j)
  {
    match e
    case Receive(o) =>
      if s.running && s.pos < |log| {
        TakenKeepsOnce(log, s, i, j);
        FlushKeepsOnce(log, Taken(log, s), o, i, j);
      }
    case Tick(o) =>
      if s.running {
        FlushKeepsOnce(log, s, o, i, j);
      }
    case Shutdown(o) =>
      if s.running {
        FlushKeepsOnce(log, s, o, i, j);
      }
    case Crash =>
    case Restart(getOk) =>
  }

  lemma {:induction false} RunKeepsOnce(log: seq<Entry>, es: seq<Event>, i: nat, j: nat)
    requires Usable(log, j) && StampedLater(log, i, j) && AllAtomic(es)
    ensures StoredOnce(log, Run(log, es), i, j)
  {
    if es != [] {
      RunKeepsOnce(log, es[..|es| - 1], i, j);
      NextKeepsOnce(log, Run(log, es[..|es| - 1]), es[|es| - 1], i, j);
    }
  }

  /** Some run of atomic flushes stores record `j` at least twice. */
  ghost predicate CanBeStoredTwice(log: seq<Entry>, j: nat) {
    exists es: seq<Event> :: AllAtomic(es) && Times(Run(log, es).db, j) >= 2
  }

  lemma {:induction false} StoreTwiceAtRest(log: seq<Entry>, j: nat) returns (es: seq<Event>)
    requires Usable(log, j) && !LaterBefore(log, j)
    ensures AllAtomic(es) && Times(Run(log, es).db, j) >= 2
  {
    var once := StoreOnceMore(log, INITIAL, j);
    RunContinue(log, [], once);
    assert [] + once == once;
    var crashed := once + [Crash];
    RunSnoc(log, once, Crash);
    var again := StoreOnceMore(log, Run(log, crashed), j);
    RunContinue(log, crashed, again);
    es := crashed + again;
  }

  /** Even with atomic flushes a usable record can be stored twice, exactly when no record before
      it carries a later stamp: then the watermark can come to rest at its second. */
  lemma StoredTwiceExactlyWithoutLaterStamps(log: seq<Entry>, j: nat)
    requires Usable(log, j)
    ensures CanBeStoredTwice(log, j) <==> !LaterBefore(log, j)
  {
    if LaterBefore(log, j) {
      var i: nat :| StampedLater(log, i, j);
      forall es: seq<Event> | AllAtomic(es)
        ensures Times(Run(log, es).db, j) <= 1
      {
        RunKeepsOnce(log, es, i, j);
      }
    } else {
      var es := StoreTwiceAtRest(log, j);
    }
  }

  // ----- complete rows, and only those -----

  /** A run that reads a whole feed without late records and whose last insert succeeds leaves
      exactly the records that make a row in the database. */
  lemma CompleteReadStoresExactly(feed: Feed, es: seq<Event>, o: Outcome, j: nat)
    requires !HasLate(Entries(feed))
    requires var s := Run(Entries(feed), es); s.running && s.pos == |feed.records|
    requires o == Done || o == SetFails || o == DiesBeforeSet
    ensures j in Run(Entries(feed), es + [Shutdown(o)]).db <==> j < |feed.records| && MakesRow(feed, feed.records[j])
  {
    var log, all := Entries(feed), es + [Shutdown(o)];
    if Usable(log, j) {
      CompleteReadStoresAll(log, es, o, j);
    }
    StoredWasPublished(log, all, j);
    TimesIn(Run(log, all).db, j);
  }

  /** The run has read the whole log. */
  ghost predicate ReadAll(log: seq<Entry>, es: seq<Event>) {
    Run(log, es).running && Run(log, es).pos == |log|
  }

  /** A last flush that reaches the database then leaves every usable record there. */
  ghost predicate StoresAll(log: seq<Entry>, es: seq<Event>, o: Outcome) {
    forall j: nat {:trigger Usable(log, j)} :: Usable(log, j) ==> j in Run(log, es + [Shutdown(o)]).db
  }

  /** Every complete run leaves every usable record in the database, if and only if the log has
      no late record. */
  lemma CompleteReadsStoreAllExactly(log: seq<Entry>)
    ensures (forall es: seq<Event> :: ReadAll(log, es) ==> StoresAll(log, es, Done)) <==> !HasLate(log)
  {
    if HasLate(log) {
      var i: nat, j: nat, k: nat :| LateAt(log, i, j, k);
      var es := ReadAllButLate(log, i, j, k);
      assert Usable(log, j) && !StoresAll(log, es, Done);
    } else {
      forall es: seq<Event>, j: nat | ReadAll(log, es) && Usable(log, j)
        ensures j in Run(log, es + [Shutdown(Done)]).db
      {
        CompleteReadStoresAll(log, es, Done, j);
      }
    }
  }

  /** Lose the late record, then start over and read the log to its end: it stays lost. */
  lemma ReadAllButLate(log: seq<Entry>, i: nat, j: nat, k: nat) returns (es: seq<Event>)
    requires LateAt(log, i, j, k)
    ensures ReadAll(log, es) && j !in Run(log, es + [Shutdown(Done)]).db
  {
    var before := LateRecordCanBeLost(log, i, j, k);
    var crashed := before + [Crash];
    RunSnoc(log, before, Crash);
    var s := Run(log, crashed);
    var r := Next(log, s, Restart(true));
    var reading := ReadToEnd(log, r);
    var more := [Restart(true)] + reading;
    assert more[1..] == reading;
    RunContinue(log, crashed, more);
    es := crashed + more;
    var last := more + [Shutdown(Done)];
    RunContinue(log, crashed, last);
    assert crashed + last == es + [Shutdown(Done)];
    forall m | 0 <= m < |last|
      ensures ReadsWatermark(last[m])
    {
      assert 0 < m < |more| ==> last[m] == reading[m - 1];
    }
    GoneForGood(log, s, last, j);
  }

  lemma {:induction false} ReadToEnd(log: seq<Entry>, s: State) returns (more: seq<Event>)
    requires s.running && s.pos <= |log|
    ensures forall m :: 0 <= m < |more| ==> more[m] == Receive(Done)
    ensures var t := Continue(log, s, more); t.running && t.pos == |log|
    decreases |log| - s.pos
  {
    if s.pos == |log| {
      more := [];
    } else {
      var rest := ReadToEnd(log, Next(log, s, Receive(Done)));
      more := [Receive(Done)] + rest;
      assert more[1..] == rest;
    }
  }
}
