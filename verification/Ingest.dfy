// The ingest protocol: receive, flush, crash and restart over a log that is re-read from the
// top, with a resume watermark kept in Redis.
module Ingest {
  import opened Options
  import opened Bytes
  import opened FlowRecords

  const BATCH_MAX_ROWS: nat := 1000

  // ----- the log -----

  datatype RawEntry = RawEntry(recv: Option<U32>, usable: bool)

  /** What the protocol sees of a record: its receive second and whether it makes a row. */
  type Entry = e: RawEntry | e.usable ==> e.recv.Some? witness RawEntry(None, false)

  /** The records of the parser channel, and the two library calls the row rule depends on:
      whether seconds and nanoseconds are a date, and whether the JSON can be written. */
  datatype Feed = Feed(records: seq<FlowRecord>, dated: (U32, U32) -> bool, written: FlowRecord -> bool)

  /** Microseconds as nanoseconds, saturating at 32 bits; absent ones count as zero. */
  function RecvNanos(rec: FlowRecord): U32 {
    var usec := if rec.recvUsec.Some? then rec.recvUsec.value else 0;
    if usec as int * 1000 < 0x1_0000_0000 then usec as int * 1000 else 0xFFFF_FFFF
  }

  /** A record makes a row when it has a receive time that is a date, both addresses and both
      counters, and its JSON can be written. */
  predicate MakesRow(feed: Feed, rec: FlowRecord) {
    && rec.recvSec.Some? && feed.dated(rec.recvSec.value, RecvNanos(rec))
    && rec.srcAddr.Some? && rec.dstAddr.Some? && rec.packets.Some? && rec.octets.Some?
    && feed.written(rec)
  }

  function Entries(feed: Feed): (log: seq<Entry>)
    ensures |log| == |feed.records|
  {
    seq(|feed.records|, i requires 0 <= i < |feed.records| =>
      RawEntry(feed.records[i].recvSec, MakesRow(feed, feed.records[i])))
  }

  predicate Usable(log: seq<Entry>, j: nat) {
    j < |log| && log[j].usable
  }

  predicate Timed(log: seq<Entry>, i: nat) {
    i < |log| && log[i].recv.Some?
  }

  function At(log: seq<Entry>, i: nat): U32
    requires Timed(log, i)
  {
    log[i].recv.value
  }

  // ----- the state machine -----

  /** Record numbers stand for rows. `starts` lists the watermark of every restart so far. */
  datatype State = State(
    running: bool, pos: nat, start: U32, maxRecv: U32, batch: seq<nat>,
    persisted: U32, db: seq<nat>, published: seq<nat>, starts: seq<U32>)

  const INITIAL := State(false, 0, 0, 0, [], 0, [], [], [])

  /** How a flush of a non-empty batch ends. All but the first two end the process. */
  datatype Outcome = Done | SetFails | DiesBeforeSet | InsertFails | RedisFails(sent: nat)

  datatype Event = Receive(flush: Outcome) | Tick(flush: Outcome) | Shutdown(flush: Outcome) | Crash | Restart(getOk: bool)

  function Sent(batch: seq<nat>, sent: nat): seq<nat> {
    if sent < |batch| then batch[..sent] else batch
  }

  function Flushed(s: State, o: Outcome): State {
    if s.batch == [] then s
    else
      match o
      case Done =>
        s.(batch := [], published := s.published + s.batch, db := s.db + s.batch, persisted := s.maxRecv)
      case SetFails => s.(batch := [], published := s.published + s.batch, db := s.db + s.batch)
      case DiesBeforeSet => s.(running := false, published := s.published + s.batch, db := s.db + s.batch)
      case InsertFails => s.(running := false, published := s.published + s.batch)
      case RedisFails(sent) => s.(running := false, published := s.published + Sent(s.batch, sent))
  }

  /** The next record read, before any flush: skipped below the resume watermark, otherwise it
      raises the running maximum and joins the batch when it is usable. */
  function Taken(log: seq<Entry>, s: State): State
    requires s.pos < |log|
  {
    var e, t := log[s.pos], s.(pos := s.pos + 1);
    if e.recv.Some? && e.recv.value < s.start then t
    else
      var u := if e.recv.Some? && e.recv.value > t.maxRecv then t.(maxRecv := e.recv.value) else t;
      if e.usable then u.(batch := u.batch + [s.pos]) else u
  }

  /** Only a batch that just grew is flushed for its size. */
  function Received(log: seq<Entry>, s: State, o: Outcome): State
    requires s.pos < |log|
  {
    var t := Taken(log, s);
    if |t.batch| > |s.batch| && |t.batch| >= BATCH_MAX_ROWS then Flushed(t, o) else t
  }

  /** An event that cannot happen in a state leaves it alone, so every event list is a run. */
  function Next(log: seq<Entry>, s: State, e: Event): State {
    match e
    case Receive(o) => if s.running && s.pos < |log| then Received(log, s, o) else s
    case Tick(o) => if s.running then Flushed(s, o) else s
    case Shutdown(o) => if s.running then Flushed(s, o).(running := false) else s
    case Crash => s.(running := false)
    case Restart(getOk) =>
      if s.running then s
      else
        var w := if getOk then s.persisted else 0;
        s.(running := true, pos := 0, start := w, maxRecv := w, batch := [], starts := s.starts + [w])
  }

  function Run(log: seq<Entry>, es: seq<Event>): State {
    if es == [] then INITIAL else Next(log, Run(log, es[..|es| - 1]), es[|es| - 1])
  }

  // ----- no usable record below the watermark is missing -----

  ghost predicate Covered(log: seq<Entry>, db: seq<nat>, w: U32) {
    forall j: nat {:trigger Usable(log, j)} :: Usable(log, j) && At(log, j) < w ==> j in db
  }

  ghost predicate Safe(log: seq<Entry>, s: State) {
    Covered(log, s.db, s.persisted)
  }

  /** Usable record `j` comes after a later-stamped record `i` and after some usable record `k`. */
  ghost predicate LateAt(log: seq<Entry>, i: nat, j: nat, k: nat) {
    i < j && k < j && Timed(log, i) && Usable(log, j) && Usable(log, k) && At(log, i) > At(log, j)
  }

  ghost predicate HasLate(log: seq<Entry>) {
    exists i: nat, j: nat, k: nat :: LateAt(log, i, j, k)
  }

  ghost predicate Held(log: seq<Entry>, s: State) {
    forall j: nat {:trigger Usable(log, j)} :: j < s.pos && Usable(log, j) ==> j in s.db || j in s.batch
  }

  ghost predicate BatchOk(log: seq<Entry>, s: State) {
    forall j {:trigger j in s.batch} :: j in s.batch ==> j < s.pos && Usable(log, j)
  }

  ghost predicate Source(log: seq<Entry>, s: State, i: nat) {
    i < s.pos && Timed(log, i) && At(log, i) == s.maxRecv
  }

  /** The running maximum is the resume watermark or was read from a record of this run. */
  ghost predicate MaxIsSeen(log: seq<Entry>, s: State) {
    s.maxRecv == s.start || exists i: nat :: Source(log, s, i)
  }

  ghost predicate Live(log: seq<Entry>, s: State) {
    && s.pos <= |log|
    && Covered(log, s.db, s.start)
    && Held(log, s)
    && BatchOk(log, s)
    && MaxIsSeen(log, s)
  }

  ghost predicate Inv(log: seq<Entry>, s: State) {
    Safe(log, s) && (s.running ==> Live(log, s))
  }

  lemma CoveredGrows(log: seq<Entry>, db: seq<nat>, more: seq<nat>, w: U32)
    requires Covered(log, db, w)
    ensures Covered(log, db + more, w)
  {
  }

  lemma TakenKeepsLive(log: seq<Entry>, s: State)
    requires s.pos < |log| && Live(log, s)
    ensures Live(log, Taken(log, s))
  {
    var t := Taken(log, s);
    assert Held(log, t) by {
      forall j: nat | j < t.pos && Usable(log, j)
        ensures j in t.db || j in t.batch
      {
      }
    }
    if t.maxRecv != s.maxRecv {
      assert Source(log, t, s.pos);
    } else if t.maxRecv != t.start {
      var i: nat :| Source(log, s, i);
      assert Source(log, t, i);
    }
  }

  /** The step the whole protocol hinges on: when a flush moves the watermark to the running
      maximum, everything usable below it is already in the database. */
  lemma FlushCovers(log: seq<Entry>, s: State)
    requires Live(log, s) && s.batch != [] && !HasLate(log)
    ensures Covered(log, s.db + s.batch, s.maxRecv)
  {
    forall j: nat | Usable(log, j) && At(log, j) < s.maxRecv
      ensures j in s.db + s.batch
    {
      if s.pos <= j && s.maxRecv != s.start {
        var i: nat :| Source(log, s, i);
        var k := s.batch[0];
        assert k in s.batch;
        assert LateAt(log, i, j, k);
      }
    }
  }

  lemma FlushKeepsInv(log: seq<Entry>, s: State, o: Outcome)
    requires s.running && Inv(log, s) && !HasLate(log)
    ensures Inv(log, Flushed(s, o))
  {
    if s.batch != [] {
      var t := Flushed(s, o);
      FlushCovers(log, s);
      CoveredGrows(log, s.db, s.batch, s.persisted);
      CoveredGrows(log, s.db, s.batch, s.start);
      if t.running && s.maxRecv != s.start {
        var i: nat :| Source(log, s, i);
        assert Source(log, t, i);
      }
    }
  }

  lemma NextKeepsInv(log: seq<Entry>, s: State, e: Event)
    requires Inv(log, s) && !HasLate(log)
    ensures Inv(log, Next(log, s, e))
  {
    match e
    case Receive(o) =>
      if s.running && s.pos < |log| {
        TakenKeepsLive(log, s);
        FlushKeepsInv(log, Taken(log, s), o);
      }
    case Tick(o) =>
      if s.running {
        FlushKeepsInv(log, s, o);
      }
    case Shutdown(o) =>
      if s.running {
        FlushKeepsInv(log, s, o);
      }
    case Crash =>
    case Restart(getOk) =>
  }

  lemma {:induction false} RunKeepsInv(log: seq<Entry>, es: seq<Event>)
    requires !HasLate(log)
    ensures Inv(log, Run(log, es))
  {
    if es != [] {
      RunKeepsInv(log, es[..|es| - 1]);
      NextKeepsInv(log, Run(log, es[..|es| - 1]), es[|es| - 1]);
    }
  }

  ghost predicate InOrder(log: seq<Entry>) {
    forall i: nat, j: nat {:trigger Timed(log, i), Timed(log, j)} ::
      i < j && Timed(log, i) && Timed(log, j) ==> At(log, i) <= At(log, j)
  }

  /** Over a log in receive order nothing is lost, whatever fails and whenever the process dies. */
  lemma {:induction false} NothingBelowTheWatermarkIsLost(log: seq<Entry>, es: seq<Event>)
    requires InOrder(log)
    ensures Safe(log, Run(log, es))
  {
    if HasLate(log) {
      var i: nat, j: nat, k: nat :| LateAt(log, i, j, k);
      assert Timed(log, j);
      assert false;
    }
    RunKeepsInv(log, es);
  }

  /** A run that reads the whole log and whose last flush reaches the database leaves every
      usable record there. */
  lemma {:induction false} CompleteReadStoresAll(log: seq<Entry>, es: seq<Event>, o: Outcome, j: nat)
    requires !HasLate(log) && Usable(log, j)
    requires var s := Run(log, es); s.running && s.pos == |log|
    requires o == Done || o == SetFails || o == DiesBeforeSet
    ensures j in Run(log, es + [Shutdown(o)]).db
  {
    RunKeepsInv(log, es);
    assert (es + [Shutdown(o)])[..|es|] == es;
  }

  // ----- exactly which logs are safe -----

  lemma RunSnoc(log: seq<Entry>, es: seq<Event>, e: Event)
    ensures Run(log, es + [e]) == Next(log, Run(log, es), e)
  {
    assert (es + [e])[..|es|] == es;
  }

  /** The maximum dominates every record read, and nothing beyond the position is stored. */
  ghost predicate Reading(log: seq<Entry>, s: State, n: nat) {
    && s.running && s.pos == n && n <= |log| && s.start == 0
    && (forall i: nat {:trigger Timed(log, i)} :: i < n && Timed(log, i) ==> At(log, i) <= s.maxRecv)
    && (forall j {:trigger j in s.db} :: j in s.db ==> j < n)
    && (forall j {:trigger j in s.batch} :: j in s.batch ==> j < n)
  }

  lemma TakenKeepsReading(log: seq<Entry>, s: State, n: nat)
    requires Reading(log, s, n) && n < |log|
    ensures Reading(log, Taken(log, s), n + 1)
    ensures Taken(log, s).batch == if log[n].usable then s.batch + [n] else s.batch
  {
  }

  /** Read the first `n` records, flushing after each one. */
  lemma {:induction false} ReadFlushed(log: seq<Entry>, n: nat) returns (es: seq<Event>)
    requires n <= |log|
    ensures Reading(log, Run(log, es), n) && Run(log, es).batch == []
  {
    if n == 0 {
      es := [Restart(true)];
      RunSnoc(log, [], Restart(true));
      assert [] + [Restart(true)] == es;
    } else {
      var before := ReadFlushed(log, n - 1);
      TakenKeepsReading(log, Run(log, before), n - 1);
      es := before + [Receive(Done)];
      RunSnoc(log, before, Receive(Done));
      RunSnoc(log, es, Tick(Done));
      es := es + [Tick(Done)];
    }
  }

  lemma ReceiveKeepsReading(log: seq<Entry>, s: State, n: nat)
    requires Reading(log, s, n) && n < |log| && (s.batch == [] || !log[n].usable) && |s.batch| <= 1
    ensures var t := Next(log, s, Receive(Done));
      Reading(log, t, n + 1) && t.batch == if log[n].usable then [n] else s.batch
  {
    TakenKeepsReading(log, s, n);
    assert log[n].usable ==> [] + [n] == [n];
  }

  /** Keep usable record `k` in the batch and read on to `n` over records that are not usable. */
  lemma {:induction false} ReadHolding(log: seq<Entry>, k: nat, n: nat) returns (es: seq<Event>)
    requires k < n <= |log| && Usable(log, k)
    requires forall m: nat {:trigger Usable(log, m)} :: k < m < n ==> !Usable(log, m)
    ensures Reading(log, Run(log, es), n) && Run(log, es).batch == [k]
  {
    var before: seq<Event>;
    if n == k + 1 {
      before := ReadFlushed(log, k);
    } else {
      assert !Usable(log, n - 1);
      before := ReadHolding(log, k, n - 1);
    }
    ReceiveKeepsReading(log, Run(log, before), n - 1);
    es := before + [Receive(Done)];
    RunSnoc(log, before, Receive(Done));
  }

  lemma {:induction false} LastUsable(log: seq<Entry>, n: nat, k: nat) returns (l: nat)
    requires k < n && Usable(log, k)
    ensures k <= l < n && Usable(log, l) && forall m: nat {:trigger Usable(log, m)} :: l < m < n ==> !Usable(log, m)
  {
    if k + 1 == n || Usable(log, n - 1) {
      l := n - 1;
    } else {
      l := LastUsable(log, n - 1, k);
    }
  }

  /** A late record can be lost: flush just before it arrives. */
  lemma LateRecordCanBeLost(log: seq<Entry>, i: nat, j: nat, k: nat) returns (es: seq<Event>)
    requires LateAt(log, i, j, k)
    ensures j !in Run(log, es).db && At(log, j) < Run(log, es).persisted
  {
    var l := LastUsable(log, j, k);
    var before := ReadHolding(log, l, j);
    es := before + [Tick(Done)];
    RunSnoc(log, before, Tick(Done));
    assert At(log, i) <= Run(log, es).persisted;
  }

  ghost predicate SafeInEveryRun(log: seq<Entry>) {
    forall es: seq<Event> :: Safe(log, Run(log, es))
  }

  /** The protocol is safe on exactly the logs without a late record. Receive order is sufficient
      but not necessary: a late record before any usable one does no harm. */
  lemma SafeExactlyWithoutLateRecords(log: seq<Entry>)
    ensures SafeInEveryRun(log) <==> !HasLate(log)
  {
    if HasLate(log) {
      var i: nat, j: nat, k: nat :| LateAt(log, i, j, k);
      var es := LateRecordCanBeLost(log, i, j, k);
      assert Usable(log, j) && !Safe(log, Run(log, es));
    } else {
      forall es: seq<Event>
        ensures Safe(log, Run(log, es))
      {
        RunKeepsInv(log, es);
      }
    }
  }

  /** Record `j` is below the watermark, missing from the database, and not on its way there. */
  ghost predicate Gone(log: seq<Entry>, s: State, j: nat)
    requires Usable(log, j)
  {
    && j !in s.db && At(log, j) < s.persisted
    && (s.running ==> j !in s.batch && At(log, j) < s.start <= s.maxRecv)
  }

  predicate ReadsWatermark(e: Event) {
    e.Restart? ==> e.getOk
  }

  function Continue(log: seq<Entry>, s: State, es: seq<Event>): State
    decreases |es|
  {
    if es == [] then s else Continue(log, Next(log, s, es[0]), es[1..])
  }

  /** Once the process has died with a record missing below the watermark, no later run that
      can read the watermark ever stores it. */
  lemma StaysGone(log: seq<Entry>, s: State, e: Event, j: nat)
    requires Usable(log, j) && Gone(log, s, j) && ReadsWatermark(e)
    ensures Gone(log, Next(log, s, e), j)
  {
  }

  lemma {:induction false} GoneForGood(log: seq<Entry>, s: State, es: seq<Event>, j: nat)
    requires Usable(log, j) && Gone(log, s, j)
    requires forall i {:trigger es[i]} :: 0 <= i < |es| ==> ReadsWatermark(es[i])
    ensures j !in Continue(log, s, es).db
    decreases |es|
  {
    if es != [] {
      StaysGone(log, s, es[0], j);
      GoneForGood(log, Next(log, s, es[0]), es[1..], j);
    }
  }

  // ----- duplicates -----

  function Times<T(==)>(s: seq<T>, x: T): nat {
    if s == [] then 0 else Times(s[..|s| - 1], x) + (if s[|s| - 1] == x then 1 else 0)
  }

  /** The flush is all or nothing and the watermark is readable. */
  predicate Atomic(e: Event) {
    match e
    case Crash => true
    case Restart(getOk) => getOk
    case Receive(o) => o != SetFails && o != DiesBeforeSet
    case Tick(o) => o != SetFails && o != DiesBeforeSet
    case Shutdown(o) => o != SetFails && o != DiesBeforeSet
  }

  ghost predicate AllAtomic(es: seq<Event>) {
    forall i {:trigger es[i]} :: 0 <= i < |es| ==> Atomic(es[i])
  }

  /** Rows of record `j` stored, held, or still to be read in this run. */
  ghost function Copies(log: seq<Entry>, s: State, j: nat): nat
    requires Usable(log, j)
  {
    Times(s.db, j) + (if s.running then Times(s.batch, j) + (if s.pos <= j && At(log, j) >= s.start then 1 else 0) else 0)
  }

  /** Every copy after the first was paid for by a restart exactly at the record's second. */
  ghost predicate Paid(log: seq<Entry>, s: State, j: nat)
    requires Usable(log, j)
  {
    && Copies(log, s, j) <= 1 + Times(s.starts, At(log, j))
    && (Times(s.db, j) > 0 ==> At(log, j) <= s.persisted)
    && (s.running ==> s.persisted <= s.maxRecv && (Times(s.batch, j) > 0 ==> At(log, j) <= s.maxRecv))
  }

  lemma TimesSnoc<T>(s: seq<T>, y: T, x: T)
    ensures Times(s + [y], x) == Times(s, x) + (if y == x then 1 else 0)
  {
    assert (s + [y])[..|s|] == s;
  }

  lemma TimesTwice<T>(y: T, x: T)
    ensures Times([y, y], x) == if y == x then 2 else 0
  {
    TimesSnoc([y], y, x);
    TimesSnoc([], y, x);
    assert [y] + [y] == [y, y] && [] + [y] == [y];
  }

  lemma {:induction false} TimesConcat<T>(s: seq<T>, t: seq<T>, x: T)
    ensures Times(s + t, x) == Times(s, x) + Times(t, x)
  {
    if t == [] {
      assert s + t == s;
    } else {
      assert (s + t)[..|s + t| - 1] == s + t[..|t| - 1];
      TimesConcat(s, t[..|t| - 1], x);
    }
  }

  lemma {:induction false} TakenKeepsPaid(log: seq<Entry>, s: State, j: nat)
    requires Usable(log, j) && Paid(log, s, j) && s.running && s.pos < |log|
    ensures Paid(log, Taken(log, s), j)
  {
    TimesSnoc(s.batch, s.pos, j);
  }

  lemma {:induction false} FlushKeepsPaid(log: seq<Entry>, s: State, o: Outcome, j: nat)
    requires Usable(log, j) && Paid(log, s, j) && s.running && o != SetFails && o != DiesBeforeSet
    ensures Paid(log, Flushed(s, o), j)
  {
    if s.batch != [] && o == Done {
      TimesConcat(s.db, s.batch, j);
    }
  }

  lemma {:induction false} RestartKeepsPaid(log: seq<Entry>, s: State, j: nat)
    requires Usable(log, j) && Paid(log, s, j) && !s.running
    ensures Paid(log, Next(log, s, Restart(true)), j)
  {
    TimesSnoc(s.starts, s.persisted, At(log, j));
  }

  lemma {:induction false} NextKeepsPaid(log: seq<Entry>, s: State, e: Event, j: nat)
    requires Usable(log, j) && Paid(log, s, j) && Atomic(e)
    ensures Paid(log, Next(log, s, e), j)
  {
    match e
    case Receive(o) =>
      if s.running && s.pos < |log| {
        TakenKeepsPaid(log, s, j);
        FlushKeepsPaid(log, Taken(log, s), o, j);
      }
    case Tick(o) =>
      if s.running {
        FlushKeepsPaid(log, s, o, j);
      }
    case Shutdown(o) =>
      if s.running {
        FlushKeepsPaid(log, s, o, j);
      }
    case Crash =>
    case Restart(getOk) =>
      if !s.running {
        RestartKeepsPaid(log, s, j);
      }
  }

  lemma {:induction false} RunKeepsPaid(log: seq<Entry>, es: seq<Event>, j: nat)
    requires Usable(log, j) && AllAtomic(es)
    ensures Paid(log, Run(log, es), j)
  {
    if es != [] {
      var before := es[..|es| - 1];
      RunKeepsPaid(log, before, j);
      NextKeepsPaid(log, Run(log, before), es[|es| - 1], j);
    }
  }

  /** Over any log: with atomic flushes a record is stored at most once more than the number of
      restarts whose watermark was its own second. */
  lemma DuplicatesCostARestart(log: seq<Entry>, es: seq<Event>, j: nat)
    requires Usable(log, j) && AllAtomic(es)
    ensures Times(Run(log, es).db, j) <= 1 + Times(Run(log, es).starts, At(log, j))
  {
    RunKeepsPaid(log, es, j);
  }

  /** The three ways out of atomicity: the SET is lost, the process dies just before it, or the
      watermark cannot be read back. */
  predicate Excluded(o: Outcome, getOk: bool) {
    (getOk && (o == SetFails || o == DiesBeforeSet)) || (!getOk && o == Done)
  }

  /** Store the one record of a log that way, start over and store it again. */
  lemma StoreTwice(log: seq<Entry>, o: Outcome, getOk: bool) returns (es: seq<Event>)
    requires |log| == 1 && log[0].usable && Excluded(o, getOk)
    ensures Run(log, es).db == [0, 0] && Run(log, es).starts == [0, 0]
  {
    var e1 := [Restart(true), Receive(Done)];
    var e2 := e1 + [Tick(o)];
    RunSnoc(log, [], Restart(true));
    RunSnoc(log, [Restart(true)], Receive(Done));
    assert [] + [Restart(true)] == [Restart(true)] && [Restart(true)] + [Receive(Done)] == e1;
    RunSnoc(log, e1, Tick(o));
    var s := Run(log, e2);
    assert s.db == [0] && s.starts == [0] && (getOk ==> s.persisted == 0);
    es := StoreAgain(log, e2, getOk);
  }

  lemma StoreAgain(log: seq<Entry>, before: seq<Event>, getOk: bool) returns (es: seq<Event>)
    requires |log| == 1 && log[0].usable
    requires var s := Run(log, before); s.db == [0] && s.starts == [0] && (getOk ==> s.persisted == 0)
    ensures Run(log, es).db == [0, 0] && Run(log, es).starts == [0, 0]
  {
    var e3 := before + [Crash];
    var e4 := e3 + [Restart(getOk)];
    var e5 := e4 + [Receive(Done)];
    es := e5 + [Tick(Done)];
    RunSnoc(log, before, Crash);
    RunSnoc(log, e3, Restart(getOk));
    RunSnoc(log, e4, Receive(Done));
    RunSnoc(log, e5, Tick(Done));
  }

  /** Each of the three breaks the bound: a record is stored twice although no restart was at
      its second. */
  lemma EveryExclusionIsNeeded(log: seq<Entry>, o: Outcome, getOk: bool) returns (es: seq<Event>)
    requires |log| == 1 && log[0].usable && At(log, 0) > 0 && Excluded(o, getOk)
    ensures Times(Run(log, es).db, 0) == 2 && Times(Run(log, es).starts, At(log, 0)) == 0
  {
    es := StoreTwice(log, o, getOk);
    TimesTwice(0 as nat, 0);
    TimesTwice(0 as U32, At(log, 0));
  }

  // ----- published before stored -----

  /** Record `j` was published at least as often as it is stored, and only if it is usable. */
  ghost predicate PublishedFirst(log: seq<Entry>, s: State, j: nat) {
    && Times(s.db, j) <= Times(s.published, j)
    && (Times(s.db, j) > 0 || (s.running && Times(s.batch, j) > 0) ==> Usable(log, j))
  }

  lemma {:induction false} FlushPublishes(log: seq<Entry>, s: State, o: Outcome, j: nat)
    requires PublishedFirst(log, s, j) && s.running
    ensures PublishedFirst(log, Flushed(s, o), j)
  {
    if s.batch != [] {
      TimesConcat(s.db, s.batch, j);
      TimesConcat(s.published, s.batch, j);
      if o.RedisFails? {
        TimesConcat(s.published, Sent(s.batch, o.sent), j);
      }
    }
  }

  lemma {:induction false} TakenPublishes(log: seq<Entry>, s: State, j: nat)
    requires PublishedFirst(log, s, j) && s.running && s.pos < |log|
    ensures PublishedFirst(log, Taken(log, s), j)
  {
    TimesSnoc(s.batch, s.pos, j);
  }

  lemma {:induction false} NextPublishes(log: seq<Entry>, s: State, e: Event, j: nat)
    requires PublishedFirst(log, s, j)
    ensures PublishedFirst(log, Next(log, s, e), j)
  {
    match e
    case Receive(o) =>
      if s.running && s.pos < |log| {
        TakenPublishes(log, s, j);
        FlushPublishes(log, Taken(log, s), o, j);
      }
    case Tick(o) =>
      if s.running {
        FlushPublishes(log, s, o, j);
      }
    case Shutdown(o) =>
      if s.running {
        FlushPublishes(log, s, o, j);
      }
    case Crash =>
    case Restart(getOk) =>
  }

  lemma {:induction false} StoredWasPublished(log: seq<Entry>, es: seq<Event>, j: nat)
    ensures PublishedFirst(log, Run(log, es), j)
  {
    if es != [] {
      StoredWasPublished(log, es[..|es| - 1], j);
      NextPublishes(log, Run(log, es[..|es| - 1]), es[|es| - 1], j);
    }
  }

  // ----- the process -----

  class Ingestor {
    const feed: Feed
    var running: bool
    var pos: nat
    var start: U32
    var maxRecv: U32
    var batch: seq<nat>
    var persisted: U32
    var db: seq<nat>
    var published: seq<nat>
    ghost var starts: seq<U32>

    ghost function Now(): State
      reads this
    {
      State(running, pos, start, maxRecv, batch, persisted, db, published, starts)
    }

    constructor (records: Feed)
      ensures feed == records && Now() == INITIAL
    {
      feed := records;
      running, pos, start, maxRecv, batch := false, 0, 0, 0, [];
      persisted, db, published, starts := 0, [], [], [];
    }

    /** The pipelined XADD and PUBLISH of the batch; a failure may come after any prefix. */
    method Publish(upTo: nat)
      modifies `published
      ensures published == old(published) + Sent(batch, upTo)
    {
      var i := 0;
      while i < |batch| && i < upTo
        invariant i <= |batch| && i <= upTo
        invariant published == old(published) + batch[..i]
      {
        published := published + [batch[i]];
        i := i + 1;
      }
      assert batch[..i] == Sent(batch, upTo);
    }

    /** `o` is how the outside world answers; `ok` is false when the error ends the process. */
    method Flush(o: Outcome) returns (ok: bool)
      requires running
      modifies `batch, `persisted, `db, `published
      ensures Now().(running := ok) == Flushed(old(Now()), o)
    {
      if |batch| == 0 {
        return true;
      }
      Publish(if o.RedisFails? then o.sent else |batch|);
      if o.RedisFails? || o == InsertFails {
        return false;
      }
      db := db + batch;
      if o == DiesBeforeSet {
        return false;
      }
      if o == Done {
        persisted := maxRecv;
      }
      batch := [];
      ok := true;
    }

    /** The rule of `to_row`, one field after the other. */
    method ToRow(rec: FlowRecord) returns (ok: bool)
      ensures ok == MakesRow(feed, rec)
    {
      if rec.recvSec.None? || !feed.dated(rec.recvSec.value, RecvNanos(rec)) {
        return false;
      }
      if rec.srcAddr.None? || rec.dstAddr.None? || rec.packets.None? || rec.octets.None? {
        return false;
      }
      ok := feed.written(rec);
    }

    /** One record from the parser channel. */
    method OnRecord(o: Outcome)
      requires running && pos < |feed.records|
      modifies this
      ensures Now() == Received(Entries(feed), old(Now()), o)
    {
      var rec := feed.records[pos];
      pos := pos + 1;
      if rec.recvSec.Some? {
        if rec.recvSec.value < start {
          return;
        }
        if rec.recvSec.value > maxRecv {
          maxRecv := rec.recvSec.value;
        }
      }
      var ok := ToRow(rec);
      if ok {
        batch := batch + [pos - 1];
        if |batch| >= BATCH_MAX_ROWS {
          running := Flush(o);
        }
      }
    }

    /** Connect, read the watermark (zero when it cannot be read) and start over from the top. */
    method Boot(getOk: bool)
      requires !running
      modifies this
      ensures Now() == Next(Entries(feed), old(Now()), Restart(getOk))
    {
      start := if getOk then persisted else 0;
      starts := starts + [start];
      maxRecv := start;
      batch := [];
      pos := 0;
      running := true;
    }

    method On(e: Event)
      modifies this
      ensures Now() == Next(Entries(feed), old(Now()), e)
    {
      match e
      case Receive(o) =>
        if running && pos < |feed.records| {
          OnRecord(o);
        }
      case Tick(o) =>
        if running {
          running := Flush(o);
        }
      case Shutdown(o) =>
        if running {
          running := Flush(o);
          running := false;
        }
      case Crash =>
        running := false;
      case Restart(getOk) =>
        if !running {
          Boot(getOk);
        }
    }

    /** The select loop, across restarts. */
    method Serve(es: seq<Event>)
      requires Now() == INITIAL
      modifies this
      ensures Now() == Run(Entries(feed), es)
    {
      for i := 0 to |es|
        invariant Now() == Run(Entries(feed), es[..i])
      {
        On(es[i]);
        assert es[..i + 1][..i] == es[..i];
      }
      assert es[..|es|] == es;
    }
  }
}
