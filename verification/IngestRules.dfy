// Which records become rows, and what every moment of the process holds, in counts and seconds.
module IngestRules {
  import opened Options
  import opened Bytes
  import opened Ingest

  // ----- rows -----

  /** A record makes a row exactly when it has a receive second, two addresses and two counters,
      its JSON can be written, and its second is a date together with its nanoseconds: a thousand
      times the microseconds, at most 4294967295, and 0 when there are none. */
  lemma RowsAre(feed: Feed, i: nat, usec: nat, nanos: U32)
    requires i < |feed.records|
    requires usec == match feed.records[i].recvUsec case None => 0 case Some(u) => u
    requires nanos as int == if usec <= 4294967 then 1000 * usec else 4294967295
    ensures var r, e := feed.records[i], Entries(feed)[i];
      && e.recv == r.recvSec
      && (e.usable <==>
            && r.recvSec != None && r.srcAddr != None && r.dstAddr != None && r.packets != None && r.octets != None
            && feed.dated(r.recvSec.value, nanos) && feed.written(r))
  {
  }

  // ----- every moment -----

  /** The records read so far that are not skipped: usable and stamped no earlier than the start. */
  function Fresh(log: seq<Entry>, start: U32, n: nat): (r: seq<nat>)
    requires n <= |log|
  {
    if n == 0 then [] else
      Fresh(log, start, n - 1) + if log[n - 1].usable && log[n - 1].recv.value >= start then [n - 1] else []
  }

  /** The latest second among the start and the records read so far. */
  function Latest(log: seq<Entry>, start: U32, n: nat): (m: U32)
    requires n <= |log|
    ensures m >= start
  {
    if n == 0 then start
    else
      var m := Latest(log, start, n - 1);
      if log[n - 1].recv.Some? && log[n - 1].recv.value > m then log[n - 1].recv.value else m
  }

  lemma {:induction false} LatestIsMaximum(log: seq<Entry>, start: U32, n: nat)
    requires n <= |log|
    ensures var m := Latest(log, start, n);
      && (forall i :: 0 <= i < n && log[i].recv.Some? ==> log[i].recv.value <= m)
      && (m == start || exists i :: 0 <= i < n && log[i].recv == Some(m))
  {
    if n > 0 {
      LatestIsMaximum(log, start, n - 1);
    }
  }

  /** Between two flushes fewer than 1000 rows wait, which are the last fresh records read; the
      running maximum is the latest second. */
  ghost predicate Moment(log: seq<Entry>, s: State) {
    && s.pos <= |log| && |s.batch| < 1000
    && s.maxRecv == Latest(log, s.start, s.pos)
    && EndsWith(Fresh(log, s.start, s.pos), s.batch)
  }

  ghost predicate EndsWith(all: seq<nat>, end: seq<nat>) {
    |end| <= |all| && all[|all| - |end|..] == end
  }

  lemma FlushedMoment(log: seq<Entry>, s: State, t: State, o: Outcome)
    requires s.pos <= |log| && s.maxRecv == Latest(log, s.start, s.pos)
    requires t == Flushed(s, o) && s.batch != []
    ensures t.running ==> Moment(log, t)
  {
  }

  /** The next record is a fresh one. */
  predicate Joins(log: seq<Entry>, s: State)
    requires s.pos < |log|
  {
    log[s.pos].usable && log[s.pos].recv.value >= s.start
  }

  lemma TakenIs(log: seq<Entry>, s: State)
    requires s.pos < |log|
    ensures var t := Taken(log, s);
      && t.pos == s.pos + 1 && t.start == s.start && t.running == s.running
      && t.batch == (if Joins(log, s) then s.batch + [s.pos] else s.batch)
      && t.maxRecv == (if log[s.pos].recv.Some? && log[s.pos].recv.value >= s.start && log[s.pos].recv.value > s.maxRecv
                       then log[s.pos].recv.value else s.maxRecv)
  {
  }

  lemma EndGrows(all: seq<nat>, end: seq<nat>, n: nat)
    requires EndsWith(all, end)
    ensures EndsWith(all + [n], end + [n]) && EndsWith(all + [], end)
  {
    assert all + [] == all;
    assert (all + [n])[|all| - |end|..] == all[|all| - |end|..] + [n];
  }

  lemma TakenMoment(log: seq<Entry>, s: State)
    requires s.pos < |log| && Moment(log, s)
    ensures var t := Taken(log, s);
      && t.pos == s.pos + 1 && t.start == s.start && t.running == s.running && t.maxRecv == Latest(log, t.start, t.pos)
      && EndsWith(Fresh(log, t.start, t.pos), t.batch)
      && t.batch == if Joins(log, s) then s.batch + [s.pos] else s.batch
  {
    TakenIs(log, s);
    EndGrows(Fresh(log, s.start, s.pos), s.batch, s.pos);
  }

  lemma ReceivedIs(log: seq<Entry>, s: State, t: State, o: Outcome)
    requires s.pos < |log| && t == Taken(log, s) && |s.batch| < 1000
    requires t.batch == if Joins(log, s) then s.batch + [s.pos] else s.batch
    ensures Received(log, s, o) == if |t.batch| == 1000 then Flushed(t, o) else t
  {
  }

  lemma ReceivedMoment(log: seq<Entry>, s: State, o: Outcome)
    requires s.running && s.pos < |log| && Moment(log, s)
    ensures Received(log, s, o).running ==> Moment(log, Received(log, s, o))
  {
    TakenMoment(log, s);
    var t := Taken(log, s);
    ReceivedIs(log, s, t, o);
    if |t.batch| == 1000 {
      FlushedMoment(log, t, Flushed(t, o), o);
    }
  }

  /** In every run the process, while it runs, holds fewer than 1000 rows, the last fresh ones it
      read, and its running maximum is the latest second it saw. */
  lemma {:induction false} EveryMoment(log: seq<Entry>, es: seq<Event>)
    ensures Run(log, es).running ==> Moment(log, Run(log, es))
  {
    if es != [] {
      var s, e := Run(log, es[..|es| - 1]), es[|es| - 1];
      EveryMoment(log, es[..|es| - 1]);
      match e
      case Receive(o) =>
        if s.running && s.pos < |log| {
          ReceivedMoment(log, s, o);
        }
      case Tick(o) =>
        if s.running && s.batch != [] {
          FlushedMoment(log, s, Flushed(s, o), o);
        }
      case Shutdown(o) =>
      case Crash =>
      case Restart(getOk) =>
    }
  }

  /** A record is flushed for the size of the batch exactly when it joins as the thousandth. */
  lemma SizeFlushesAt1000(log: seq<Entry>, es: seq<Event>, o: Outcome)
    requires Run(log, es).running && Run(log, es).pos < |log|
    ensures var s := Run(log, es);
      && Taken(log, s).batch == (if Joins(log, s) then s.batch + [s.pos] else s.batch)
      && Received(log, s, o) == if Joins(log, s) && |s.batch| == 999 then Flushed(Taken(log, s), o) else Taken(log, s)
  {
    var s := Run(log, es);
    EveryMoment(log, es);
    TakenMoment(log, s);
    ReceivedIs(log, s, Taken(log, s), o);
  }
}
