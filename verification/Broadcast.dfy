/** The gossip cursor over the local log: internal/sync/broadcast.go. */
module Broadcast {
  import opened Changelog
  import opened Store
  import opened Resolver
  import opened Capture
  import opened Ranges
  import opened Gc
  import opened Collection

  const MAX_BYTES: nat := 0x10_0000

  datatype Cursor = Cursor(lastSent: nat, started: bool)

  /** One Collect: the first call only anchors the cursor; later calls take the
      next chunk of own rows and move past it. */
  ghost predicate Collects(db: Db, c: Cursor, lim: Limits, r: Result<seq<Event>>, d: Cursor) {
    if !c.started then r == Ok([]) && d == Cursor(db.local.currentSeq, true)
    else if db.local.currentSeq <= c.lastSent then r == Ok([]) && d == c
    else if Collected(db, db.local.self, c.lastSent + 1) then r == Err(HistoryTruncated) && d == c
    else r.Ok? && TakesChunk(db, c, lim, r.value, d)
  }

  ghost predicate TakesChunk(db: Db, c: Cursor, lim: Limits, es: seq<Event>, d: Cursor) {
    && IsChunk(lim, RowsIn(db, db.local.self, c.lastSent + 1, db.local.currentSeq), es)
    && d == Cursor(if es == [] then db.local.currentSeq else es[|es| - 1].originSeq, true)
  }

  class Broadcaster {
    const db: Database
    var lastSent: nat
    var started: bool

    constructor (db: Database)
      ensures this.db == db && View() == Cursor(0, false)
    {
      this.db, lastSent, started := db, 0, false;
    }

    function View(): Cursor
      reads this
    {
      Cursor(lastSent, started)
    }

    method Collect(maxEvents: int, payloadBytes: Event -> nat) returns (r: Result<seq<Event>>)
      modifies this
      ensures Collects(db.View(), old(View()), Limits(maxEvents, MAX_BYTES, payloadBytes), r, View())
      ensures started
      ensures !old(started) ==> r == Ok([]) && lastSent == db.local.currentSeq
      ensures old(started) && db.local.currentSeq <= old(lastSent) ==> r == Ok([]) && lastSent == old(lastSent)
      ensures old(started) && old(lastSent) < db.local.currentSeq ==>
                && (r == Err(HistoryTruncated) <==>
                    db.local.self in db.meta.gcMarks && old(lastSent) < db.meta.gcMarks[db.local.self])
                && (r.Err? ==> lastSent == old(lastSent))
                && (r.Ok? ==>
                      && IsChunk(Limits(maxEvents, 1048576, payloadBytes),
                                 RowsIn(db.View(), db.local.self, old(lastSent) + 1, db.local.currentSeq), r.value)
                      && lastSent == if r.value == [] then db.local.currentSeq else r.value[|r.value| - 1].originSeq)
    {
      hide RowsIn, IsChunk, Collected;
      var current := db.local.currentSeq;
      if !started {
        lastSent := current;
        started := true;
        return Ok([]);
      }
      if current <= lastSent {
        return Ok([]);
      }
      var fetched := FetchRange(db, db.local.self, lastSent + 1, current, Limits(maxEvents, MAX_BYTES, payloadBytes));
      if fetched.Err? {
        return Err(HistoryTruncated);
      }
      var events := fetched.value;
      if |events| > 0 {
        lastSent := events[|events| - 1].originSeq;
      } else {
        lastSent := current;
      }
      return Ok(events);
    }
  }

  // ----- Runs -----

  /** The database and cursor, the anchor, everything broadcast since, and every
      own event ever logged. */
  datatype State = State(db: Db, cursor: Cursor, anchor: nat, sent: seq<Event>, logged: map<nat, Event>)

  datatype Step =
    | Write(spec: TableSpec, change: Change, wall: nat, changeId: string)
    | Send(lim: Limits, events: seq<Event>, after: Cursor)
    | Other(db: Db)

  /** Where collection may reach: nothing above the cursor once it is set. */
  function Floor(s: State): nat {
    if s.cursor.started then s.cursor.lastSent else s.db.local.currentSeq
  }

  /** `Other` is anything that leaves the own sequence alone and loses own rows
      only at or below the cursor: remote batches, acknowledgements, GC cycles
      that do not pass the cursor. */
  ghost predicate Enabled(s: State, step: Step) {
    match step
    case Write(_, _, _, _) => true
    case Send(lim, events, after) => Collects(s.db, s.cursor, lim, Ok(events), after)
    case Other(db) =>
      && db.local.self == s.db.local.self && db.local.currentSeq == s.db.local.currentSeq
      && Get(db.meta.gcMarks, db.local.self) <= Larger(Get(s.db.meta.gcMarks, db.local.self), Floor(s))
      && OwnRowsAbove(db, Floor(s)) == OwnRowsAbove(s.db, Floor(s))
  }

  function OwnRowsAbove(db: Db, floor: nat): map<nat, Event> {
    map k | k in EventsOf(db, db.local.self) && k > floor :: EventsOf(db, db.local.self)[k]
  }

  ghost function After(s: State, step: Step): State {
    match step
    case Write(spec, c, wall, id) =>
      var db := Captured(spec, s.db, c, wall, id);
      State(db, s.cursor, s.anchor, s.sent, s.logged + OwnRowsAbove(db, s.db.local.currentSeq))
    case Send(_, events, after) =>
      State(s.db, after, if s.cursor.started then s.anchor else after.lastSent, s.sent + events, s.logged)
    case Other(db) => s.(db := db)
  }

  ghost predicate Legal(s: State, steps: seq<Step>)
    decreases |steps|, 0
  {
    steps != [] ==>
      && Legal(s, steps[..|steps| - 1])
      && Enabled(AfterAll(s, steps[..|steps| - 1]), steps[|steps| - 1])
  }

  ghost function AfterAll(s: State, steps: seq<Step>): State
    requires Legal(s, steps)
    decreases |steps|, 1
  {
    if steps == [] then s else After(AfterAll(s, steps[..|steps| - 1]), steps[|steps| - 1])
  }

  /** A node whose own log is what it wrote, with nothing broadcast yet. */
  ghost predicate Begins(s: State) {
    && !s.cursor.started && s.sent == []
    && Get(s.db.meta.gcMarks, s.db.local.self) <= s.db.local.currentSeq
    && s.logged == EventsOf(s.db, s.db.local.self)
    && LoggedAreOwn(s)
  }

  ghost predicate LoggedAreOwn(s: State) {
    forall k :: k in s.logged ==>
                  k <= s.db.local.currentSeq && s.logged[k].originSeq == k && s.logged[k].origin == s.db.local.self
  }

  predicate IsEntry(logged: map<nat, Event>, k: nat, e: Event) {
    k in logged && logged[k] == e
  }

  /** The logged events from `from` on, one by one. */
  ghost predicate IsRunOf(logged: map<nat, Event>, from: nat, es: seq<Event>) {
    forall i :: 0 <= i < |es| ==> IsEntry(logged, from + i, es[i])
  }

  /** The broadcasts are the logged events anchor+1, anchor+2, ... in order. */
  ghost predicate SentInOrder(s: State) {
    s.cursor.lastSent == s.anchor + |s.sent| && IsRunOf(s.logged, s.anchor + 1, s.sent)
  }

  ghost predicate OwnLogOk(s: State) {
    && LoggedAreOwn(s)
    && (forall k :: k in Present(s.db, s.db.local.self) && k > Floor(s) ==>
                      k in s.logged && EventsOf(s.db, s.db.local.self)[k] == s.logged[k])
  }

  ghost predicate Invariant(s: State) {
    && OwnLogOk(s)
    && Get(s.db.meta.gcMarks, s.db.local.self) <= Floor(s) <= s.db.local.currentSeq
    && (forall k :: Floor(s) < k <= s.db.local.currentSeq ==> k in Present(s.db, s.db.local.self))
    && (!s.cursor.started ==> s.sent == [])
    && (s.cursor.started ==> SentInOrder(s))
  }

  lemma RunOfMore(a: map<nat, Event>, b: map<nat, Event>, from: nat, es: seq<Event>)
    requires IsRunOf(a, from, es) && forall k :: k in b ==> k !in a
    ensures IsRunOf(a + b, from, es)
  {
    forall i | 0 <= i < |es|
      ensures IsEntry(a + b, from + i, es[i])
    {
      assert IsEntry(a, from + i, es[i]);
    }
  }

  lemma RunOfAppend(a: map<nat, Event>, from: nat, es: seq<Event>, more: seq<Event>)
    requires IsRunOf(a, from, es) && IsRunOf(a, from + |es|, more)
    ensures IsRunOf(a, from, es + more)
  {
    forall i | 0 <= i < |es + more|
      ensures IsEntry(a, from + i, (es + more)[i])
    {
      assert i < |es| ==> IsEntry(a, from + i, es[i]);
      assert i >= |es| ==> IsEntry(a, from + |es| + (i - |es|), more[i - |es|]);
    }
  }

  lemma WriteKeepsInvariant(s: State, spec: TableSpec, c: Change, wall: nat, id: string)
    requires Invariant(s)
    ensures Invariant(After(s, Write(spec, c, wall, id)))
  {
    hide IsRunOf;
    var db := Captured(spec, s.db, c, wall, id);
    var t := After(s, Write(spec, c, wall, id));
    CaptureAppends(spec, s.db, c, wall, id);
    hide Captured;
    var more := OwnRowsAbove(db, s.db.local.currentSeq);
    assert forall k :: k in more ==> k !in s.logged;
    if s.cursor.started {
      RunOfMore(s.logged, more, s.anchor + 1, s.sent);
    }
    WriteKeepsOwnLog(s, db, more, t);
  }

  lemma WriteKeepsOwnLog(s: State, db: Db, more: map<nat, Event>, t: State)
    requires OwnLogOk(s) && Floor(s) <= s.db.local.currentSeq
    requires db.local.self == s.db.local.self && (SameOwnLog(s.db, db) || Appends(s.db, db))
    requires more == OwnRowsAbove(db, s.db.local.currentSeq)
    requires t.db == db && t.cursor == s.cursor && t.logged == s.logged + more
    ensures OwnLogOk(t)
    ensures forall k :: s.db.local.currentSeq < k <= db.local.currentSeq ==> k in Present(db, db.local.self)
    ensures Present(s.db, s.db.local.self) <= Present(db, s.db.local.self)
  {
    var self := s.db.local.self;
    forall k | k in more
      ensures EventsOf(db, self)[k].originSeq == k && EventsOf(db, self)[k].origin == self && k <= db.local.currentSeq
    {
      assert k in Present(s.db, self) ==> k in s.logged;
    }
  }

  /** The own log gained exactly the next sequence. */
  ghost predicate Appends(db: Db, after: Db) {
    var self, k := db.local.self, after.local.currentSeq;
    && k == db.local.currentSeq + 1 && k in EventsOf(after, self)
    && EventsOf(after, self) == EventsOf(db, self)[k := EventsOf(after, self)[k]]
    && EventsOf(after, self)[k].originSeq == k && EventsOf(after, self)[k].origin == self
  }

  ghost predicate SameOwnLog(db: Db, after: Db) {
    EventsOf(after, db.local.self) == EventsOf(db, db.local.self) && after.local.currentSeq == db.local.currentSeq
  }

  lemma CaptureAppends(spec: TableSpec, db: Db, c: Change, wall: nat, id: string)
    ensures var after := Captured(spec, db, c, wall, id);
            && after.local.self == db.local.self && after.meta == db.meta
            && (SameOwnLog(db, after) || Appends(db, after))
  {
    hide RowAfter, Logged, WithRow;
  }

  lemma OtherKeepsInvariant(s: State, db: Db)
    requires Invariant(s) && Enabled(s, Other(db))
    ensures Invariant(After(s, Other(db)))
  {
    var self := s.db.local.self;
    forall k | k > Floor(s)
      ensures k in Present(db, self) <==> k in Present(s.db, self)
      ensures k in Present(db, self) ==> EventsOf(db, self)[k] == EventsOf(s.db, self)[k]
    {
      assert k in OwnRowsAbove(db, Floor(s)) <==> k in OwnRowsAbove(s.db, Floor(s));
      assert k in OwnRowsAbove(db, Floor(s)) ==> OwnRowsAbove(db, Floor(s))[k] == OwnRowsAbove(s.db, Floor(s))[k];
    }
  }

  /** With no gap above the cursor, a fetched chunk is the next run of rows. */
  lemma ChunkIsNextRun(db: Db, o: Origin, from: nat, to: nat, es: seq<Event>, i: nat)
    requires es <= RowsIn(db, o, from, to) && from <= to
    requires forall k :: from <= k <= to ==> k in Present(db, o)
    requires i < |es|
    ensures from + i <= to && es[i] == EventAt(db, o, from + i)
  {
    hide Ascending;
    var ns := Ascending(SeqsIn(db, o, from, to));
    CountsUp(ns, from, to);
    assert es[i] == RowsIn(db, o, from, to)[i];
    assert ns[i] in ns;
  }

  lemma SomeRows(db: Db, o: Origin, from: nat, to: nat)
    requires from <= to && from in Present(db, o)
    ensures RowsIn(db, o, from, to) != []
  {
    RowsInMembers(db, o, from, to, from);
  }

  lemma {:induction false} CountsUp(ns: seq<nat>, from: nat, to: nat)
    requires StrictlyAscending(ns) && forall k :: k in ns <==> from <= k <= to
    ensures forall i :: 0 <= i < |ns| ==> ns[i] == from + i
    decreases |ns|
  {
    if ns != [] {
      assert ns[0] in ns;
      assert from in ns;
      var j :| 0 <= j < |ns| && ns[j] == from;
      assert ns[0] == from;
      var rest := ns[1..];
      forall k
        ensures k in rest <==> from + 1 <= k <= to
      {
        assert k in rest ==> k in ns && k != from;
        assert k in ns && k != from ==> k in rest;
      }
      CountsUp(rest, from + 1, to);
    }
  }

  lemma SendKeepsInvariant(s: State, lim: Limits, events: seq<Event>, after: Cursor)
    requires Invariant(s) && Enabled(s, Send(lim, events, after))
    ensures Invariant(After(s, Send(lim, events, after)))
  {
    hide RowsIn, Full, IsRunOf;
    var t := After(s, Send(lim, events, after));
    if s.cursor.started && s.db.local.currentSeq > s.cursor.lastSent {
      ChunkRuns(s, lim, events, after);
      RunOfAppend(s.logged, s.anchor + 1, s.sent, events);
    } else {
      assert s.sent + [] == s.sent;
      assert IsRunOf(t.logged, after.lastSent + 1, []) by { NoRun(t.logged, after.lastSent + 1); }
    }
  }

  lemma NoRun(logged: map<nat, Event>, from: nat)
    ensures IsRunOf(logged, from, [])
  {
  }

  lemma ChunkRuns(s: State, lim: Limits, events: seq<Event>, after: Cursor)
    requires Invariant(s) && s.cursor.started && s.db.local.currentSeq > s.cursor.lastSent
    requires TakesChunk(s.db, s.cursor, lim, events, after)
    ensures after.started && after.lastSent == s.cursor.lastSent + |events| <= s.db.local.currentSeq
    ensures IsRunOf(s.logged, s.cursor.lastSent + 1, events)
  {
    hide RowsIn, Full;
    var self, current := s.db.local.self, s.db.local.currentSeq;
    var from := s.cursor.lastSent + 1;
    SomeRows(s.db, self, from, current);
    forall i | 0 <= i < |events|
      ensures IsEntry(s.logged, from + i, events[i]) && from + i <= current && events[i].originSeq == from + i
    {
      ChunkIsNextRun(s.db, self, from, current, events, i);
      assert from + i in Present(s.db, self);
    }
  }

  lemma {:induction false} RunKeepsInvariant(s: State, steps: seq<Step>)
    requires Begins(s) && Legal(s, steps)
    ensures Invariant(AfterAll(s, steps))
  {
    hide Enabled, Invariant;
    if steps == [] {
      assert Invariant(s) by { BeginInvariant(s); }
    } else {
      var init, step := steps[..|steps| - 1], steps[|steps| - 1];
      RunKeepsInvariant(s, init);
      var now := AfterAll(s, init);
      match step
      case Write(spec, c, wall, id) => WriteKeepsInvariant(now, spec, c, wall, id);
      case Send(lim, events, after) => SendKeepsInvariant(now, lim, events, after);
      case Other(db) => OtherKeepsInvariant(now, db);
    }
  }

  lemma BeginInvariant(s: State)
    requires Begins(s)
    ensures Invariant(s)
  {
  }

  /** Over any interleaving of local writes, Collect calls and other activity
      that leaves unsent rows alone: everything broadcast so far is exactly the
      own events logged after the anchor up to the cursor, one by one in
      sequence order. */
  lemma BroadcastsAreTheLog(s: State, steps: seq<Step>)
    requires Begins(s) && Legal(s, steps) && AfterAll(s, steps).cursor.started
    ensures var t := AfterAll(s, steps);
            && SentInOrder(t) && t.cursor.lastSent <= t.db.local.currentSeq
            && forall i :: 0 <= i < |t.sent| ==> t.sent[i].originSeq == t.anchor + 1 + i
                                                 && t.sent[i].origin == t.db.local.self
  {
    hide AfterAll, Legal, Begins;
    RunKeepsInvariant(s, steps);
    var t := AfterAll(s, steps);
    forall i | 0 <= i < |t.sent|
      ensures t.sent[i].originSeq == t.anchor + 1 + i && t.sent[i].origin == t.db.local.self
    {
      assert IsEntry(t.logged, t.anchor + 1 + i, t.sent[i]);
    }
  }

  /** A GC cycle whose watermark for the own log has not passed the cursor is
      such other activity. */
  lemma CycleBelowCursorIsOther(s: State, after: Db, limit: nat)
    requires IsCycle(s.db, after, limit) && Get(Watermark(s.db), s.db.local.self) <= Floor(s)
    ensures Enabled(s, Other(after))
  {
    hide Watermark, StaleView;
    var self := s.db.local.self;
    var w := Get(Watermark(s.db), self);
    if w > 0 {
      var victims :| IsPick(Below(s.db, self, w), limit, victims) && OriginLost(s.db, after, self, w, victims, limit);
      assert OwnRowsAbove(after, Floor(s)) == OwnRowsAbove(s.db, Floor(s));
    }
  }
}
