/** Capture then replay: an origin's log, applied in sequence order with any
    repetitions, rebuilds the origin's rows. */
module Replay {
  import opened Hlc
  import opened Conflict
  import opened Changelog
  import opened Store
  import opened Resolver
  import RowHistory
  import opened Apply
  import opened Convergence
  import opened ReplicaHistory
  import opened Capture

  /** One step at the origin: a statement on a registered table, or a clock
      save by the apply path. */
  datatype HostStep =
    | Statement(table: string, change: Change, wall: nat, changeId: string)
    | SaveClock(h: HLC)

  /** Triggers exist for registered tables with at least one tracked column. */
  ghost predicate Capturing(reg: Registry) {
    WellFormedRegistry(reg) && forall t :: t in reg ==> reg[t].columns != {}
  }

  function Host(reg: Registry, db: Db, step: HostStep): Db {
    match step
    case SaveClock(h) => db.(local := db.local.(hlc := SavedHlc(db.local.hlc, h)))
    case Statement(t, c, wall, changeId) =>
      if t in reg then Captured(reg[t], db, c, wall, changeId) else db
  }

  function HostAll(reg: Registry, db: Db, steps: seq<HostStep>): Db {
    if steps == [] then db else Host(reg, HostAll(reg, db, steps[..|steps| - 1]), steps[|steps| - 1])
  }

  /** The own log in sequence order. */
  ghost function OwnLog(db: Db): seq<Event>
    requires IsOwnLog(db)
  {
    assert forall k: nat :: 1 <= k <= db.local.currentSeq ==> k in EventsOf(db, db.local.self).Keys by {
      forall k: nat | 1 <= k <= db.local.currentSeq
        ensures k in EventsOf(db, db.local.self).Keys
      {
        assert k in Present(db, db.local.self);
      }
    }
    FirstEvents(EventsOf(db, db.local.self), db.local.currentSeq)
  }

  ghost function FirstEvents(events: map<nat, Event>, n: nat): seq<Event>
    requires forall k: nat :: 1 <= k <= n ==> k in events.Keys
  {
    seq(n, i requires 0 <= i < n => events[i + 1])
  }

  /** The own log holds exactly the sequences 1..current_seq. */
  ghost predicate IsOwnLog(db: Db) {
    forall n: nat :: n in Present(db, db.local.self) <==> 1 <= n <= db.local.currentSeq
  }

  /** What capture keeps at the origin: the log is gap-free and stamped in
      order, and every row is the plain replay of its logged events. */
  ghost predicate CaptureOk(reg: Registry, db: Db) {
    && IsOwnLog(db)
    && Stamped(db, OwnLog(db))
    && forall key :: RowReplays(reg, db, OwnLog(db), key)
  }

  ghost predicate Stamped(db: Db, es: seq<Event>) {
    && (forall i :: 0 <= i < |es| ==> es[i].origin == db.local.self && es[i].originSeq == i + 1)
    && (forall i :: 0 <= i < |es| ==> !Before(db.local.hlc, es[i].hlc))
    && (forall i, j :: 0 <= i < j < |es| ==> Before(es[i].hlc, es[j].hlc))
  }

  ghost predicate RowReplays(reg: Registry, db: Db, es: seq<Event>, key: RowKey) {
    && RowIn(db.tables, key) == RowHistory.Replay(SpecAt(reg, key), AtKey(reg, es, key))
    && (key in db.tables.rows ==> db.tables.rows[key].Keys == SpecAt(reg, key).columns)
  }

  // ----- One statement -----

  /** The logged event, overwritten blindly, is the statement. */
  lemma LoggedIsStatement(spec: TableSpec, row: Option<Row>, c: Change, e: Event)
    requires spec.columns != {} && (row.Some? ==> row.value.Keys == spec.columns)
    requires RowAfter(spec, row, c).Some?
    requires Logged(spec, row, c).Some? ==> Logged(spec, row, c).value == (e.op, e.payload)
    ensures RowAfter(spec, row, c).value ==
            if Logged(spec, row, c).Some? then RowHistory.Overwrite(spec, row, e) else row
    ensures RowAfter(spec, row, c).value.Some? ==> RowAfter(spec, row, c).value.value.Keys == spec.columns
  {
    var after := RowAfter(spec, row, c).value;
    match c
    case InsertRow(_, values) =>
      var col :| col in spec.columns;
      assert col in Blank(spec);
      assert (map x | x in e.payload && x in spec.columns :: e.payload[x]) == e.payload;
      assert Blank(spec) + e.payload == e.payload;
    case UpdateRow(_, _, values) =>
      if row.Some? {
        var now := row.value + Tracked(spec, values);
        var diff := Changed(row.value, now);
        assert row.value + diff == now;
        if diff != map[] {
          assert (map x | x in e.payload && x in spec.columns :: e.payload[x]) == e.payload;
        } else {
          assert forall x :: x in now ==> x !in diff;
          assert now == row.value;
        }
      }
    case DeleteRow(_) =>
  }

  /** The event the trigger of a successful statement logs, if any. */
  function Entry(spec: TableSpec, db: Db, c: Change, wall: nat, changeId: string): seq<Event> {
    var logged := Logged(spec, RowIn(db.tables, RowKey(spec.name, c.id)), c);
    var s := Allocated(db.local, wall);
    if logged.None? then []
    else [Event(s.self, s.currentSeq, changeId, spec.name, c.id, logged.value.0, s.hlc, logged.value.1)]
  }

  /** Replicas accept a captured event exactly when the row id, the table name
      and the node's identity are not empty. */
  lemma CapturedIsValidIff(spec: TableSpec, db: Db, c: Change, wall: nat, changeId: string, e: Event)
    requires Entry(spec, db, c, wall, changeId) == [e]
    ensures ValidEvent(e) <==>
            c.id != "" && spec.name != "" && db.local.self.nodeId != "" && db.local.self.incarnationId != ""
  {
    hide Changed, Tracked, Blank;
  }

  /** So a row with the empty id is captured, and from then on every batch that
      carries its event fails. */
  lemma EmptyIdStopsReplication(spec: TableSpec, db: Db, c: Change, wall: nat, changeId: string, e: Event,
                                reg: Registry, replica: Db, es: seq<Event>, clock: HLC)
    requires Entry(spec, db, c, wall, changeId) == [e] && c.id == "" && e in es
    ensures Applied(reg, replica, es, clock).Err?
  {
    hide Entry, Applied, ValidEvent;
    assert !ValidEvent(e) by { CapturedIsValidIff(spec, db, c, wall, changeId, e); }
    InvalidEventFailsBatch(reg, replica, es, clock, e);
  }

  lemma CapturedTables(spec: TableSpec, db: Db, c: Change, wall: nat, changeId: string)
    requires RowAfter(spec, RowIn(db.tables, RowKey(spec.name, c.id)), c).Some?
    ensures var own := RowKey(spec.name, c.id);
            Captured(spec, db, c, wall, changeId).tables
            == WithRow(db.tables, own, RowAfter(spec, RowIn(db.tables, own), c).value)
  {
    hide Allocated, RowAfter, Logged;
  }

  /** The statement's own row. */
  lemma StatementKeepsOwnRow(reg: Registry, db: Db, t: string, c: Change, wall: nat, changeId: string, es: seq<Event>)
    requires Capturing(reg) && t in reg && RowReplays(reg, db, es, RowKey(reg[t].name, c.id))
    requires RowAfter(reg[t], RowIn(db.tables, RowKey(reg[t].name, c.id)), c).Some?
    ensures RowReplays(reg, Captured(reg[t], db, c, wall, changeId), es + Entry(reg[t], db, c, wall, changeId),
                       RowKey(reg[t].name, c.id))
  {
    hide Lower, Allocated, Logged, RowAfter, RowHistory.Overwrite, Captured;
    var spec := reg[t];
    var own := RowKey(spec.name, c.id);
    assert Lower(spec.name) == t && SpecAt(reg, own) == spec;
    CapturedTables(spec, db, c, wall, changeId);
    var more := Entry(spec, db, c, wall, changeId);
    AtKeyAppend(reg, es, more, own);
    if more != [] {
      var e := more[0];
      assert KeyOf(reg, e) == Some(own);
      AtKeyOne(reg, e, own);
      var before := AtKey(reg, es, own);
      assert (before + [e])[..|before|] == before;
      LoggedIsStatement(spec, RowIn(db.tables, own), c, e);
    } else {
      assert es + more == es;
      LoggedIsStatement(spec, RowIn(db.tables, own), c,
                        Event(db.local.self, 0, "", "", "", Insert, db.local.hlc, map[]));
    }
  }

  /** Every row. */
  lemma StatementKeepsRow(reg: Registry, db: Db, t: string, c: Change, wall: nat, changeId: string, es: seq<Event>,
                          key: RowKey)
    requires Capturing(reg) && t in reg && RowReplays(reg, db, es, key)
    requires RowAfter(reg[t], RowIn(db.tables, RowKey(reg[t].name, c.id)), c).Some?
    ensures RowReplays(reg, Captured(reg[t], db, c, wall, changeId), es + Entry(reg[t], db, c, wall, changeId), key)
  {
    hide Lower, Allocated, Logged, RowAfter, RowHistory.Replay, Captured, SpecAt;
    var spec := reg[t];
    if key == RowKey(spec.name, c.id) {
      StatementKeepsOwnRow(reg, db, t, c, wall, changeId, es);
    } else {
      CapturedTables(spec, db, c, wall, changeId);
      var more := Entry(spec, db, c, wall, changeId);
      AtKeyAppend(reg, es, more, key);
      if more != [] {
        assert Lower(spec.name) == t;
        AtKeyOne(reg, more[0], key);
        assert AtKey(reg, es + more, key) == AtKey(reg, es, key);
      } else {
        assert es + more == es;
      }
    }
  }

  lemma AppendKeepsStamps(db: Db, es: seq<Event>, s: LocalState, wall: nat, e: Event)
    requires Stamped(db, es) && |es| == db.local.currentSeq
    requires s == Allocated(db.local, wall) && e.origin == s.self && e.originSeq == s.currentSeq && e.hlc == s.hlc
    ensures Stamped(db.(local := s), es + [e])
  {
    assert Before(db.local.hlc, s.hlc);
  }

  lemma StatementKeepsCapture(reg: Registry, db: Db, t: string, c: Change, wall: nat, changeId: string)
    requires Capturing(reg) && t in reg && CaptureOk(reg, db)
    ensures CaptureOk(reg, Captured(reg[t], db, c, wall, changeId))
  {
    hide Allocated, Logged, RowAfter, RowReplays, Stamped, Capturing, Tracked;
    var spec := reg[t];
    var own := RowKey(spec.name, c.id);
    var row := RowIn(db.tables, own);
    if RowAfter(spec, row, c).Some? {
      var after := Captured(spec, db, c, wall, changeId);
      var es := OwnLog(db);
      forall key
        ensures RowReplays(reg, after, es + Entry(spec, db, c, wall, changeId), key)
      {
        StatementKeepsRow(reg, db, t, c, wall, changeId, es, key);
      }
      CapturedOwnLog(spec, db, c, wall, changeId);
    }
  }

  lemma OwnLogGrows(db: Db, after: Db, e: Event)
    requires IsOwnLog(db) && after.local.self == db.local.self && after.local.currentSeq == db.local.currentSeq + 1
    requires EventsOf(after, db.local.self) == EventsOf(db, db.local.self)[db.local.currentSeq + 1 := e]
    ensures IsOwnLog(after) && OwnLog(after) == OwnLog(db) + [e]
  {
    forall n: nat
      ensures n in Present(after, after.local.self) <==> 1 <= n <= after.local.currentSeq
    {
      assert n in Present(db, db.local.self) <==> 1 <= n <= db.local.currentSeq;
    }
  }

  lemma OwnLogSame(a: Db, b: Db)
    requires IsOwnLog(a) && b.log == a.log
    requires b.local.self == a.local.self && b.local.currentSeq == a.local.currentSeq
    ensures IsOwnLog(b) && OwnLog(b) == OwnLog(a)
  {
    forall n: nat
      ensures n in Present(b, b.local.self) <==> 1 <= n <= b.local.currentSeq
    {
      assert n in Present(a, a.local.self) <==> 1 <= n <= a.local.currentSeq;
    }
    assert EventsOf(b, b.local.self) == EventsOf(a, a.local.self);
  }

  lemma CapturedOwnLog(spec: TableSpec, db: Db, c: Change, wall: nat, changeId: string)
    requires IsOwnLog(db) && Stamped(db, OwnLog(db))
    requires RowAfter(spec, RowIn(db.tables, RowKey(spec.name, c.id)), c).Some?
    ensures var after := Captured(spec, db, c, wall, changeId);
            && IsOwnLog(after) && OwnLog(after) == OwnLog(db) + Entry(spec, db, c, wall, changeId)
            && Stamped(after, OwnLog(after))
  {
    hide Logged, RowAfter, Stamped, Tracked, WithRow;
    var after := Captured(spec, db, c, wall, changeId);
    var logged := Logged(spec, RowIn(db.tables, RowKey(spec.name, c.id)), c);
    var s := Allocated(db.local, wall);
    assert s.self == db.local.self && s.currentSeq == db.local.currentSeq + 1;
    if logged.Some? {
      var e := Event(s.self, s.currentSeq, changeId, spec.name, c.id, logged.value.0, s.hlc, logged.value.1);
      assert EventsOf(after, s.self) == EventsOf(db, s.self)[s.currentSeq := e];
      OwnLogGrows(db, after, e);
      AppendKeepsStamps(db, OwnLog(db), s, wall, e);
      SameLocalStamped(db.(local := s), after, OwnLog(after));
    } else {
      OwnLogSame(db, after);
      SameLocalStamped(db, after, OwnLog(db));
    }
  }

  lemma SameLocalStamped(a: Db, b: Db, es: seq<Event>)
    requires a.local == b.local && Stamped(a, es)
    ensures Stamped(b, es)
  {
  }

  lemma SaveKeepsCapture(reg: Registry, db: Db, h: HLC)
    requires CaptureOk(reg, db)
    ensures CaptureOk(reg, db.(local := db.local.(hlc := SavedHlc(db.local.hlc, h))))
  {
    hide AtKey, KeyOf, SpecAt, RowHistory.Replay;
    var after := db.(local := db.local.(hlc := SavedHlc(db.local.hlc, h)));
    OwnLogSame(db, after);
    forall key
      ensures RowReplays(reg, after, OwnLog(after), key)
    {
      assert RowReplays(reg, db, OwnLog(db), key);
    }
  }

  lemma {:induction false} HostKeepsCapture(reg: Registry, self: Origin, steps: seq<HostStep>)
    requires Capturing(reg)
    ensures CaptureOk(reg, HostAll(reg, Fresh(self), steps))
    ensures HostAll(reg, Fresh(self), steps).local.self == self
  {
    hide CaptureOk, Captured, Capturing;
    if steps == [] {
      FreshCaptures(reg, self);
    } else {
      var init, step := steps[..|steps| - 1], steps[|steps| - 1];
      HostKeepsCapture(reg, self, init);
      var db := HostAll(reg, Fresh(self), init);
      match step
      case SaveClock(h) => SaveKeepsCapture(reg, db, h);
      case Statement(t, c, wall, changeId) =>
        if t in reg {
          StatementKeepsCapture(reg, db, t, c, wall, changeId);
          CapturedSelf(reg[t], db, c, wall, changeId);
        }
    }
  }

  lemma CapturedSelf(spec: TableSpec, db: Db, c: Change, wall: nat, changeId: string)
    ensures Captured(spec, db, c, wall, changeId).local.self == db.local.self
  {
  }

  lemma FreshCaptures(reg: Registry, self: Origin)
    ensures CaptureOk(reg, Fresh(self))
  {
    assert OwnLog(Fresh(self)) == [];
  }

  // ----- Replay -----

  lemma StampedIsVersionOrdered(db: Db, es: seq<Event>)
    requires Stamped(db, es)
    ensures RowHistory.VersionOrdered(es)
  {
  }

  lemma {:induction false} AtKeyIsOrdered(reg: Registry, es: seq<Event>, key: RowKey)
    requires RowHistory.VersionOrdered(es)
    ensures RowHistory.VersionOrdered(AtKey(reg, es, key))
    ensures forall e :: e in AtKey(reg, es, key) ==> e in es
  {
    hide Wins, VersionOf, KeyOf;
    if es != [] {
      var init, last := es[..|es| - 1], es[|es| - 1];
      AtKeyIsOrdered(reg, init, key);
      forall e | e in AtKey(reg, init, key)
        ensures Wins(VersionOf(last), VersionOf(e))
      {
        var i :| 0 <= i < |init| && init[i] == e;
        assert es[i] == e;
      }
    }
  }

  /** The events are the own log in sequence order. */
  ghost predicate IsLogInOrder(db: Db, es: seq<Event>) {
    && |es| == db.local.currentSeq
    && forall i :: 0 <= i < |es| ==> i + 1 in Present(db, db.local.self) && EventsOf(db, db.local.self)[i + 1] == es[i]
  }

  /** A replica whose newly stored events are the origin's log in order holds
      the origin's tracked columns in every row, deletes and re-inserts
      included, whatever the origin did and however deliveries were batched
      and repeated. */
  lemma CaptureThenReplay(reg: Registry, self: Origin, steps: seq<HostStep>, replica: Origin, ds: seq<Delivery>,
                          key: RowKey)
    requires Capturing(reg)
    requires IsLogInOrder(HostAll(reg, Fresh(self), steps), StoredBy(reg, Fresh(replica), ds))
    ensures RowAt(DeliverAll(reg, Fresh(replica), ds).tables, key).row
         == RowIn(HostAll(reg, Fresh(self), steps).tables, key)
  {
    hide HostAll, DeliverAll, StoredBy, RowHistory.VersionOrdered, Run, RowHistory.Replay, AtKey, Stamped, IsOwnLog,
      SpecAt;
    var db := HostAll(reg, Fresh(self), steps);
    HostKeepsCapture(reg, self, steps);
    var es := OwnLog(db);
    assert StoredBy(reg, Fresh(replica), ds) == es;
    assert RowReplays(reg, db, es, key);
    StampedIsVersionOrdered(db, es);
    AtKeyIsOrdered(reg, es, key);
    RowHistory.OrderedDeliveryIsReplay(SpecAt(reg, key), AtKey(reg, es, key));
    DeliveriesRun(reg, replica, ds, key);
  }

  /** The first delivery of each event, repetitions dropped. */
  ghost function Firsts(sent: seq<Event>): seq<Event> {
    if sent == [] then []
    else
      var init, e := sent[..|sent| - 1], sent[|sent| - 1];
      Firsts(init) + if e in init then [] else [e]
  }

  ghost predicate StoresExactly(db: Db, sent: seq<Event>) {
    forall o, n :: n in Present(db, o) <==> exists e :: e in sent && e.origin == o && e.originSeq == n
  }

  /** On an empty log, a batch of valid events stores each of them once. */
  lemma {:induction false} BatchStoresFirsts(reg: Registry, db: Db, sent: seq<Event>)
    requires StoresExactly(db, []) && Coherent(RowHistory.SetOf(sent))
    requires forall e :: e in sent ==> ValidEvent(e) && !IsRetired(db.nodes, e.origin)
    ensures AdmitAll(reg, db, sent).Ok? && NewIn(reg, db, sent) == Firsts(sent)
    ensures StoresExactly(AdmitAll(reg, db, sent).value.db, sent)
    ensures AdmitAll(reg, db, sent).value.db.nodes == db.nodes
  {
    hide ResolveInto, WritesInto, ValidEvent, IsRetired, VersionOf;
    if sent != [] {
      var init, e := sent[..|sent| - 1], sent[|sent| - 1];
      assert sent == init + [e];
      assert RowHistory.SetOf(init) <= RowHistory.SetOf(sent);
      BatchStoresFirsts(reg, db, init);
      var a := AdmitAll(reg, db, init).value;
      assert Stored(a.db, e) <==> e in init by {
        if Stored(a.db, e) {
          var x :| x in init && x.origin == e.origin && x.originSeq == e.originSeq;
          assert x in RowHistory.SetOf(sent) && e in RowHistory.SetOf(sent) && SameIdentity(x, e);
        }
      }
      StoresOneMore(a.db, AdmitAll(reg, db, sent).value.db, init, e);
    }
  }

  lemma StoresOneMore(before: Db, after: Db, init: seq<Event>, e: Event)
    requires StoresExactly(before, init)
    requires after.log == (if Stored(before, e) then before else WithEvent(before, e)).log
    ensures StoresExactly(after, init + [e])
  {
    forall o, n
      ensures n in Present(after, o) <==> exists x :: x in init + [e] && x.origin == o && x.originSeq == n
    {
      assert n in Present(after, o) <==> n in Present(before, o) || (o == e.origin && n == e.originSeq);
      if n in Present(before, o) {
        var x :| x in init && x.origin == o && x.originSeq == n;
        assert x in init + [e];
      }
      assert e in init + [e];
    }
  }

  /** One batch: the log in order, with repetitions anywhere after the first
      delivery of each event. */
  lemma BatchReplay(reg: Registry, self: Origin, steps: seq<HostStep>, replica: Origin, sent: seq<Event>, clock: HLC,
                    key: RowKey)
    requires Capturing(reg)
    requires IsLogInOrder(HostAll(reg, Fresh(self), steps), Firsts(sent))
    requires forall e :: e in sent ==> ValidEvent(e)
    ensures RowAt(Deliver(reg, Fresh(replica), Batch(sent, clock)).tables, key).row
         == RowIn(HostAll(reg, Fresh(self), steps).tables, key)
  {
    hide HostAll, AdmitAll, NewIn, Finish, ValidEvent, RowAt, Deliver;
    var ds := [Batch(sent, clock)];
    var db := HostAll(reg, Fresh(self), steps);
    HostKeepsCapture(reg, self, steps);
    FirstsAreSent(sent);
    forall a, b | a in RowHistory.SetOf(sent) && b in RowHistory.SetOf(sent)
                  && (SameIdentity(a, b) || VersionOf(a) == VersionOf(b))
      ensures a == b
    {
      assert a in Firsts(sent) && b in Firsts(sent);
      LogIsCoherent(reg, db, Firsts(sent), a, b);
    }
    assert StoresExactly(Fresh(replica), []);
    BatchStoresFirsts(reg, Fresh(replica), sent);
    assert ds[..0] == [];
    assert StoredBy(reg, Fresh(replica), ds) == Firsts(sent) by {
      OneDelivery(reg, Fresh(replica), Batch(sent, clock));
    }
    CaptureThenReplay(reg, self, steps, replica, ds, key);
    OneDelivery(reg, Fresh(replica), Batch(sent, clock));
  }

  lemma OneDelivery(reg: Registry, db: Db, d: Delivery)
    ensures StoredBy(reg, db, [d]) == NewBy(reg, db, d)
    ensures DeliverAll(reg, db, [d]) == Deliver(reg, db, d)
  {
    hide NewBy, Deliver;
    assert [d][..0] == [];
    assert [] + NewBy(reg, db, d) == NewBy(reg, db, d);
  }

  lemma {:induction false} FirstsAreSent(sent: seq<Event>)
    ensures forall e :: e in sent <==> e in Firsts(sent)
  {
    if sent != [] {
      assert sent == sent[..|sent| - 1] + [sent[|sent| - 1]];
      FirstsAreSent(sent[..|sent| - 1]);
    }
  }

  lemma LogIsCoherent(reg: Registry, db: Db, es: seq<Event>, a: Event, b: Event)
    requires CaptureOk(reg, db) && IsLogInOrder(db, es)
    requires a in es && b in es && a.originSeq == b.originSeq
    ensures a == b
  {
    assert es == OwnLog(db);
    var i :| 0 <= i < |es| && es[i] == a;
    var j :| 0 <= j < |es| && es[j] == b;
  }
}
