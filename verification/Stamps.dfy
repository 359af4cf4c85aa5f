/** When a captured write is stamped past everything its node has resolved
    (internal/schema/schema.go with SaveHLC of internal/store/store.go). */
module Stamps {
  import opened Hlc
  import opened Conflict
  import opened Changelog
  import opened Store
  import opened Resolver
  import opened Apply
  import opened Capture
  import opened LocalWrites
  import opened SeedTarget
  import opened Replica

  /** The time of a field version or of a tombstone. */
  ghost predicate HasStamp(t: Tables, h: HLC) {
    || (exists key, c :: key in t.versions && c in t.versions[key] && t.versions[key][c].hlc == h)
    || (exists key :: key in t.tombs && t.tombs[key].hlc == h)
  }

  /** The stored clock has reached the physical part of every stamp. The
      logical part it may have dropped. */
  ghost predicate Reached(db: Db) {
    forall h :: HasStamp(db.tables, h) ==> h.physical <= db.local.hlc.physical
  }

  ghost predicate PastAll(t: Tables, h: HLC) {
    forall s :: HasStamp(t, s) ==> Before(s, h)
  }

  /** The next capture is stamped past every version and tombstone exactly when
      the wall has moved on, or no stamp at the stored physical time has a
      greater logical part than the stored one. */
  lemma CaptureIsPastIff(db: Db, wall: nat)
    requires Reached(db)
    ensures PastAll(db.tables, Allocated(db.local, wall).hlc) <==>
            || wall > db.local.hlc.physical
            || forall h :: HasStamp(db.tables, h) && h.physical == db.local.hlc.physical ==>
                             h.logical <= db.local.hlc.logical
  {
    hide HasStamp;
    var next := Allocated(db.local, wall).hlc;
    forall h | HasStamp(db.tables, h)
      ensures Before(h, next) <==>
              wall > db.local.hlc.physical || h.physical < db.local.hlc.physical || h.logical <= db.local.hlc.logical
    {
      assert h.physical <= db.local.hlc.physical;
    }
  }

  /** In particular past those of the row it writes. */
  lemma PastRow(t: Tables, h: HLC, key: RowKey)
    requires PastAll(t, h)
    ensures IsPast(RowAt(t, key), h)
  {
    forall c | c in RowAt(t, key).vers
      ensures Before(RowAt(t, key).vers[c].hlc, h)
    {
      assert HasStamp(t, t.versions[key][c].hlc);
    }
    if key in t.tombs {
      assert HasStamp(t, t.tombs[key].hlc);
    }
  }

  // ----- The clock keeps up over runs -----

  lemma StampOfRow(t: Tables, key: RowKey, v: Version)
    requires (exists c :: c in RowAt(t, key).vers && RowAt(t, key).vers[c] == v) || RowAt(t, key).tomb == Some(v)
    ensures HasStamp(t, v.hlc)
  {
    if c :| c in RowAt(t, key).vers && RowAt(t, key).vers[c] == v {
      assert t.versions[key][c].hlc == v.hlc;
    }
  }

  lemma ResolveStamps(spec: TableSpec, rs: RowState, e: Event)
    ensures var after := Resolve(spec, rs, e);
            && (forall c :: c in after.vers ==>
                              after.vers[c] == VersionOf(e) || (c in rs.vers && rs.vers[c] == after.vers[c]))
            && (after.tomb.Some? ==> after.tomb == Some(VersionOf(e)) || after.tomb == rs.tomb)
  {
    hide Wins, VersionOf;
  }

  /** Resolving an event leaves no stamp but the old ones and its own. */
  lemma EventStamps(reg: Registry, t: Tables, e: Event, h: HLC)
    requires HasStamp(ResolveInto(reg, t, e), h)
    ensures HasStamp(t, h) || h == e.hlc
  {
    hide Resolve, Lower, SpecAt, Writes;
    if KeyOf(reg, e).Some? && Writes(SpecAt(reg, KeyOf(reg, e).value), RowAt(t, KeyOf(reg, e).value), e) {
      var key := KeyOf(reg, e).value;
      var rs := RowAt(t, key);
      ResolveStamps(SpecAt(reg, key), rs, e);
      PutStamps(t, key, Resolve(SpecAt(reg, key), rs, e), h);
      var after := Resolve(SpecAt(reg, key), rs, e);
      if !HasStamp(t, h) {
        if c :| c in after.vers && after.vers[c].hlc == h && after.vers[c] != VersionOf(e) {
          StampOfRow(t, key, after.vers[c]);
        }
        if after.tomb.Some? && after.tomb == rs.tomb {
          StampOfRow(t, key, after.tomb.value);
        }
      }
    }
  }

  lemma PutStamps(t: Tables, key: RowKey, rs: RowState, h: HLC)
    requires HasStamp(Put(t, key, rs), h)
    ensures || HasStamp(t, h)
            || (exists c :: c in rs.vers && rs.vers[c].hlc == h)
            || (rs.tomb.Some? && rs.tomb.value.hlc == h)
  {
    var after := Put(t, key, rs);
    if k, c :| k in after.versions && c in after.versions[k] && after.versions[k][c].hlc == h {
      assert k != key || rs.vers == map[] ==> k in t.versions && c in t.versions[k] && t.versions[k][c].hlc == h;
    }
    if k :| k in after.tombs && after.tombs[k].hlc == h {
      assert k != key ==> k in t.tombs && t.tombs[k].hlc == h;
    }
  }

  ghost predicate NewInLog(before: Db, after: Db, h: HLC) {
    exists o, n :: n in Present(after, o) && n !in Present(before, o) && EventsOf(after, o)[n].hlc == h
  }

  /** Every stamp of a batch comes with an event new to the log. */
  lemma {:induction false} AdmitAllStamps(reg: Registry, db: Db, es: seq<Event>, h: HLC)
    requires AdmitAll(reg, db, es).Ok? && HasStamp(AdmitAll(reg, db, es).value.db.tables, h)
    ensures HasStamp(db.tables, h) || NewInLog(db, AdmitAll(reg, db, es).value.db, h)
    ensures forall o :: Present(db, o) <= Present(AdmitAll(reg, db, es).value.db, o)
  {
    hide HasStamp, NewInLog, ResolveInto, WritesInto, ValidEvent, IsRetired;
    AdmitAllGrows(reg, db, es);
    if es != [] {
      var init, e := es[..|es| - 1], es[|es| - 1];
      var a := AdmitAll(reg, db, init).value;
      AdmitAllGrows(reg, db, init);
      if !Stored(a.db, e) {
        EventStamps(reg, a.db.tables, e, h);
        StoredIsNew(db, a.db, e, ResolveInto(reg, a.db.tables, e));
        if HasStamp(a.db.tables, h) {
          AdmitAllStamps(reg, db, init, h);
          if NewInLog(db, a.db, h) {
            NewStaysNew(db, a.db, e, ResolveInto(reg, a.db.tables, e), h);
          }
        }
      } else {
        AdmitAllStamps(reg, db, init, h);
      }
    }
  }

  lemma {:induction false} AdmitAllGrows(reg: Registry, db: Db, es: seq<Event>)
    requires AdmitAll(reg, db, es).Ok?
    ensures forall o :: Present(db, o) <= Present(AdmitAll(reg, db, es).value.db, o)
  {
    hide ResolveInto, WritesInto, ValidEvent, IsRetired;
    if es != [] {
      AdmitAllGrows(reg, db, es[..|es| - 1]);
    }
  }

  lemma StoredIsNew(begun: Db, db: Db, e: Event, tables: Tables)
    requires !Stored(db, e) && forall o :: Present(begun, o) <= Present(db, o)
    ensures NewInLog(begun, WithEvent(db, e).(tables := tables), e.hlc)
  {
    var after := WithEvent(db, e).(tables := tables);
    assert e.originSeq in Present(after, e.origin) && EventsOf(after, e.origin)[e.originSeq] == e;
    assert e.originSeq !in Present(begun, e.origin);
  }

  lemma NewStaysNew(begun: Db, db: Db, e: Event, tables: Tables, h: HLC)
    requires !Stored(db, e) && NewInLog(begun, db, h)
    ensures NewInLog(begun, WithEvent(db, e).(tables := tables), h)
  {
    var after := WithEvent(db, e).(tables := tables);
    var o, n :| n in Present(db, o) && n !in Present(begun, o) && EventsOf(db, o)[n].hlc == h;
    assert n in Present(after, o) && EventsOf(after, o)[n] == EventsOf(db, o)[n];
  }

  /** A batch saves a clock past the events it stored, a seed load one that has
      reached every stamp it brought, and no load was broken off. */
  ghost predicate Honest(reg: Registry, n: Node, step: Replica.Step) {
    match step
    case Batch(es, clock) =>
      Applied(reg, n.db, es, clock).Ok? ==> PastNewEvents(n.db, Applied(reg, n.db, es, clock).value, clock)
    case Load(_, tables, clock) => forall h :: HasStamp(tables, h) ==> !Before(clock, h)
    case AbortedLoad(_) => false
    case _ => true
  }

  ghost predicate AllHonest(reg: Registry, self: Origin, steps: seq<Replica.Step>) {
    forall i :: 0 <= i < |steps| ==> Honest(reg, Replica.After(reg, self, steps[..i]), steps[i])
  }

  lemma SavedReaches(s: HLC, h: HLC)
    ensures SavedHlc(s, h).physical >= s.physical && SavedHlc(s, h).physical >= h.physical
  {
  }

  lemma BatchReaches(reg: Registry, db: Db, es: seq<Event>, clock: HLC)
    requires Reached(db) && Applied(reg, db, es, clock).Ok?
    requires PastNewEvents(db, Applied(reg, db, es, clock).value, clock)
    ensures Reached(Applied(reg, db, es, clock).value)
  {
    hide HasStamp, AdmitAll, Finish, NewInLog;
    if es != [] {
      var admitted := AdmitAll(reg, db, es).value.db;
      var after := Finish(admitted, es, clock);
      FinishKeepsLog(admitted, es, clock);
      AdmitKeepsClock(reg, db, es);
      SavedReaches(db.local.hlc, clock);
      forall h | HasStamp(after.tables, h)
        ensures h.physical <= after.local.hlc.physical
      {
        AdmitAllStamps(reg, db, es, h);
        if NewInLog(db, admitted, h) {
          NewIsPast(db, admitted, after, h, clock);
        }
      }
    }
  }

  lemma NewIsPast(db: Db, admitted: Db, after: Db, h: HLC, clock: HLC)
    requires NewInLog(db, admitted, h) && after.log == admitted.log && PastNewEvents(db, after, clock)
    ensures Before(h, clock)
  {
    var o, n :| n in Present(admitted, o) && n !in Present(db, o) && EventsOf(admitted, o)[n].hlc == h;
    assert n in Present(after, o);
  }

  lemma {:induction false} AdmitKeepsClock(reg: Registry, db: Db, es: seq<Event>)
    requires AdmitAll(reg, db, es).Ok?
    ensures AdmitAll(reg, db, es).value.db.local == db.local
  {
    hide ResolveInto, WritesInto, ValidEvent, IsRetired;
    if es != [] {
      AdmitKeepsClock(reg, db, es[..|es| - 1]);
    }
  }

  lemma CapturedClock(spec: TableSpec, db: Db, c: Change, wall: nat, id: string)
    ensures var after := Captured(spec, db, c, wall, id);
            && after.tables.versions == db.tables.versions && after.tables.tombs == db.tables.tombs
            && (after.local == db.local || after.local == Allocated(db.local, wall))
  {
    hide RowAfter, Logged, Allocated;
  }

  lemma SameStamps(a: Tables, b: Tables, h: HLC)
    requires a.versions == b.versions && a.tombs == b.tombs
    ensures HasStamp(a, h) <==> HasStamp(b, h)
  {
  }

  lemma WriteReaches(spec: TableSpec, db: Db, c: Change, wall: nat, id: string)
    requires Reached(db)
    ensures Reached(Captured(spec, db, c, wall, id))
  {
    hide Captured, HasStamp;
    var after := Captured(spec, db, c, wall, id);
    CapturedClock(spec, db, c, wall, id);
    forall h | HasStamp(after.tables, h)
      ensures h.physical <= after.local.hlc.physical
    {
      SameStamps(after.tables, db.tables, h);
    }
  }

  lemma StepReaches(reg: Registry, n: Node, step: Replica.Step)
    requires Reached(n.db) && Honest(reg, n, step)
    ensures Reached(Next(reg, n, step).db)
  {
    hide HasStamp, Applied, Captured, IsEmpty, PastNewEvents;
    match step
    case Batch(es, clock) =>
      if Applied(reg, n.db, es, clock).Ok? {
        BatchReaches(reg, n.db, es, clock);
      }
    case Write(spec, c, wall, id) => WriteReaches(spec, n.db, c, wall, id);
    case Load(v, tables, clock) => SavedReaches(n.db.local.hlc, clock);
    case Record(_, _) =>
    case Collect(_, _) =>
    case Members(_) =>
  }

  lemma {:induction false} RunReaches(reg: Registry, self: Origin, steps: seq<Replica.Step>)
    requires AllHonest(reg, self, steps)
    ensures Reached(Replica.After(reg, self, steps).db)
  {
    hide Next, Honest;
    if steps == [] {
      assert Reached(Replica.After(reg, self, steps).db) by { FreshReached(self); }
    } else {
      var init := steps[..|steps| - 1];
      forall i | 0 <= i < |init|
        ensures Honest(reg, Replica.After(reg, self, init[..i]), init[i])
      {
        assert init[..i] == steps[..i];
      }
      RunReaches(reg, self, init);
      StepReaches(reg, Replica.After(reg, self, init), steps[|steps| - 1]);
    }
  }

  lemma FreshReached(self: Origin)
    ensures Reached(Fresh(self))
  {
  }

  /** Over any run of batches, writes, seed loads, acknowledgements, collections
      and membership changes: the next local write is stamped past every
      version and tombstone its node holds exactly when the wall has moved on
      from the stored time, or SaveHLC has dropped no logical part that a stamp
      at that time still needs. */
  lemma WriteIsPastIff(reg: Registry, self: Origin, steps: seq<Replica.Step>, wall: nat)
    requires AllHonest(reg, self, steps)
    ensures var db := Replica.After(reg, self, steps).db;
            PastAll(db.tables, Allocated(db.local, wall).hlc) <==>
            || wall > db.local.hlc.physical
            || forall h :: HasStamp(db.tables, h) && h.physical == db.local.hlc.physical ==>
                             h.logical <= db.local.hlc.logical
  {
    hide Reached, PastAll, HasStamp, AllHonest;
    RunReaches(reg, self, steps);
    CaptureIsPastIff(Replica.After(reg, self, steps).db, wall);
  }
}
