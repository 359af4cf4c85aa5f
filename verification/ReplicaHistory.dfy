/** Whole replicas under arbitrary histories, deletes included: every table row
    is the run of the events stored for it. */
module ReplicaHistory {
  import opened Changelog
  import opened Store
  import opened Resolver
  import opened RowHistory
  import opened Apply
  import opened Convergence

  /** The events of a batch that were not yet in the log, in order. */
  ghost function NewIn(reg: Registry, db: Db, es: seq<Event>): seq<Event> {
    if es == [] then []
    else
      var before := AdmitAll(reg, db, es[..|es| - 1]);
      NewIn(reg, db, es[..|es| - 1]) +
      if before.Err? || Stored(before.value.db, es[|es| - 1]) then [] else [es[|es| - 1]]
  }

  ghost function NewBy(reg: Registry, db: Db, d: Delivery): seq<Event> {
    if d.Batch? && Applied(reg, db, d.events, d.clock).Ok? then NewIn(reg, db, d.events) else []
  }

  /** Every event the replica stored, in the order it resolved them. */
  ghost function StoredBy(reg: Registry, db: Db, ds: seq<Delivery>): seq<Event> {
    if ds == [] then []
    else StoredBy(reg, db, ds[..|ds| - 1]) + NewBy(reg, DeliverAll(reg, db, ds[..|ds| - 1]), ds[|ds| - 1])
  }

  ghost function AtKey(reg: Registry, es: seq<Event>, key: RowKey): seq<Event> {
    if es == [] then []
    else
      var e := es[|es| - 1];
      AtKey(reg, es[..|es| - 1], key) + if KeyOf(reg, e) == Some(key) then [e] else []
  }

  /** Resolving a list of events on top of a row state. */
  ghost function RunFrom(spec: TableSpec, rs: RowState, es: seq<Event>): RowState {
    if es == [] then rs else Resolve(spec, RunFrom(spec, rs, es[..|es| - 1]), es[|es| - 1])
  }

  lemma {:induction false} RunFromAppend(spec: TableSpec, rs: RowState, a: seq<Event>, b: seq<Event>)
    ensures RunFrom(spec, rs, a + b) == RunFrom(spec, RunFrom(spec, rs, a), b)
  {
    hide Resolve;
    if b == [] {
      assert a + b == a;
    } else {
      assert (a + b)[..|a + b| - 1] == a + b[..|b| - 1];
      RunFromAppend(spec, rs, a, b[..|b| - 1]);
    }
  }

  lemma {:induction false} RunIsRunFrom(spec: TableSpec, es: seq<Event>)
    ensures Run(spec, es) == RunFrom(spec, NOTHING, es)
  {
    hide Resolve;
    if es != [] {
      RunIsRunFrom(spec, es[..|es| - 1]);
    }
  }

  lemma {:induction false} AtKeyAppend(reg: Registry, a: seq<Event>, b: seq<Event>, key: RowKey)
    ensures AtKey(reg, a + b, key) == AtKey(reg, a, key) + AtKey(reg, b, key)
  {
    if b == [] {
      assert a + b == a;
    } else {
      assert (a + b)[..|a + b| - 1] == a + b[..|b| - 1];
      AtKeyAppend(reg, a, b[..|b| - 1], key);
    }
  }

  lemma AtKeyOne(reg: Registry, e: Event, key: RowKey)
    ensures AtKey(reg, [e], key) == if KeyOf(reg, e) == Some(key) then [e] else []
  {
    assert [e][..0] == [];
  }

  lemma {:induction false} AdmitAllRuns(reg: Registry, db: Db, es: seq<Event>, key: RowKey)
    requires WellFormedRegistry(reg) && AdmitAll(reg, db, es).Ok?
    ensures RowAt(AdmitAll(reg, db, es).value.db.tables, key)
         == RunFrom(SpecAt(reg, key), RowAt(db.tables, key), AtKey(reg, NewIn(reg, db, es), key))
  {
    hide Resolve, WritesInto, ResolveInto, RowAt, SpecAt, KeyOf, WellFormedRegistry;
    if es != [] {
      var init, e := es[..|es| - 1], es[|es| - 1];
      AdmitAllRuns(reg, db, init, key);
      var a := AdmitAll(reg, db, init).value;
      if !Stored(a.db, e) {
        ResolveIntoAt(reg, a.db.tables, e, key);
        AtKeyAppend(reg, NewIn(reg, db, init), [e], key);
        AtKeyOne(reg, e, key);
        var ran := AtKey(reg, NewIn(reg, db, init), key);
        assert (ran + [e])[..|ran|] == ran;
        assert ran + [] == ran;
      } else {
        assert NewIn(reg, db, init) + [] == NewIn(reg, db, init);
      }
    }
  }

  lemma DeliverRuns(reg: Registry, db: Db, d: Delivery, key: RowKey)
    requires WellFormedRegistry(reg)
    ensures RowAt(Deliver(reg, db, d).tables, key)
         == RunFrom(SpecAt(reg, key), RowAt(db.tables, key), AtKey(reg, NewBy(reg, db, d), key))
  {
    hide Resolve, RowAt, SpecAt, KeyOf, WellFormedRegistry, AdmitAll, Finish, NewIn;
    if d.Batch? && Applied(reg, db, d.events, d.clock).Ok? {
      if d.events == [] {
        assert NewIn(reg, db, []) == [] by { NothingNewIn(reg, db); }
      } else {
        AdmitAllRuns(reg, db, d.events, key);
        FinishKeepsLog(AdmitAll(reg, db, d.events).value.db, d.events, d.clock);
      }
    }
  }

  lemma NothingNewIn(reg: Registry, db: Db)
    ensures NewIn(reg, db, []) == []
  {
  }

  /** The row a replica holds is the run of what it stored for that row. */
  lemma {:induction false} DeliveriesRun(reg: Registry, self: Origin, ds: seq<Delivery>, key: RowKey)
    requires WellFormedRegistry(reg)
    ensures RowAt(DeliverAll(reg, Fresh(self), ds).tables, key)
         == Run(SpecAt(reg, key), AtKey(reg, StoredBy(reg, Fresh(self), ds), key))
  {
    hide Resolve, SpecAt, KeyOf, WellFormedRegistry, Deliver, NewBy;
    var db := Fresh(self);
    if ds != [] {
      var init := ds[..|ds| - 1];
      DeliveriesRun(reg, self, init, key);
      DeliverRuns(reg, DeliverAll(reg, db, init), ds[|ds| - 1], key);
      var a, b := StoredBy(reg, db, init), NewBy(reg, DeliverAll(reg, db, init), ds[|ds| - 1]);
      AtKeyAppend(reg, a, b, key);
      RunIsRunFrom(SpecAt(reg, key), AtKey(reg, a, key));
      RunFromAppend(SpecAt(reg, key), NOTHING, AtKey(reg, a, key), AtKey(reg, b, key));
      RunIsRunFrom(SpecAt(reg, key), AtKey(reg, a + b, key));
    }
  }

  /** Every row of every reachable replica obeys the row invariant. */
  lemma ReachableRowsKeepInvariant(reg: Registry, self: Origin, ds: seq<Delivery>, key: RowKey)
    requires WellFormedRegistry(reg)
    ensures var es := AtKey(reg, StoredBy(reg, Fresh(self), ds), key);
            RowInvariant(SpecAt(reg, key), SetOf(es), Live(SpecAt(reg, key), es),
                         RowAt(DeliverAll(reg, Fresh(self), ds).tables, key))
  {
    hide RowInvariant, SpecAt, KeyOf, DeliverAll, StoredBy, Live, Run, RowAt;
    DeliveriesRun(reg, self, ds, key);
    RunKeepsInvariant(SpecAt(reg, key), AtKey(reg, StoredBy(reg, Fresh(self), ds), key));
  }

  // ----- Agreement between replicas -----

  lemma {:induction false} AtKeyCounts(reg: Registry, es: seq<Event>, key: RowKey, e: Event)
    ensures multiset(AtKey(reg, es, key))[e] == if KeyOf(reg, e) == Some(key) then multiset(es)[e] else 0
  {
    hide KeyOf;
    if es != [] {
      AtKeyCounts(reg, es[..|es| - 1], key, e);
      assert es == es[..|es| - 1] + [es[|es| - 1]];
    }
  }

  lemma AtKeySame(reg: Registry, a: seq<Event>, b: seq<Event>, key: RowKey)
    requires SameEvents(a, b)
    ensures SameEvents(AtKey(reg, a, key), AtKey(reg, b, key))
  {
    forall e
      ensures multiset(AtKey(reg, a, key))[e] == multiset(AtKey(reg, b, key))[e]
    {
      AtKeyCounts(reg, a, key, e);
      AtKeyCounts(reg, b, key, e);
    }
  }

  /** Two replicas that stored the same events, in whatever orders, hold the
      same row wherever the row was never deleted or its newest event is a
      delete. */
  lemma ReplicasAgree(reg: Registry, self1: Origin, ds1: seq<Delivery>, self2: Origin, ds2: seq<Delivery>, key: RowKey)
    requires WellFormedRegistry(reg)
    requires SameEvents(StoredBy(reg, Fresh(self1), ds1), StoredBy(reg, Fresh(self2), ds2))
    requires var es := AtKey(reg, StoredBy(reg, Fresh(self2), ds2), key);
             Distinct(es) && (!HasDelete(es) || NewestIsDelete(SpecAt(reg, key), es))
    ensures RowAt(DeliverAll(reg, Fresh(self1), ds1).tables, key).row
         == RowAt(DeliverAll(reg, Fresh(self2), ds2).tables, key).row
  {
    hide Distinct, HasDelete, NewestIsDelete, SpecAt, KeyOf, DeliverAll, StoredBy, RowAt, Run;
    DeliveriesRun(reg, self1, ds1, key);
    DeliveriesRun(reg, self2, ds2, key);
    AtKeySame(reg, StoredBy(reg, Fresh(self1), ds1), StoredBy(reg, Fresh(self2), ds2), key);
    OrderDoesNotMatter(SpecAt(reg, key), AtKey(reg, StoredBy(reg, Fresh(self2), ds2), key));
  }
}
