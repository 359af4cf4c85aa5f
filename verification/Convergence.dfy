/** Convergence of replicas: the tables after any deliveries are a function of
    the set of events received. */
module Convergence {
  import opened Hlc
  import opened Changelog
  import opened Store
  import opened Resolver
  import opened RowHistory
  import opened Apply

  /** What reaches a replica: a batch, a garbage collection of log rows, after
      which the same events may be delivered again, or a change of its
      membership table, after which it may refuse or admit other origins. */
  datatype Delivery =
    | Batch(events: seq<Event>, clock: HLC)
    | Collect(origin: Origin, victims: set<nat>)
    | Reconfigure(nodes: map<string, NodeRow>)

  /** A failing batch rolls back. */
  function Deliver(reg: Registry, db: Db, d: Delivery): Db {
    match d
    case Batch(es, clock) => (match Applied(reg, db, es, clock) case Ok(after) => after case Err(_) => db)
    case Collect(o, victims) => WithoutEvents(db, o, victims)
    case Reconfigure(nodes) => db.(nodes := nodes)
  }

  function DeliverAll(reg: Registry, db: Db, ds: seq<Delivery>): Db {
    if ds == [] then db else Deliver(reg, DeliverAll(reg, db, ds[..|ds| - 1]), ds[|ds| - 1])
  }

  /** The events of the batches that committed. */
  ghost function Received(reg: Registry, db: Db, ds: seq<Delivery>): set<Event> {
    if ds == [] then {}
    else
      var d := ds[|ds| - 1];
      Received(reg, db, ds[..|ds| - 1]) +
      if d.Batch? && Applied(reg, DeliverAll(reg, db, ds[..|ds| - 1]), d.events, d.clock).Ok? then SetOf(d.events)
      else {}
  }

  // ----- Lifting the row laws to all tables -----

  ghost function EventsAt(reg: Registry, history: set<Event>, key: RowKey): set<Event> {
    set e | e in history && KeyOf(reg, e) == Some(key)
  }

  /** Every row of the tables is the last-write picture of its events. */
  ghost predicate TablesAre(reg: Registry, history: set<Event>, t: Tables) {
    forall key :: IsLastWrite(SpecAt(reg, key), EventsAt(reg, history, key), RowAt(t, key))
  }

  /** Every log row is an event of the history, under its own identity. */
  ghost predicate LogWithin(history: set<Event>, db: Db) {
    forall o, n :: n in Present(db, o) ==> LogsOneOf(history, db, o, n)
  }

  ghost predicate LogsOneOf(history: set<Event>, db: Db, o: Origin, n: nat)
    requires n in Present(db, o)
  {
    var e := EventsOf(db, o)[n];
    e in history && e.origin == o && e.originSeq == n
  }

  lemma EventKeepsTables(reg: Registry, history: set<Event>, t: Tables, e: Event)
    requires WellFormedRegistry(reg) && !e.op.Delete? && TablesAre(reg, history, t)
    ensures TablesAre(reg, history + {e}, ResolveInto(reg, t, e))
  {
    hide IsLastWrite, Resolve, Lower, WellFormedRegistry, ResolveInto, RowAt, SpecAt, KeyOf;
    forall key
      ensures IsLastWrite(SpecAt(reg, key), EventsAt(reg, history + {e}, key), RowAt(ResolveInto(reg, t, e), key))
    {
      ResolveIntoAt(reg, t, e, key);
      if KeyOf(reg, e) == Some(key) {
        WriteKeepsLastWrite(SpecAt(reg, key), EventsAt(reg, history, key), RowAt(t, key), e);
        assert EventsAt(reg, history + {e}, key) == EventsAt(reg, history, key) + {e};
      } else {
        assert EventsAt(reg, history + {e}, key) == EventsAt(reg, history, key);
      }
    }
  }

  lemma AdmitKeepsTables(reg: Registry, history: set<Event>, a: Admitted, e: Event)
    requires WellFormedRegistry(reg) && !e.op.Delete? && Coherent(history + {e})
    requires TablesAre(reg, history, a.db.tables) && LogWithin(history, a.db)
    requires Admit(reg, a, e).Ok?
    ensures TablesAre(reg, history + {e}, Admit(reg, a, e).value.db.tables)
    ensures LogWithin(history + {e}, Admit(reg, a, e).value.db)
  {
    hide TablesAre, ResolveInto, WritesInto, VersionOf;
    if Stored(a.db, e) {
      var known := EventsOf(a.db, e.origin)[e.originSeq];
      assert known in history + {e} && SameIdentity(known, e);
      assert history + {e} == history;
    } else {
      EventKeepsTables(reg, history, a.db.tables, e);
      var after := Admit(reg, a, e).value.db;
      forall o, n | n in Present(after, o)
        ensures LogsOneOf(history + {e}, after, o, n)
      {
        if o == e.origin && n == e.originSeq {
          assert EventsOf(after, o)[n] == e;
        } else {
          assert n in Present(a.db, o) && EventsOf(after, o)[n] == EventsOf(a.db, o)[n];
        }
      }
    }
  }

  lemma {:induction false} AdmitAllKeepsTables(reg: Registry, history: set<Event>, db: Db, es: seq<Event>)
    requires WellFormedRegistry(reg) && WritesOnly(SetOf(es)) && Coherent(history + SetOf(es))
    requires TablesAre(reg, history, db.tables) && LogWithin(history, db)
    requires AdmitAll(reg, db, es).Ok?
    ensures TablesAre(reg, history + SetOf(es), AdmitAll(reg, db, es).value.db.tables)
    ensures LogWithin(history + SetOf(es), AdmitAll(reg, db, es).value.db)
  {
    hide TablesAre, Admit, LogWithin, Coherent;
    if es == [] {
      assert history + SetOf(es) == history;
    } else {
      var init, e := es[..|es| - 1], es[|es| - 1];
      SetOfSnoc(es);
      CoherentSubset(history + SetOf(es), history + SetOf(init));
      AdmitAllKeepsTables(reg, history, db, init);
      assert history + SetOf(es) == history + SetOf(init) + {e};
      AdmitKeepsTables(reg, history + SetOf(init), AdmitAll(reg, db, init).value, e);
    }
  }

  lemma CoherentSubset(big: set<Event>, small: set<Event>)
    requires small <= big && Coherent(big)
    ensures Coherent(small)
  {
  }

  lemma SameLogWithin(history: set<Event>, a: Db, b: Db)
    requires LogWithin(history, a) && a.log == b.log
    ensures LogWithin(history, b)
  {
    forall o, n | n in Present(b, o)
      ensures LogsOneOf(history, b, o, n)
    {
      assert n in Present(a, o);
    }
  }

  lemma DeliverKeepsTables(reg: Registry, history: set<Event>, db: Db, d: Delivery)
    requires WellFormedRegistry(reg) && TablesAre(reg, history, db.tables) && LogWithin(history, db)
    requires d.Batch? && Applied(reg, db, d.events, d.clock).Ok? ==>
               WritesOnly(SetOf(d.events)) && Coherent(history + SetOf(d.events))
    ensures var grown := history +
                         if d.Batch? && Applied(reg, db, d.events, d.clock).Ok? then SetOf(d.events) else {};
            TablesAre(reg, grown, Deliver(reg, db, d).tables) && LogWithin(grown, Deliver(reg, db, d))
  {
    hide TablesAre, Coherent, AdmitAll, Finish;
    if d.Batch? && Applied(reg, db, d.events, d.clock).Ok? && d.events != [] {
      AdmitAllKeepsTables(reg, history, db, d.events);
      var admitted := AdmitAll(reg, db, d.events).value.db;
      FinishKeepsLog(admitted, d.events, d.clock);
      SameLogWithin(history + SetOf(d.events), admitted, Deliver(reg, db, d));
    } else {
      assert d.Batch? && d.events == [] ==> SetOf(d.events) == {};
      assert history + {} == history;
      var after := Deliver(reg, db, d);
      forall o, n | n in Present(after, o)
        ensures LogsOneOf(history, after, o, n)
      {
        assert n in Present(db, o) && EventsOf(after, o)[n] == EventsOf(db, o)[n];
      }
    }
  }

  /** Deliveries on top of tables that already reflect the events of `base`. */
  lemma {:induction false} DeliveriesKeepTables(reg: Registry, base: set<Event>, db: Db, ds: seq<Delivery>)
    requires WellFormedRegistry(reg) && TablesAre(reg, base, db.tables) && LogWithin(base, db)
    requires WritesOnly(Received(reg, db, ds)) && Coherent(base + Received(reg, db, ds))
    ensures TablesAre(reg, base + Received(reg, db, ds), DeliverAll(reg, db, ds).tables)
    ensures LogWithin(base + Received(reg, db, ds), DeliverAll(reg, db, ds))
  {
    hide TablesAre, Deliver, LogWithin, Coherent, Applied;
    if ds == [] {
      assert base + Received(reg, db, ds) == base;
    } else {
      var init := ds[..|ds| - 1];
      CoherentSubset(base + Received(reg, db, ds), base + Received(reg, db, init));
      DeliveriesKeepTables(reg, base, db, init);
      var now, d := DeliverAll(reg, db, init), ds[|ds| - 1];
      var more := if d.Batch? && Applied(reg, now, d.events, d.clock).Ok? then SetOf(d.events) else {};
      assert base + Received(reg, db, ds) == (base + Received(reg, db, init)) + more;
      DeliverKeepsTables(reg, base + Received(reg, db, init), now, d);
    }
  }

  // ----- Equal histories, equal tables -----

  /** Same business rows, versions and tombstones on every key. */
  ghost predicate SameTables(a: Tables, b: Tables) {
    forall key :: RowAt(a, key) == RowAt(b, key)
  }

  lemma SameTablesSameRows(a: Tables, b: Tables)
    requires SameTables(a, b)
    ensures a.rows == b.rows && a.tombs == b.tombs
  {
    forall key
      ensures (key in a.rows <==> key in b.rows) && (key in a.rows ==> a.rows[key] == b.rows[key])
      ensures (key in a.tombs <==> key in b.tombs) && (key in a.tombs ==> a.tombs[key] == b.tombs[key])
    {
      assert RowAt(a, key) == RowAt(b, key);
    }
    assert a.rows.Keys == b.rows.Keys && a.tombs.Keys == b.tombs.Keys;
  }

  lemma HistoryDeterminesTables(reg: Registry, history: set<Event>, a: Tables, b: Tables)
    requires Coherent(history) && TablesAre(reg, history, a) && TablesAre(reg, history, b)
    ensures SameTables(a, b)
  {
    hide IsLastWrite, RowAt, SpecAt;
    forall key
      ensures RowAt(a, key) == RowAt(b, key)
    {
      CoherentSubset(history, EventsAt(reg, history, key));
      LastWriteIsUnique(SpecAt(reg, key), EventsAt(reg, history, key), RowAt(a, key), RowAt(b, key));
    }
  }

  lemma FreshTables(reg: Registry, self: Origin)
    ensures TablesAre(reg, {}, Fresh(self).tables) && LogWithin({}, Fresh(self))
  {
    forall key
      ensures IsLastWrite(SpecAt(reg, key), EventsAt(reg, {}, key), RowAt(Fresh(self).tables, key))
    {
      assert EventsAt(reg, {}, key) == {};
      NothingIsLastWrite(SpecAt(reg, key));
    }
  }

  /** Strong convergence for INSERT/UPDATE histories: replicas that received
      the same events agree on every row and version, whatever the order,
      batching, repetition, collections, membership changes and batches refused
      over them. */
  lemma ReplicasConverge(reg: Registry, self1: Origin, ds1: seq<Delivery>, self2: Origin, ds2: seq<Delivery>)
    requires WellFormedRegistry(reg)
    requires Received(reg, Fresh(self1), ds1) == Received(reg, Fresh(self2), ds2)
    requires WritesOnly(Received(reg, Fresh(self1), ds1)) && Coherent(Received(reg, Fresh(self1), ds1))
    ensures SameTables(DeliverAll(reg, Fresh(self1), ds1).tables, DeliverAll(reg, Fresh(self2), ds2).tables)
    ensures DeliverAll(reg, Fresh(self1), ds1).tables.rows == DeliverAll(reg, Fresh(self2), ds2).tables.rows
  {
    hide TablesAre, DeliverAll, Received, SameTables, LogWithin, Coherent;
    FreshTables(reg, self1);
    FreshTables(reg, self2);
    var received := Received(reg, Fresh(self1), ds1);
    assert {} + received == received;
    DeliveriesKeepTables(reg, {}, Fresh(self1), ds1);
    DeliveriesKeepTables(reg, {}, Fresh(self2), ds2);
    HistoryDeterminesTables(reg, received,
                            DeliverAll(reg, Fresh(self1), ds1).tables, DeliverAll(reg, Fresh(self2), ds2).tables);
    SameTablesSameRows(DeliverAll(reg, Fresh(self1), ds1).tables, DeliverAll(reg, Fresh(self2), ds2).tables);
  }
}
