/** Seeding end to end: a snapshot plus the later deltas is as good as the
    whole history (internal/seed with internal/apply). */
module Seeding {
  import opened Hlc
  import opened Changelog
  import opened Store
  import opened Resolver
  import opened RowHistory
  import opened Apply
  import opened Convergence
  import opened Seed
  import opened SeedTarget
  import opened Snapshot
  import opened Gc
  import opened Collection
  import opened Capture
  import Mesh
  import Replica

  // ----- The stream is accepted -----

  ghost predicate AllRegistered(reg: Registry, names: seq<string>) {
    forall n :: n in names ==> IsRegistered(reg, n)
  }

  /** An empty target always takes a source's stream to its end, and nowhere
      else. */
  lemma StreamIsAccepted(reg: Registry, s: Tables, db: Db, req: Request, vector: Vector, schemaVersion: nat,
                         names: seq<string>, msgs: seq<Message>)
    requires FullRows(reg, s) && AllRegistered(reg, names) && IsEmpty(reg, db)
    requires IsStream(reg, s, req, vector, schemaVersion, names, msgs)
    ensures forall n: nat :: EndsAt(reg, db.tables, msgs, req, schemaVersion, n) <==> n == |msgs| - 1
  {
    hide FullRows, IsRegistered, IsEmpty, LoadAll, Lower, Covers;
    var body := msgs[1..|msgs| - 1];
    assert FitsStart(reg, msgs[0], req, schemaVersion) by { RegisteredFits(reg, msgs[0], req, schemaVersion); }
    SnapshotIsFaithful(reg, s, Names(names), body, db);
    forall i | 1 <= i < |msgs| - 1
      ensures IsBodyMessage(msgs[i])
    {
      assert body[i - 1] in body && FromSource(reg, s, body[i - 1]);
    }
    assert EndsAt(reg, db.tables, msgs, req, schemaVersion, |msgs| - 1);
  }

  lemma RegisteredFits(reg: Registry, m: Message, req: Request, schemaVersion: nat)
    requires m.SeedStart? && m.schemaVersion == schemaVersion && m.bootstrapId == req.bootstrapId
    requires AllRegistered(reg, m.tables)
    ensures FitsStart(reg, m, req, schemaVersion)
  {
    forall n | n in m.tables
      ensures Lower(n) in reg
    {
      assert IsRegistered(reg, n);
    }
  }

  lemma VersionIsStamped(reg: Registry, s: Tables, body: seq<Message>, m: Message, key: RowKey, c: string)
    requires m in body && FromSource(reg, s, m) && CarriesVersion(m, key, c)
    ensures key in s.versions && c in s.versions[key] && s.versions[key][c].hlc in AllStamps(body)
  {
    hide Lower;
    var i :| 0 <= i < |m.versions| && m.versions[i].rowId == key.id && m.versions[i].column == c;
    assert IsSeedVersion(s, m.table, m.versions[i]);
    assert key == RowKey(m.table, m.versions[i].rowId);
    assert s.versions[key][c].hlc in Stamps(m);
  }

  lemma TombstoneIsStamped(reg: Registry, s: Tables, body: seq<Message>, m: Message, key: RowKey)
    requires m in body && FromSource(reg, s, m) && CarriesTombstone(m, key)
    ensures key in s.tombs && s.tombs[key].hlc in AllStamps(body)
  {
    hide Lower;
    var i :| 0 <= i < |m.tombs| && m.tombs[i].rowId == key.id;
    assert IsSeedTombstone(s, m.table, m.tombs[i]);
    assert key == RowKey(m.table, m.tombs[i].rowId);
    assert s.tombs[key].hlc in Stamps(m);
  }

  /** The restored clock is past every version and tombstone of the snapshot. */
  lemma SeedClockCoversSnapshot(reg: Registry, s: Tables, names: seq<string>, msgs: seq<Message>,
                                before: Db, after: Db, c0: HLC, c1: HLC, key: RowKey, c: string)
    requires |msgs| >= 2 && msgs[0].SeedStart? && IsBody(reg, s, Names(names), msgs[1..|msgs| - 1])
    requires Seeded(reg, before, after, msgs, |msgs| - 1, c0, c1) && key.table in names
    ensures key in s.versions && c in s.versions[key] ==> !Before(c1, s.versions[key][c].hlc)
    ensures key in s.tombs ==> !Before(c1, s.tombs[key].hlc)
  {
    hide LoadAll, FromSource, CarriesRow, CarriesVersion, CarriesTombstone, AllStamps, WithProgressMany;
    var body := msgs[1..|msgs| - 1];
    if key in s.versions && c in s.versions[key] {
      var m :| m in body && CarriesVersion(m, key, c);
      VersionIsStamped(reg, s, body, m, key, c);
    }
    if key in s.tombs {
      var m :| m in body && CarriesTombstone(m, key);
      TombstoneIsStamped(reg, s, body, m, key);
    }
  }

  /** The persisted clock keeps up with the restored one exactly when saving
      does not drop a logical part: on restart the node may fall back behind
      seeded writes otherwise. */
  lemma SeedClockPersistedIff(reg: Registry, msgs: seq<Message>, n: nat, before: Db, after: Db, c0: HLC, c1: HLC)
    requires 1 <= n < |msgs| && msgs[0].SeedStart? && Seeded(reg, before, after, msgs, n, c0, c1)
    ensures !Before(after.local.hlc, c1) <==> c1.logical == 0 || c1.physical <= before.local.hlc.physical
  {
  }

  // ----- Pins -----

  /** The merged pin while the prepared session is the only one started. */
  lemma LonePin(db: Db, req: Request, now: Db, o: Origin)
    requires StartedSeeds(db) == {} && req.bootstrapId !in db.seeds.pins && now.seeds == Prepared(db, req).seeds
    ensures StartedSeeds(now) == {req.bootstrapId} && MergedPin(now, o) <= Get(LocalVector(db), o)
  {
    hide LocalVector, MergedPin;
    assert req.bootstrapId in StartedSeeds(now);
    assert StartedSeeds(now) == {req.bootstrapId} by {
      assert forall b :: b in StartedSeeds(now) && b != req.bootstrapId ==> b in StartedSeeds(db);
    }
    SingleSeedIsProtected(now, o);
    PinnedVector(db, req);
    assert PinsOf(now, req.bootstrapId) == PinsOf(Prepared(db, req), req.bootstrapId);
  }

  /** While a lone seed session stands as Prepare left it, no GC cycle removes a
      row above the snapshot vector or moves a mark past it, whatever batches,
      writes, acknowledgements and cycles came in between. */
  lemma PreparedSeedIsProtected(db: Db, req: Request, now: Db, after: Db, limit: nat, o: Origin, k: nat)
    requires StartedSeeds(db) == {} && req.bootstrapId !in db.seeds.pins && now.seeds == Prepared(db, req).seeds
    requires IsCycle(now, after, limit) && k > Get(LocalVector(db), o)
    ensures k in Present(now, o) ==> k in Present(after, o)
    ensures Mark(now, o) <= Get(LocalVector(db), o) ==> Mark(after, o) <= Get(LocalVector(db), o)
  {
    hide LocalVector, MergedPin, Watermark, StaleView, StartedSeeds;
    LonePin(db, req, now, o);
    WatermarkBounds(now, o);
    var w := Get(Watermark(now), o);
    if w > 0 {
      var victims :| IsPick(Below(now, o, w), limit, victims) && OriginLost(now, after, o, w, victims, limit);
    }
  }

  // Over runs of the mesh.

  /** Node p's seed sessions stay as they are. */
  ghost predicate KeepsSeeds(moves: seq<Mesh.Move>, p: Origin, seeds: Seeds) {
    forall i :: 0 <= i < |moves| ==> (moves[i].Reconfigure? && moves[i].at == p ==> moves[i].seeds == seeds)
  }

  lemma StepKeepsSeeds(reg: Registry, n: Replica.Node, step: Replica.Step)
    ensures Replica.Next(reg, n, step).db.seeds == n.db.seeds
    ensures Replica.Next(reg, n, step).db.meta == n.db.meta
  {
    hide Applied, IsEmpty, Captured;
    match step
    case Batch(es, clock) =>
      if Applied(reg, n.db, es, clock).Ok? {
        Replica.BatchCursors(reg, n.db, es, clock, n.db.local.self);
      }
    case Write(spec, c, wall, id) => Replica.CapturedLog(spec, n.db, c, wall, id, n.db.local.self);
    case Load(_, _, _) =>
    case AbortedLoad(_) =>
    case Record(_, _) =>
    case Collect(_, _) =>
    case Members(_) =>
  }

  lemma MoveKeepsSeed(reg: Registry, w: Mesh.World, m: Mesh.Move, p: Origin, db: Db, req: Request, o: Origin, k: nat)
    requires Mesh.Enabled(reg, w, m) && p in w.nodes
    requires StartedSeeds(db) == {} && req.bootstrapId !in db.seeds.pins
    requires w.nodes[p].db.seeds == Prepared(db, req).seeds && KeepsSeeds([m], p, Prepared(db, req).seeds)
    requires k > Get(LocalVector(db), o)
    ensures var v := Mesh.After(reg, w, m);
            && p in v.nodes && v.nodes[p].db.seeds == Prepared(db, req).seeds
            && (k in Present(w.nodes[p].db, o) ==> k in Present(v.nodes[p].db, o))
            && (Mark(w.nodes[p].db, o) <= Get(LocalVector(db), o) ==> Mark(v.nodes[p].db, o) <= Get(LocalVector(db), o))
  {
    hide Replica.Next, IsCycle, Present, Prepared, LocalVector, StartedSeeds;
    assert [m][0] == m;
    match m
    case Enter(_) =>
    case Local(at, step) =>
      if p == at {
        StepKeepsSeeds(reg, w.nodes[p], step);
        Mesh.StepGrows(reg, w.nodes[p], step, o);
      }
    case SendAck(_, _) =>
    case RecordAck(a) =>
      if p == a.to {
        StepKeepsSeeds(reg, w.nodes[p], Replica.Record(a.from, a.vector));
        Mesh.StepGrows(reg, w.nodes[p], Replica.Record(a.from, a.vector), o);
      }
    case Cycle(at, after, limit) =>
      if p == at {
        PreparedSeedIsProtected(db, req, w.nodes[p].db, after, limit, o, k);
        CycleSeeds(w.nodes[p].db, after, limit);
      }
    case Reconfigure(at, _, _, _) =>
      if p == at {
        Mesh.SameLogPresent(w.nodes[p].db, Mesh.After(reg, w, m).nodes[p].db, o);
      }
  }

  lemma CycleSeeds(a: Db, b: Db, limit: nat)
    requires IsCycle(a, b, limit)
    ensures a.seeds == b.seeds
  {
  }

  /** From the moment a lone session is prepared at p until p's sessions change,
      over any run of the mesh: every row above the snapshot vector that p held
      or comes to hold stays, and no mark moves past that vector. */
  lemma {:induction false} PreparedSeedStaysProtected(reg: Registry, w: Mesh.World, moves: seq<Mesh.Move>, p: Origin,
                                                      db: Db, req: Request, o: Origin, k: nat)
    requires Mesh.Legal(reg, w, moves) && p in w.nodes && KeepsSeeds(moves, p, Prepared(db, req).seeds)
    requires StartedSeeds(db) == {} && req.bootstrapId !in db.seeds.pins
    requires w.nodes[p].db.seeds == Prepared(db, req).seeds && k > Get(LocalVector(db), o)
    ensures var v := Mesh.AfterAll(reg, w, moves);
            && p in v.nodes && v.nodes[p].db.seeds == Prepared(db, req).seeds
            && (k in Present(w.nodes[p].db, o) ==> k in Present(v.nodes[p].db, o))
            && (Mark(w.nodes[p].db, o) <= Get(LocalVector(db), o) ==> Mark(v.nodes[p].db, o) <= Get(LocalVector(db), o))
  {
    hide Mesh.Enabled, Mesh.After, Prepared, Present, Mark, LocalVector, StartedSeeds;
    if moves != [] {
      var init, m := moves[..|moves| - 1], moves[|moves| - 1];
      assert forall i :: 0 <= i < |init| ==> init[i] == moves[i];
      PreparedSeedStaysProtected(reg, w, init, p, db, req, o, k);
      MoveKeepsSeed(reg, Mesh.AfterAll(reg, w, init), m, p, db, req, o, k);
    }
  }

  lemma PinnedVector(db: Db, req: Request)
    requires req.bootstrapId !in db.seeds.pins
    ensures PinsOf(Prepared(db, req), req.bootstrapId) == LocalVector(db)
  {
    assert db.local.self in LocalVector(db);
    assert map[] + LocalVector(db) == LocalVector(db);
  }

  /** Closing a session, completed or aborted, releases its pins alone. */
  lemma CloseReleasesPin(db: Db, id: string, acknowledged: bool)
    ensures StartedSeeds(Closed(db, id, acknowledged)) == StartedSeeds(db) - {id}
  {
  }

  // ----- The source's cursors cover what it received -----

  function StepOf(d: Delivery): Replica.Step {
    match d
    case Batch(es, clock) => Replica.Batch(es, clock)
    case Collect(o, victims) => Replica.Collect(o, victims)
    case Reconfigure(nodes) => Replica.Members(nodes)
  }

  function StepsOf(ds: seq<Delivery>): seq<Replica.Step> {
    if ds == [] then [] else StepsOf(ds[..|ds| - 1]) + [StepOf(ds[|ds| - 1])]
  }

  ghost function IdentitiesOf(history: set<Event>): set<Replica.Identity> {
    set e | e in history :: (e.origin, e.originSeq)
  }

  /** The events one delivery brings when it commits. */
  ghost function Brought(reg: Registry, db: Db, d: Delivery): set<Event> {
    if d.Batch? && Applied(reg, db, d.events, d.clock).Ok? then SetOf(d.events) else {}
  }

  lemma DeliveryIsStep(reg: Registry, n: Replica.Node, d: Delivery)
    requires n.covered == map[]
    ensures var next := Replica.Next(reg, n, StepOf(d));
            && next.db == Deliver(reg, n.db, d) && next.covered == map[]
            && next.got == n.got + IdentitiesOf(Brought(reg, n.db, d))
  {
    hide Applied;
    match d
    case Batch(es, _) => SameIdentities(es);
    case Collect(_, _) =>
    case Reconfigure(_) =>
  }

  lemma SameIdentities(es: seq<Event>)
    ensures Replica.Identities(es) == IdentitiesOf(SetOf(es))
  {
  }

  lemma IdentitiesOfUnion(a: set<Event>, b: set<Event>)
    ensures IdentitiesOf(a + b) == IdentitiesOf(a) + IdentitiesOf(b)
  {
  }

  lemma StepsOfSnoc(ds: seq<Delivery>)
    requires ds != []
    ensures StepsOf(ds) != [] && StepsOf(ds)[|StepsOf(ds)| - 1] == StepOf(ds[|ds| - 1])
    ensures StepsOf(ds)[..|StepsOf(ds)| - 1] == StepsOf(ds[..|ds| - 1])
  {
  }

  lemma ReceivedSnoc(reg: Registry, db: Db, ds: seq<Delivery>)
    requires ds != []
    ensures Received(reg, db, ds) ==
            Received(reg, db, ds[..|ds| - 1]) + Brought(reg, DeliverAll(reg, db, ds[..|ds| - 1]), ds[|ds| - 1])
  {
    hide Applied;
  }

  lemma {:induction false} DeliveriesAreSteps(reg: Registry, self: Origin, ds: seq<Delivery>)
    ensures var n := Replica.After(reg, self, StepsOf(ds));
            && n.db == DeliverAll(reg, Fresh(self), ds) && n.covered == map[]
            && n.got == IdentitiesOf(Received(reg, Fresh(self), ds))
  {
    hide Brought, IdentitiesOf, Replica.Next, Deliver, StepOf, Received;
    if ds == [] {
      assert IdentitiesOf({}) == {} && Received(reg, Fresh(self), ds) == {} by { NothingReceived(reg, Fresh(self)); }
    } else {
      var init, d := ds[..|ds| - 1], ds[|ds| - 1];
      DeliveriesAreSteps(reg, self, init);
      StepsOfSnoc(ds);
      DeliveryIsStep(reg, Replica.After(reg, self, StepsOf(init)), d);
      ReceivedSnoc(reg, Fresh(self), ds);
      IdentitiesOfUnion(Received(reg, Fresh(self), init), Brought(reg, DeliverAll(reg, Fresh(self), init), d));
    }
  }

  lemma NothingReceived(reg: Registry, db: Db)
    ensures Received(reg, db, []) == {} && IdentitiesOf({}) == {}
  {
  }

  lemma {:induction false} DeliveriesWriteNothing(reg: Registry, self: Origin, ds: seq<Delivery>)
    ensures DeliverAll(reg, Fresh(self), ds).local.self == self
            && DeliverAll(reg, Fresh(self), ds).local.currentSeq == 0
  {
    if ds != [] {
      hide AdmitAll, Finish;
      var init, d := ds[..|ds| - 1], ds[|ds| - 1];
      DeliveriesWriteNothing(reg, self, init);
      var now := DeliverAll(reg, Fresh(self), init);
      if d.Batch? && Applied(reg, now, d.events, d.clock).Ok? {
        Replica.BatchCursors(reg, now, d.events, d.clock, self);
      }
    }
  }

  /** An event of the history at or below the source's vector was received. */
  lemma CursorCovers(reg: Registry, self: Origin, ds: seq<Delivery>, history: set<Event>, e: Event)
    requires Received(reg, Fresh(self), ds) <= history && Coherent(history)
    requires e in history && 1 <= e.originSeq <= Get(LocalVector(DeliverAll(reg, Fresh(self), ds)), e.origin)
    ensures e in Received(reg, Fresh(self), ds)
  {
    hide DeliverAll, Received;
    DeliveriesAreSteps(reg, self, ds);
    DeliveriesWriteNothing(reg, self, ds);
    Replica.CursorsAreContiguous(reg, self, StepsOf(ds), e.origin, e.originSeq);
    assert (e.origin, e.originSeq) in IdentitiesOf(Received(reg, Fresh(self), ds));
    var x :| x in Received(reg, Fresh(self), ds) && (x.origin, x.originSeq) == (e.origin, e.originSeq);
    assert SameIdentity(x, e);
  }

  // ----- Snapshot then deltas -----

  ghost function RegisteredNames(reg: Registry): set<string> {
    set t | t in reg :: reg[t].name
  }

  lemma TablesHaveFullRows(reg: Registry, history: set<Event>, s: Tables)
    requires TablesAre(reg, history, s)
    ensures FullRows(reg, s)
  {
    hide Lower;
    forall key | key in s.rows && IsRegistered(reg, key.table)
      ensures s.rows[key].Keys == SpecAt(reg, key).columns
    {
      assert IsLastWrite(SpecAt(reg, key), EventsAt(reg, history, key), RowAt(s, key));
    }
  }

  /** Nothing lives under a name no event can address. */
  lemma OtherTablesAreEmpty(reg: Registry, history: set<Event>, s: Tables, key: RowKey)
    requires WellFormedRegistry(reg) && TablesAre(reg, history, s) && key.table !in RegisteredNames(reg)
    ensures RowAt(s, key) == NOTHING
  {
    hide Lower, IsLastWrite;
    assert EventsAt(reg, history, key) == {};
    assert IsLastWrite(SpecAt(reg, key), EventsAt(reg, history, key), RowAt(s, key));
    NothingIsLastWrite(SpecAt(reg, key));
    LastWriteIsUnique(SpecAt(reg, key), {}, RowAt(s, key), NOTHING);
  }

  lemma NamesAreRegistered(reg: Registry)
    requires WellFormedRegistry(reg)
    ensures forall n :: n in RegisteredNames(reg) ==> IsRegistered(reg, n)
  {
    hide Lower;
  }

  /** The loaded tables stand for the same events as the source's. */
  lemma LoadedTablesAre(reg: Registry, history: set<Event>, s: Tables, body: seq<Message>, joiner: Origin)
    requires WellFormedRegistry(reg) && TablesAre(reg, history, s) && IsBody(reg, s, RegisteredNames(reg), body)
    ensures LoadAll(reg, Fresh(joiner).tables, body).Some?
    ensures TablesAre(reg, history, LoadAll(reg, Fresh(joiner).tables, body).value)
  {
    hide Lower, IsLastWrite, LoadAll, IsBody, FullRows, WellFormedRegistry, SpecAt, EventsAt;
    TablesHaveFullRows(reg, history, s);
    NamesAreRegistered(reg);
    SnapshotIsFaithful(reg, s, RegisteredNames(reg), body, Fresh(joiner));
    var loaded := LoadAll(reg, Fresh(joiner).tables, body).value;
    forall key: RowKey
      ensures IsLastWrite(SpecAt(reg, key), EventsAt(reg, history, key), RowAt(loaded, key))
    {
      assert IsLastWrite(SpecAt(reg, key), EventsAt(reg, history, key), RowAt(s, key));
      if key.table !in RegisteredNames(reg) {
        OtherTablesAreEmpty(reg, history, s, key);
      }
    }
  }

  /** For INSERT/UPDATE histories: a joiner that loads a source's stream and
      then receives at least every event above the snapshot vector, in any
      order and with any events the snapshot already reflects, holds exactly
      the rows, versions and tombstones of a node that received the whole
      history. */
  lemma SnapshotThenDeltas(reg: Registry, history: set<Event>, source: Origin, ds: seq<Delivery>,
                           req: Request, schemaVersion: nat, names: seq<string>, msgs: seq<Message>,
                           joiner: Origin, c0: HLC, c1: HLC, db: Db, later: seq<Delivery>,
                           other: Origin, whole: seq<Delivery>)
    requires WellFormedRegistry(reg) && WritesOnly(history) && Coherent(history)
    requires forall e :: e in history ==> e.originSeq >= 1
    requires Received(reg, Fresh(source), ds) <= history
    requires var from := DeliverAll(reg, Fresh(source), ds);
             IsStream(reg, from.tables, req, LocalVector(from), schemaVersion, names, msgs)
    requires Names(names) == RegisteredNames(reg)
    requires Seeded(reg, Fresh(joiner), db, msgs, |msgs| - 1, c0, c1)
    requires Received(reg, db, later) <= history
    requires forall e :: e in history && e.originSeq > Get(msgs[0].vector, e.origin) ==> e in Received(reg, db, later)
    requires Received(reg, Fresh(other), whole) == history
    ensures SameTables(DeliverAll(reg, db, later).tables, DeliverAll(reg, Fresh(other), whole).tables)
  {
    hide TablesAre, DeliverAll, Received, SameTables, LogWithin, LoadAll, IsBody, WellFormedRegistry, LocalVector;
    var seen, body := Received(reg, Fresh(source), ds), msgs[1..|msgs| - 1];
    Applies(reg, source, ds, history, seen);
    Applies(reg, other, whole, history, history);
    LoadedTablesAre(reg, seen, DeliverAll(reg, Fresh(source), ds).tables, body, joiner);
    assert db.tables == LoadAll(reg, Fresh(joiner).tables, body).value && db.log == map[];
    var more := Received(reg, db, later);
    forall e | e in history
      ensures e in seen + more
    {
      if e.originSeq <= Get(msgs[0].vector, e.origin) {
        CursorCovers(reg, source, ds, history, e);
      }
    }
    assert seen + more == history;
    EmptyLogWithin(seen, db);
    DeliveriesKeepTables(reg, seen, db, later);
    HistoryDeterminesTables(reg, history, DeliverAll(reg, db, later).tables,
                            DeliverAll(reg, Fresh(other), whole).tables);
  }

  lemma EmptyLogWithin(history: set<Event>, db: Db)
    requires db.log == map[]
    ensures LogWithin(history, db)
  {
  }

  lemma Applies(reg: Registry, self: Origin, ds: seq<Delivery>, history: set<Event>, received: set<Event>)
    requires WellFormedRegistry(reg) && WritesOnly(history) && Coherent(history)
    requires received == Received(reg, Fresh(self), ds) && received <= history
    ensures TablesAre(reg, received, DeliverAll(reg, Fresh(self), ds).tables)
  {
    hide TablesAre, DeliverAll, Received, LogWithin, WellFormedRegistry;
    FreshTables(reg, self);
    CoherentSubset(history, received);
    assert {} + received == received;
    DeliveriesKeepTables(reg, {}, Fresh(self), ds);
  }
}
