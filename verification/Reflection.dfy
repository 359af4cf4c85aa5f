/** What collected history is worth to its receivers: with seeds taken from
    nodes of the mesh and INSERT/UPDATE events only, a collected event has left
    its mark in every receiver's field versions, unless it came with a seed that
    its writer served of itself. */
module Reflection {
  import opened Hlc
  import opened Conflict
  import opened Changelog
  import opened Store
  import opened Resolver
  import opened RowHistory
  import opened Apply
  import opened Capture
  import opened LocalWrites
  import opened SeedTarget
  import opened Replica
  import opened Gc
  import opened Collection
  import Mesh
  import opened Seed
  import opened Snapshot
  import Seeding

  /** Every column the event carries is at its version or a newer one. */
  ghost predicate Reflected(reg: Registry, t: Tables, e: Event) {
    var key := KeyOf(reg, e);
    key.Some? ==> ReflectedAt(SpecAt(reg, key.value), RowAt(t, key.value), e)
  }

  ghost predicate ReflectedAt(spec: TableSpec, rs: RowState, e: Event) {
    forall c :: Carries(spec, e, c) ==> c in rs.vers && !Wins(VersionOf(e), rs.vers[c])
  }

  // ----- One event -----

  lemma ResolveReflects(spec: TableSpec, rs: RowState, e: Event)
    requires rs.tomb.None? && !e.op.Delete?
    ensures ReflectedAt(spec, Resolve(spec, rs, e), e) && Resolve(spec, rs, e).tomb.None?
  {
    hide Wins, VersionOf;
    WinsIsTotalOrder(VersionOf(e), VersionOf(e), VersionOf(e));
    var won := Winners(spec, rs.vers, e);
    forall c | Carries(spec, e, c)
      ensures c in Resolve(spec, rs, e).vers && !Wins(VersionOf(e), Resolve(spec, rs, e).vers[c])
    {
      assert c in won <==> c !in rs.vers || Wins(VersionOf(e), rs.vers[c]);
    }
  }

  lemma ResolveKeepsReflected(spec: TableSpec, rs: RowState, e: Event, x: Event)
    requires ReflectedAt(spec, rs, x)
    ensures ReflectedAt(spec, Resolve(spec, rs, e), x)
  {
    hide Wins, VersionOf, Resolve;
    EventOnlyAdvances(spec, rs, e);
    forall c | Carries(spec, x, c)
      ensures c in Resolve(spec, rs, e).vers && !Wins(VersionOf(x), Resolve(spec, rs, e).vers[c])
    {
      WinsIsTotalOrder(VersionOf(x), Resolve(spec, rs, e).vers[c], rs.vers[c]);
      WinsIsTotalOrder(Resolve(spec, rs, e).vers[c], rs.vers[c], rs.vers[c]);
    }
  }

  /** Resolving a write reflects it and keeps what was reflected. */
  lemma EventReflects(reg: Registry, t: Tables, e: Event, x: Event)
    requires WellFormedRegistry(reg) && t.tombs == map[] && !e.op.Delete?
    ensures Reflected(reg, ResolveInto(reg, t, e), e)
    ensures Reflected(reg, t, x) ==> Reflected(reg, ResolveInto(reg, t, e), x)
    ensures ResolveInto(reg, t, e).tombs == map[]
  {
    hide ReflectedAt, Resolve, Lower, WellFormedRegistry, Winners, SpecAt;
    if KeyOf(reg, e).Some? {
      var key := KeyOf(reg, e).value;
      ResolveIntoAt(reg, t, e, key);
      ResolveReflects(SpecAt(reg, key), RowAt(t, key), e);
    }
    if KeyOf(reg, x).Some? {
      var key := KeyOf(reg, x).value;
      ResolveIntoAt(reg, t, e, key);
      if Reflected(reg, t, x) {
        ResolveKeepsReflected(SpecAt(reg, key), RowAt(t, key), e, x);
      }
    }
    TombsStayEmpty(reg, t, e);
  }

  lemma TombsStayEmpty(reg: Registry, t: Tables, e: Event)
    requires t.tombs == map[] && !e.op.Delete?
    ensures ResolveInto(reg, t, e).tombs == map[]
  {
    hide Wins, VersionOf, Lower;
    if KeyOf(reg, e).Some? {
      var key := KeyOf(reg, e).value;
      assert Resolve(SpecAt(reg, key), RowAt(t, key), e).tomb.None?;
      assert t.tombs - {key} == map[];
    }
  }

  // ----- One node -----

  /** `known` are remote events reflected here; `bare` bounds, per origin, the
      writes that only a seed accounts for, without versions. */
  datatype Extra = Extra(known: set<Event>, bare: Vector)

  ghost predicate Knows(known: set<Event>, o: Origin, k: nat) {
    exists e :: e in known && e.origin == o && e.originSeq == k
  }

  ghost predicate Explained(x: Extra, o: Origin, k: nat) {
    Knows(x.known, o, k) || k <= Get(x.bare, o)
  }

  /** A log row is an event of the history, and a reflected one when remote. */
  ghost predicate EntryOk(history: set<Event>, self: Origin, db: Db, known: set<Event>, o: Origin, k: nat)
    requires k in Present(db, o)
  {
    var e := EventsOf(db, o)[k];
    e in history && e.origin == o && e.originSeq == k && (o != self ==> e in known)
  }

  ghost predicate TablesOk(reg: Registry, history: set<Event>, t: Tables, known: set<Event>) {
    known <= history && t.tombs == map[] && forall e :: e in known ==> Reflected(reg, t, e)
  }

  ghost predicate LogOk(history: set<Event>, self: Origin, db: Db, known: set<Event>) {
    forall o, k :: k in Present(db, o) ==> EntryOk(history, self, db, known, o, k)
  }

  ghost predicate DbOk(reg: Registry, history: set<Event>, self: Origin, db: Db, known: set<Event>) {
    TablesOk(reg, history, db.tables, known) && LogOk(history, self, db, known)
  }

  ghost predicate GotOk(self: Origin, got: set<Identity>, known: set<Event>) {
    forall o, k :: (o, k) in got && o != self ==> Knows(known, o, k)
  }

  ghost predicate CoveredOk(self: Origin, covered: Vector, x: Extra) {
    forall o, k: nat :: o != self && 1 <= k <= Get(covered, o) ==> Explained(x, o, k)
  }

  ghost predicate NodeOk(reg: Registry, history: set<Event>, self: Origin, n: Node, x: Extra) {
    DbOk(reg, history, self, n.db, x.known) && GotOk(self, n.got, x.known) && CoveredOk(self, n.covered, x)
  }

  /** The events of a batch that come from elsewhere. */
  ghost function Remote(es: seq<Event>, self: Origin): set<Event> {
    set e | e in es && e.origin != self
  }

  lemma AdmitKeepsDb(reg: Registry, history: set<Event>, self: Origin, a: Admitted, known: set<Event>, e: Event)
    requires WellFormedRegistry(reg) && WritesOnly(history) && Coherent(history) && e in history
    requires DbOk(reg, history, self, a.db, known) && Admit(reg, a, e).Ok?
    ensures DbOk(reg, history, self, Admit(reg, a, e).value.db, known + if e.origin != self then {e} else {})
  {
    hide Reflected, ResolveInto, WritesInto, WellFormedRegistry, VersionOf;
    var grown := known + if e.origin != self then {e} else {};
    if Stored(a.db, e) {
      assert EntryOk(history, self, a.db, known, e.origin, e.originSeq);
      var stored := EventsOf(a.db, e.origin)[e.originSeq];
      assert stored in history && SameIdentity(stored, e);
      assert grown == known;
    } else {
      var after := Admit(reg, a, e).value.db;
      forall x | x in grown
        ensures Reflected(reg, after.tables, x)
      {
        EventReflects(reg, a.db.tables, e, x);
      }
      EventReflects(reg, a.db.tables, e, e);
      forall o, k | k in Present(after, o)
        ensures EntryOk(history, self, after, grown, o, k)
      {
        if o == e.origin && k == e.originSeq {
          assert EventsOf(after, o)[k] == e;
        } else {
          assert k in Present(a.db, o) && EventsOf(after, o)[k] == EventsOf(a.db, o)[k];
          assert EntryOk(history, self, a.db, known, o, k);
        }
      }
    }
  }

  lemma {:induction false} AdmitAllKeepsDb(reg: Registry, history: set<Event>, self: Origin, db: Db,
                                           known: set<Event>, es: seq<Event>)
    requires WellFormedRegistry(reg) && WritesOnly(history) && Coherent(history) && SetOf(es) <= history
    requires DbOk(reg, history, self, db, known) && AdmitAll(reg, db, es).Ok?
    ensures DbOk(reg, history, self, AdmitAll(reg, db, es).value.db, known + Remote(es, self))
  {
    hide DbOk, Admit, Coherent, WellFormedRegistry, WritesOnly;
    if es == [] {
      assert known + Remote(es, self) == known;
    } else {
      var init, e := es[..|es| - 1], es[|es| - 1];
      SetOfSnoc(es);
      AdmitAllKeepsDb(reg, history, self, db, known, init);
      AdmitKeepsDb(reg, history, self, AdmitAll(reg, db, init).value, known + Remote(init, self), e);
      RemoteSnoc(es, self);
      assert known + Remote(es, self) == known + Remote(init, self) + if e.origin != self then {e} else {};
    }
  }

  lemma RemoteSnoc(es: seq<Event>, self: Origin)
    requires es != []
    ensures Remote(es, self) == Remote(es[..|es| - 1], self) + if es[|es| - 1].origin != self then {es[|es| - 1]}
                                else {}
  {
    assert es == es[..|es| - 1] + [es[|es| - 1]];
  }

  /** Only tables and log matter. */
  lemma SameTablesAndLog(reg: Registry, history: set<Event>, self: Origin, a: Db, b: Db, known: set<Event>)
    requires DbOk(reg, history, self, a, known) && b.tables == a.tables
    requires forall o, k :: k in Present(b, o) ==> k in Present(a, o) && EventsOf(b, o)[k] == EventsOf(a, o)[k]
    ensures DbOk(reg, history, self, b, known)
  {
    hide TablesOk;
    forall o, k | k in Present(b, o)
      ensures EntryOk(history, self, b, known, o, k)
    {
      assert EntryOk(history, self, a, known, o, k);
    }
  }

  lemma BatchKeepsDb(reg: Registry, history: set<Event>, self: Origin, db: Db, known: set<Event>, es: seq<Event>,
                     clock: HLC)
    requires WellFormedRegistry(reg) && WritesOnly(history) && Coherent(history) && SetOf(es) <= history
    requires DbOk(reg, history, self, db, known) && Applied(reg, db, es, clock).Ok?
    ensures DbOk(reg, history, self, Applied(reg, db, es, clock).value, known + Remote(es, self))
  {
    hide DbOk, AdmitAll, Finish, WellFormedRegistry, WritesOnly, Coherent;
    if es == [] {
      assert known + Remote(es, self) == known;
    } else {
      AdmitAllKeepsDb(reg, history, self, db, known, es);
      var admitted := AdmitAll(reg, db, es).value.db;
      FinishKeepsLog(admitted, es, clock);
      SameTablesAndLog(reg, history, self, admitted, Finish(admitted, es, clock), known + Remote(es, self));
    }
  }

  lemma MoreKnown(self: Origin, got: set<Identity>, covered: Vector, x: Extra, y: Extra)
    requires GotOk(self, got, x.known) && CoveredOk(self, covered, x)
    requires x.known <= y.known && AtMost(x.bare, y.bare)
    ensures GotOk(self, got, y.known) && CoveredOk(self, covered, y)
  {
    forall o, k | (o, k) in got && o != self
      ensures Knows(y.known, o, k)
    {
      var e :| e in x.known && e.origin == o && e.originSeq == k;
      assert e in y.known;
    }
    forall o, k: nat | o != self && 1 <= k <= Get(covered, o)
      ensures Explained(y, o, k)
    {
      assert Explained(x, o, k);
      if e :| e in x.known && e.origin == o && e.originSeq == k {
        assert e in y.known;
      }
      assert Get(x.bare, o) <= Get(y.bare, o);
    }
  }

  lemma BatchKeepsNode(reg: Registry, history: set<Event>, self: Origin, n: Node, x: Extra, es: seq<Event>, clock: HLC)
    requires WellFormedRegistry(reg) && WritesOnly(history) && Coherent(history) && SetOf(es) <= history
    requires NodeOk(reg, history, self, n, x) && Applied(reg, n.db, es, clock).Ok?
    ensures NodeOk(reg, history, self, Next(reg, n, Replica.Batch(es, clock)), x.(known := x.known + Remote(es, self)))
  {
    hide DbOk, Applied, WellFormedRegistry, WritesOnly, Coherent, CoveredOk;
    var y := x.(known := x.known + Remote(es, self));
    BatchKeepsDb(reg, history, self, n.db, x.known, es, clock);
    MoreKnown(self, n.got, n.covered, x, y);
    forall o, k | (o, k) in n.got + Identities(es) && o != self
      ensures Knows(y.known, o, k)
    {
      if (o, k) !in n.got {
        var e :| e in es && (e.origin, e.originSeq) == (o, k);
        assert e in y.known;
      }
    }
  }

  /** Whatever the node newly logs of its own is an event of the history. */
  ghost predicate LogsHistory(history: set<Event>, before: Db, after: Db) {
    var self := before.local.self;
    forall k :: k in Present(after, self) ==>
                  || (k in Present(before, self) && EventsOf(after, self)[k] == EventsOf(before, self)[k])
                  || EventsOf(after, self)[k] in history
  }

  /** A captured statement changes rows and the own log, not versions. */
  lemma WriteKeepsNode(reg: Registry, history: set<Event>, self: Origin, n: Node, x: Extra, spec: TableSpec,
                       c: Change, wall: nat, id: string)
    requires NodeOk(reg, history, self, n, x) && n.db.local.self == self
    requires LogsHistory(history, n.db, Captured(spec, n.db, c, wall, id))
    ensures NodeOk(reg, history, self, Next(reg, n, Write(spec, c, wall, id)), x)
  {
    hide Captured, GotOk, CoveredOk, Reflected;
    var after := Captured(spec, n.db, c, wall, id);
    CapturedTables(spec, n.db, c, wall, id);
    forall e | e in x.known
      ensures Reflected(reg, after.tables, e)
    {
      SameVersionsReflect(reg, n.db.tables, after.tables, e);
    }
    forall o, k | k in Present(after, o)
      ensures EntryOk(history, self, after, x.known, o, k)
    {
      CapturedEntry(spec, n.db, c, wall, id, o, k);
      if k in Present(n.db, o) && EventsOf(after, o)[k] == EventsOf(n.db, o)[k] {
        assert EntryOk(history, self, n.db, x.known, o, k);
      }
    }
  }

  lemma SameVersionsReflect(reg: Registry, a: Tables, b: Tables, e: Event)
    requires Reflected(reg, a, e) && a.versions == b.versions
    ensures Reflected(reg, b, e)
  {
    hide Lower, Wins, VersionOf, SpecAt;
  }

  lemma CapturedTables(spec: TableSpec, db: Db, c: Change, wall: nat, id: string)
    ensures var after := Captured(spec, db, c, wall, id);
            after.tables.versions == db.tables.versions && after.tables.tombs == db.tables.tombs
  {
    hide RowAfter, Logged, Allocated;
  }

  /** A log row after a capture was there before, or is an own one. */
  lemma CapturedEntry(spec: TableSpec, db: Db, c: Change, wall: nat, id: string, o: Origin, k: nat)
    requires k in Present(Captured(spec, db, c, wall, id), o)
    ensures var after := Captured(spec, db, c, wall, id);
            || (k in Present(db, o) && EventsOf(after, o)[k] == EventsOf(db, o)[k])
            || (o == db.local.self && EventsOf(after, o)[k].origin == o && EventsOf(after, o)[k].originSeq == k)
  {
    hide RowAfter, Logged, WithRow;
  }

  // ----- Seeding from a node of the mesh -----

  /** An empty node can only know events that carry no registered column. */
  lemma EmptyReflectsAll(reg: Registry, db: Db, t: Tables, e: Event)
    requires IsEmpty(reg, db) && Reflected(reg, db.tables, e)
    ensures Reflected(reg, t, e)
  {
    hide Lower, Wins, VersionOf, SpecAt;
  }

  lemma EmptyLogOk(reg: Registry, history: set<Event>, self: Origin, db: Db, after: Db, known: set<Event>)
    requires IsEmpty(reg, db) && after.log == db.log
    ensures LogOk(history, self, after, known)
  {
    forall o
      ensures Present(after, o) == {}
    {
      EmptyLog(reg, db, o);
    }
  }

  /** What a target holds once a source's stream of the registered tables has
      ended: those as at the source, the others as before. */
  ghost predicate SeedsInto(reg: Registry, source: Tables, before: Tables, tables: Tables) {
    forall key: RowKey :: RowAt(tables, key) == RowAt(if Streamed(reg, key) then source else before, key)
  }

  predicate Streamed(reg: Registry, key: RowKey) {
    IsRegistered(reg, key.table)
  }

  lemma SeedReflects(reg: Registry, source: Tables, before: Tables, tables: Tables, e: Event)
    requires WellFormedRegistry(reg) && SeedsInto(reg, source, before, tables) && Reflected(reg, source, e)
    ensures Reflected(reg, tables, e)
  {
    hide ReflectedAt, Lower, SpecAt, RowAt;
    if KeyOf(reg, e).Some? {
      var key := KeyOf(reg, e).value;
      assert Streamed(reg, key);
      assert RowAt(tables, key) == RowAt(source, key);
    }
  }

  lemma SeedHasNoTombs(reg: Registry, source: Tables, before: Tables, tables: Tables)
    requires SeedsInto(reg, source, before, tables) && source.tombs == map[] && before.tombs == map[]
    ensures tables.tombs == map[]
  {
    forall key
      ensures key !in tables.tombs
    {
      assert RowAt(tables, key) == RowAt(if Streamed(reg, key) then source else before, key);
    }
  }

  /** A successful Fetch of a source's stream of all registered tables is such
      a load. */
  lemma FetchSeedsInto(reg: Registry, source: Tables, req: Request, vector: Vector, schemaVersion: nat,
                       names: seq<string>, msgs: seq<Message>, before: Db, after: Db, n: nat, c0: HLC, c1: HLC)
    requires WellFormedRegistry(reg) && FullRows(reg, source) && IsEmpty(reg, before)
    requires IsStream(reg, source, req, vector, schemaVersion, names, msgs)
    requires Names(names) == Seeding.RegisteredNames(reg)
    requires EndsAt(reg, before.tables, msgs, req, schemaVersion, n) && Seeded(reg, before, after, msgs, n, c0, c1)
    ensures after == Loaded(before, vector, after.tables, c1)
    ensures SeedsInto(reg, source, before.tables, after.tables)
  {
    hide FullRows, IsEmpty, LoadAll, WellFormedRegistry, IsBody, Lower, RowAt;
    Seeding.NamesAreRegistered(reg);
    Seeding.StreamIsAccepted(reg, source, before, req, vector, schemaVersion, names, msgs);
    var body := msgs[1..|msgs| - 1];
    assert n == |msgs| - 1;
    SnapshotIsFaithful(reg, source, Names(names), body, before);
    FetchIsLoad(reg, before, after, msgs, n, c0, c1);
    forall key: RowKey
      ensures key.table in Names(names) <==> Streamed(reg, key)
    {
      assert Streamed(reg, key) ==> reg[Lower(key.table)].name == key.table;
    }
  }

  lemma LoadKeepsNode(reg: Registry, history: set<Event>, self: Origin, n: Node, x: Extra,
                      vector: Vector, source: Tables, more: Extra, tables: Tables, clock: HLC)
    requires WellFormedRegistry(reg) && NodeOk(reg, history, self, n, x) && IsEmpty(reg, n.db)
    requires SeedsInto(reg, source, n.db.tables, tables)
    requires TablesOk(reg, history, source, more.known)
    requires forall o, k: nat :: 1 <= k <= Get(vector, o) ==> Explained(more, o, k)
    ensures NodeOk(reg, history, self, Next(reg, n, Load(vector, tables, clock)),
                   Extra(x.known + more.known, Join(x.bare, more.bare)))
  {
    hide DbOk, GotOk, CoveredOk, TablesOk, IsEmpty, SeedsInto, WellFormedRegistry;
    var y := Extra(x.known + more.known, Join(x.bare, more.bare));
    var after := Next(reg, n, Load(vector, tables, clock));
    LoadedTablesOk(reg, history, self, n.db, x.known, source, more.known, tables);
    EmptyLogOk(reg, history, self, n.db, after.db, y.known);
    assert DbOk(reg, history, self, after.db, y.known) by { DbFrom(reg, history, self, after.db, y.known); }
    assert forall o :: Get(y.bare, o) == Larger(Get(x.bare, o), Get(more.bare, o));
    MoreKnown(self, n.got, n.covered, x, y);
    LoadedCoveredOk(self, n.covered, vector, x, more, y);
  }

  lemma DbFrom(reg: Registry, history: set<Event>, self: Origin, db: Db, known: set<Event>)
    requires TablesOk(reg, history, db.tables, known) && LogOk(history, self, db, known)
    ensures DbOk(reg, history, self, db, known)
  {
  }

  lemma LoadedTablesOk(reg: Registry, history: set<Event>, self: Origin, db: Db, known: set<Event>,
                       source: Tables, more: set<Event>, tables: Tables)
    requires WellFormedRegistry(reg) && DbOk(reg, history, self, db, known) && IsEmpty(reg, db)
    requires SeedsInto(reg, source, db.tables, tables)
    requires TablesOk(reg, history, source, more)
    ensures TablesOk(reg, history, tables, known + more)
  {
    hide Reflected, LogOk, IsEmpty, SeedsInto, WellFormedRegistry;
    forall e | e in known + more
      ensures Reflected(reg, tables, e)
    {
      if e in known {
        EmptyReflectsAll(reg, db, tables, e);
      } else {
        SeedReflects(reg, source, db.tables, tables, e);
      }
    }
    SeedHasNoTombs(reg, source, db.tables, tables);
  }

  lemma LoadedCoveredOk(self: Origin, covered: Vector, vector: Vector, x: Extra, more: Extra, y: Extra)
    requires CoveredOk(self, covered, y) && more.known <= y.known && AtMost(more.bare, y.bare)
    requires forall o, k: nat :: 1 <= k <= Get(vector, o) ==> Explained(more, o, k)
    ensures CoveredOk(self, Join(covered, vector), y)
  {
    forall o, k: nat | o != self && 1 <= k <= Get(Join(covered, vector), o)
      ensures Explained(y, o, k)
    {
      if k > Get(covered, o) {
        assert Get(Join(covered, vector), o) == Larger(Get(covered, o), Get(vector, o));
        assert Explained(more, o, k);
        if e :| e in more.known && e.origin == o && e.originSeq == k {
          assert e in y.known;
        }
        assert Get(more.bare, o) <= Get(y.bare, o);
      }
    }
  }

  lemma AbortKeepsNode(reg: Registry, history: set<Event>, self: Origin, n: Node, x: Extra, tables: Tables)
    requires NodeOk(reg, history, self, n, x) && tables.tombs == map[]
    ensures NodeOk(reg, history, self, Next(reg, n, AbortedLoad(tables)), x)
  {
    hide Reflected, GotOk, CoveredOk, LogOk, IsEmpty;
    if IsEmpty(reg, n.db) {
      forall e | e in x.known
        ensures Reflected(reg, tables, e)
      {
        EmptyReflectsAll(reg, n.db, tables, e);
      }
      EmptyLogOk(reg, history, self, n.db, n.db.(tables := tables), x.known);
    }
  }

  /** Losing log rows and changing anything but tables and log. */
  lemma QuietKeepsNode(reg: Registry, history: set<Event>, self: Origin, n: Node, after: Node, x: Extra)
    requires NodeOk(reg, history, self, n, x)
    requires after.got == n.got && after.covered == n.covered && after.db.tables == n.db.tables
    requires forall o, k :: k in Present(after.db, o) ==> k in Present(n.db, o)
                                                          && EventsOf(after.db, o)[k] == EventsOf(n.db, o)[k]
    ensures NodeOk(reg, history, self, after, x)
  {
    hide DbOk, GotOk, CoveredOk;
    SameTablesAndLog(reg, history, self, n.db, after.db, x.known);
  }

  // ----- The mesh with seeds from its own nodes -----

  /** What a source streams: its vector and tables, and what they account for. */
  datatype Image = Image(source: Origin, vector: Vector, tables: Tables, extra: Extra)

  datatype Full = Full(world: Mesh.World, extras: map<Origin, Extra>, snapshots: set<Image>)

  datatype Move =
    | Plain(move: Mesh.Move)
    | Take(source: Origin)
    | SeedFrom(at: Origin, snapshot: Image, tables: Tables, clock: HLC)

  const EMPTY := Full(Mesh.EMPTY, map[], {})

  /** Batches carry events of the history, captures add to it, and a seed loads
      what some node streamed. */
  ghost predicate Genuine(reg: Registry, history: set<Event>, w: Mesh.World, m: Mesh.Move)
    requires Mesh.Enabled(reg, w, m)
  {
    m.Local? ==>
      match m.step
      case Batch(es, _) => SetOf(es) <= history
      case Write(spec, c, wall, id) =>
        LogsHistory(history, w.nodes[m.at].db, Captured(spec, w.nodes[m.at].db, c, wall, id))
      case Load(_, _, _) => false
      case AbortedLoad(tables) => tables.tombs == map[]
      case _ => true
  }

  ghost predicate Enabled(reg: Registry, history: set<Event>, f: Full, m: Move) {
    match m
    case Plain(move) => Mesh.Enabled(reg, f.world, move) && Genuine(reg, history, f.world, move)
    case Take(source) => source in f.world.nodes && source in f.extras
    case SeedFrom(at, snapshot, tables, _) =>
      && at in f.world.nodes && at in f.extras && snapshot in f.snapshots
      && IsEmpty(reg, f.world.nodes[at].db)
      && SeedsInto(reg, snapshot.tables, f.world.nodes[at].db.tables, tables)
  }

  ghost function Taken(f: Full, source: Origin): Image
    requires source in f.world.nodes && source in f.extras
  {
    var db := f.world.nodes[source].db;
    Image(source, LocalVector(db), db.tables,
          f.extras[source].(bare := Join(f.extras[source].bare, map[source := db.local.currentSeq])))
  }

  ghost function ExtrasAfter(reg: Registry, f: Full, m: Mesh.Move): map<Origin, Extra>
    requires Mesh.Enabled(reg, f.world, m)
  {
    match m
    case Enter(at) => f.extras[at := Extra({}, map[])]
    case Local(at, step) =>
      if at in f.extras && step.Batch? && Applied(reg, f.world.nodes[at].db, step.events, step.clock).Ok?
      then f.extras[at := f.extras[at].(known := f.extras[at].known + Remote(step.events, at))]
      else f.extras
    case _ => f.extras
  }

  ghost function After(reg: Registry, history: set<Event>, f: Full, m: Move): Full
    requires Enabled(reg, history, f, m)
  {
    match m
    case Plain(move) => Full(Mesh.After(reg, f.world, move), ExtrasAfter(reg, f, move), f.snapshots)
    case Take(source) => f.(snapshots := f.snapshots + {Taken(f, source)})
    case SeedFrom(at, snap, tables, clock) =>
      var x := f.extras[at];
      Full(Mesh.After(reg, f.world, Mesh.Local(at, Load(snap.vector, tables, clock))),
           f.extras[at := Extra(x.known + snap.extra.known, Join(x.bare, snap.extra.bare))], f.snapshots)
  }

  ghost predicate Legal(reg: Registry, history: set<Event>, moves: seq<Move>)
    decreases |moves|, 0
  {
    moves != [] ==>
      && Legal(reg, history, moves[..|moves| - 1])
      && Enabled(reg, history, AfterAll(reg, history, moves[..|moves| - 1]), moves[|moves| - 1])
  }

  ghost function AfterAll(reg: Registry, history: set<Event>, moves: seq<Move>): Full
    requires Legal(reg, history, moves)
    decreases |moves|, 1
  {
    if moves == [] then EMPTY
    else After(reg, history, AfterAll(reg, history, moves[..|moves| - 1]), moves[|moves| - 1])
  }

  // ----- The invariant -----

  /** The origin served a snapshot when it had already written the sequence. */
  ghost predicate ServedItself(snapshots: set<Image>, o: Origin, k: nat) {
    exists s :: s in snapshots && s.source == o && k <= Get(s.vector, o)
  }

  ghost predicate BareOk(snapshots: set<Image>, bare: Vector) {
    forall o, k: nat :: 1 <= k <= Get(bare, o) ==> ServedItself(snapshots, o, k)
  }

  ghost predicate SnapshotOk(reg: Registry, history: set<Event>, snapshots: set<Image>, s: Image) {
    && TablesOk(reg, history, s.tables, s.extra.known)
    && (forall o, k: nat :: 1 <= k <= Get(s.vector, o) ==> Explained(s.extra, o, k))
    && BareOk(snapshots, s.extra.bare)
  }

  ghost predicate MemberOk(reg: Registry, history: set<Event>, f: Full, p: Origin)
    requires p in f.world.nodes
  {
    && p in f.extras && NodeOk(reg, history, p, f.world.nodes[p], f.extras[p])
    && BareOk(f.snapshots, f.extras[p].bare)
  }

  ghost predicate FullOk(reg: Registry, history: set<Event>, f: Full) {
    && Mesh.Consistent(f.world)
    && (forall p :: p in f.world.nodes ==> MemberOk(reg, history, f, p))
    && (forall s :: s in f.snapshots ==> SnapshotOk(reg, history, f.snapshots, s))
  }

  lemma MoreServed(a: set<Image>, b: set<Image>, bare: Vector)
    requires BareOk(a, bare) && a <= b
    ensures BareOk(b, bare)
  {
    forall o, k: nat | 1 <= k <= Get(bare, o)
      ensures ServedItself(b, o, k)
    {
      assert ServedItself(a, o, k);
    }
  }

  lemma JoinBareOk(snapshots: set<Image>, a: Vector, b: Vector)
    requires BareOk(snapshots, a) && BareOk(snapshots, b)
    ensures BareOk(snapshots, Join(a, b))
  {
    hide ServedItself;
    assert forall o :: Get(Join(a, b), o) == Larger(Get(a, o), Get(b, o));
  }

  /** The snapshot of a sound node accounts for its whole vector. */
  lemma TakenIsOk(reg: Registry, history: set<Event>, f: Full, p: Origin)
    requires FullOk(reg, history, f) && p in f.world.nodes
    ensures p in f.extras && SnapshotOk(reg, history, f.snapshots + {Taken(f, p)}, Taken(f, p))
  {
    hide DbOk, Reflected, Sound;
    assert MemberOk(reg, history, f, p) && Mesh.NodeConsistent(f.world, p);
    var n, x, s := f.world.nodes[p], f.extras[p], Taken(f, p);
    assert TablesOk(reg, history, s.tables, x.known) by { DbTables(reg, history, p, n.db, x.known); }
    assert forall o :: Get(s.extra.bare, o) == Larger(Get(x.bare, o), if o == p then n.db.local.currentSeq else 0);
    forall o, k: nat | 1 <= k <= Get(s.vector, o)
      ensures Explained(s.extra, o, k)
    {
      if o != p {
        assert CursorSound(n, o) by { SoundAt(n, o); }
        assert Has(n, o, k);
        assert Explained(x, o, k);
      }
    }
    forall o, k: nat | 1 <= k <= Get(s.extra.bare, o)
      ensures ServedItself(f.snapshots + {s}, o, k)
    {
      if k <= Get(x.bare, o) {
        assert ServedItself(f.snapshots, o, k);
      } else {
        assert s in f.snapshots + {s} && s.source == o && k <= Get(s.vector, o);
      }
    }
  }

  lemma DbTables(reg: Registry, history: set<Event>, self: Origin, db: Db, known: set<Event>)
    requires DbOk(reg, history, self, db, known)
    ensures TablesOk(reg, history, db.tables, known)
  {
  }

  // ----- The invariant is kept -----

  lemma CycleEntries(a: Db, b: Db, limit: nat, o: Origin, k: nat)
    requires IsCycle(a, b, limit) && k in Present(b, o)
    ensures k in Present(a, o) && EventsOf(b, o)[k] == EventsOf(a, o)[k] && a.tables == b.tables
  {
    hide Watermark, StaleView;
    if Get(Watermark(a), o) > 0 {
      var w := Get(Watermark(a), o);
      var victims :| IsPick(Below(a, o, w), limit, victims) && OriginLost(a, b, o, w, victims, limit);
    }
  }

  lemma RecordQuiet(reg: Registry, n: Node, peer: Origin, v: Vector)
    ensures var after := Next(reg, n, Record(peer, v));
            after.db.tables == n.db.tables && after.db.log == n.db.log && after.got == n.got
            && after.covered == n.covered
  {
  }

  /** The node a local step moves. */
  lemma LocalKeepsNode(reg: Registry, history: set<Event>, f: Full, m: Mesh.Move)
    requires WellFormedRegistry(reg) && WritesOnly(history) && Coherent(history)
    requires Mesh.Enabled(reg, f.world, m) && Genuine(reg, history, f.world, m) && m.Local?
    requires m.at in f.extras && NodeOk(reg, history, m.at, f.world.nodes[m.at], f.extras[m.at])
    requires f.world.nodes[m.at].db.local.self == m.at
    ensures NodeOk(reg, history, m.at, Next(reg, f.world.nodes[m.at], m.step), ExtrasAfter(reg, f, m)[m.at])
  {
    hide NodeOk, Applied, Captured, IsEmpty, LogsHistory, WellFormedRegistry, WritesOnly, Coherent;
    var n, x := f.world.nodes[m.at], f.extras[m.at];
    match m.step
    case Batch(es, clock) =>
      if Applied(reg, n.db, es, clock).Ok? {
        BatchKeepsNode(reg, history, m.at, n, x, es, clock);
      }
    case Write(spec, c, wall, id) => WriteKeepsNode(reg, history, m.at, n, x, spec, c, wall, id);
    case AbortedLoad(tables) => AbortKeepsNode(reg, history, m.at, n, x, tables);
    case Members(_) => QuietKeepsNode(reg, history, m.at, n, Next(reg, n, m.step), x);
  }

  lemma PlainKeepsNode(reg: Registry, history: set<Event>, f: Full, m: Mesh.Move, p: Origin)
    requires WellFormedRegistry(reg) && WritesOnly(history) && Coherent(history) && FullOk(reg, history, f)
    requires Mesh.Enabled(reg, f.world, m) && Genuine(reg, history, f.world, m)
             && p in Mesh.After(reg, f.world, m).nodes
    ensures p in ExtrasAfter(reg, f, m)
    ensures NodeOk(reg, history, p, Mesh.After(reg, f.world, m).nodes[p], ExtrasAfter(reg, f, m)[p])
    ensures p !in f.world.nodes ==> ExtrasAfter(reg, f, m)[p].bare == map[]
    ensures p in f.world.nodes ==> p in f.extras && ExtrasAfter(reg, f, m)[p].bare == f.extras[p].bare
  {
    hide NodeOk, Next, IsCycle, WellFormedRegistry, WritesOnly, Coherent, Sound, Applied;
    if p in f.world.nodes {
      assert MemberOk(reg, history, f, p) && Mesh.NodeConsistent(f.world, p);
    }
    match m
    case Enter(at) =>
      if p == at {
        BeginOk(reg, history, p);
      }
    case Local(at, step) =>
      if p == at {
        LocalKeepsNode(reg, history, f, m);
      }
    case SendAck(_, _) =>
    case RecordAck(a) =>
      if p == a.to {
        var n := f.world.nodes[p];
        RecordQuiet(reg, n, a.from, a.vector);
        QuietKeepsNode(reg, history, p, n, Next(reg, n, Record(a.from, a.vector)), f.extras[p]);
      }
    case Cycle(at, after, limit) =>
      if p == at {
        var n := f.world.nodes[p];
        forall o, k | k in Present(after, o)
          ensures k in Present(n.db, o) && EventsOf(after, o)[k] == EventsOf(n.db, o)[k] && n.db.tables == after.tables
        {
          CycleEntries(n.db, after, limit, o, k);
        }
        CycleTables(n.db, after, limit);
        QuietKeepsNode(reg, history, p, n, n.(db := after), f.extras[p]);
      }
    case Reconfigure(at, _, _, _) =>
      if p == at {
        QuietKeepsNode(reg, history, p, f.world.nodes[p], Mesh.After(reg, f.world, m).nodes[p], f.extras[p]);
      }
  }

  lemma CycleTables(a: Db, b: Db, limit: nat)
    requires IsCycle(a, b, limit)
    ensures a.tables == b.tables
  {
  }

  lemma BeginOk(reg: Registry, history: set<Event>, p: Origin)
    ensures NodeOk(reg, history, p, Begin(p), Extra({}, map[]))
  {
    hide Reflected;
  }

  lemma PlainKeepsFull(reg: Registry, history: set<Event>, f: Full, m: Mesh.Move)
    requires WellFormedRegistry(reg) && WritesOnly(history) && Coherent(history) && FullOk(reg, history, f)
    requires Enabled(reg, history, f, Plain(m))
    ensures FullOk(reg, history, After(reg, history, f, Plain(m)))
  {
    hide NodeOk, Mesh.Enabled, Mesh.After, Mesh.Consistent, ExtrasAfter, Genuine, SnapshotOk, ServedItself;
    hide WellFormedRegistry, WritesOnly, Coherent;
    var g := After(reg, history, f, Plain(m));
    Mesh.MoveKeepsConsistent(reg, f.world, m);
    forall p | p in g.world.nodes
      ensures MemberOk(reg, history, g, p)
    {
      PlainKeepsNode(reg, history, f, m, p);
      if p in f.world.nodes {
        assert MemberOk(reg, history, f, p);
      }
    }
  }

  lemma TakeKeepsFull(reg: Registry, history: set<Event>, f: Full, p: Origin)
    requires FullOk(reg, history, f) && Enabled(reg, history, f, Take(p))
    ensures FullOk(reg, history, After(reg, history, f, Take(p)))
  {
    hide NodeOk, Mesh.Consistent, ServedItself, TablesOk, BareOk, Explained;
    var g := After(reg, history, f, Take(p));
    TakenIsOk(reg, history, f, p);
    forall q | q in g.world.nodes
      ensures MemberOk(reg, history, g, q)
    {
      assert MemberOk(reg, history, f, q);
      MoreServed(f.snapshots, g.snapshots, f.extras[q].bare);
    }
    forall s | s in g.snapshots
      ensures SnapshotOk(reg, history, g.snapshots, s)
    {
      if s in f.snapshots {
        assert SnapshotOk(reg, history, f.snapshots, s);
        MoreServed(f.snapshots, g.snapshots, s.extra.bare);
      }
    }
  }

  lemma SeedKeepsFull(reg: Registry, history: set<Event>, f: Full, at: Origin, snap: Image, tables: Tables,
                      clock: HLC)
    requires WellFormedRegistry(reg) && FullOk(reg, history, f)
    requires Enabled(reg, history, f, SeedFrom(at, snap, tables, clock))
    ensures FullOk(reg, history, After(reg, history, f, SeedFrom(at, snap, tables, clock)))
  {
    hide NodeOk, Mesh.Consistent, ServedItself, TablesOk, BareOk, Explained, Next, IsEmpty, SeedsInto;
    hide WellFormedRegistry;
    var g := After(reg, history, f, SeedFrom(at, snap, tables, clock));
    Mesh.MoveKeepsConsistent(reg, f.world, Mesh.Local(at, Load(snap.vector, tables, clock)));
    assert SnapshotOk(reg, history, f.snapshots, snap);
    forall q | q in g.world.nodes
      ensures MemberOk(reg, history, g, q)
    {
      assert MemberOk(reg, history, f, q);
      if q == at {
        LoadKeepsNode(reg, history, at, f.world.nodes[at], f.extras[at], snap.vector, snap.tables, snap.extra, tables,
                      clock);
        JoinBareOk(f.snapshots, f.extras[at].bare, snap.extra.bare);
      }
    }
  }

  lemma {:induction false} RunIsOk(reg: Registry, history: set<Event>, moves: seq<Move>)
    requires WellFormedRegistry(reg) && WritesOnly(history) && Coherent(history) && Legal(reg, history, moves)
    ensures FullOk(reg, history, AfterAll(reg, history, moves))
  {
    hide Enabled, After, FullOk, WellFormedRegistry, WritesOnly, Coherent;
    if moves == [] {
      assert FullOk(reg, history, EMPTY) by { EmptyIsOk(reg, history); }
    } else {
      RunIsOk(reg, history, moves[..|moves| - 1]);
      var f := AfterAll(reg, history, moves[..|moves| - 1]);
      match moves[|moves| - 1]
      case Plain(m) => PlainKeepsFull(reg, history, f, m);
      case Take(p) => TakeKeepsFull(reg, history, f, p);
      case SeedFrom(at, snap, tables, clock) => SeedKeepsFull(reg, history, f, at, snap, tables, clock);
    }
  }

  lemma EmptyIsOk(reg: Registry, history: set<Event>)
    ensures FullOk(reg, history, EMPTY)
  {
    Mesh.EmptyIsConsistent();
  }

  // ----- What collection costs nobody -----

  lemma HeldIsReflected(reg: Registry, history: set<Event>, f: Full, r: Origin, e: Event)
    requires Coherent(history) && FullOk(reg, history, f) && e in history
    requires r in f.world.nodes && Has(f.world.nodes[r], e.origin, e.originSeq) && e.originSeq >= 1 && r != e.origin
    ensures r in f.extras
    ensures Reflected(reg, f.world.nodes[r].db.tables, e) || e.originSeq <= Get(f.extras[r].bare, e.origin)
  {
    hide Reflected, LogOk, VersionOf, BareOk, Sound;
    assert MemberOk(reg, history, f, r) && Mesh.NodeConsistent(f.world, r);
    var x, o, k := f.extras[r], e.origin, e.originSeq;
    if k > Get(x.bare, o) {
      assert Knows(x.known, o, k) by {
        if (o, k) !in f.world.nodes[r].got {
          assert Explained(x, o, k);
        }
      }
      var known :| known in x.known && known.origin == o && known.originSeq == k;
      assert SameIdentity(known, e);
    }
  }

  lemma CollectedWasLogged(reg: Registry, history: set<Event>, f: Full, p: Origin, o: Origin, k: nat)
    requires FullOk(reg, history, f) && p in f.world.nodes && k in Present(f.world.nodes[p].db, o)
    ensures var e := EventsOf(f.world.nodes[p].db, o)[k];
            e in history && e.origin == o && e.originSeq == k
  {
    hide TablesOk, GotOk, CoveredOk, BareOk;
    assert MemberOk(reg, history, f, p);
    assert EntryOk(history, p, f.world.nodes[p].db, f.extras[p].known, o, k);
  }

  /** For INSERT/UPDATE histories, with seeds taken from nodes of the mesh: an
      event that any GC cycle removes is, at every ACTIVE receiver on record,
      the receiver's own write, or reflected in its field versions column by
      column, or its seeds account for it without versions: its origin had
      served a snapshot of itself at or past it. Capture gives no versions, so
      such a snapshot has none to copy, and the value itself is there only if
      the writer had not lost it (SeededWrites.SeededValueIff). */
  lemma CollectedEventsAreReflected(reg: Registry, history: set<Event>, moves: seq<Move>,
                                    p: Origin, after: Db, limit: nat, o: Origin, k: nat, r: Origin)
    requires WellFormedRegistry(reg) && WritesOnly(history) && Coherent(history) && Legal(reg, history, moves)
    requires p in AfterAll(reg, history, moves).world.nodes
    requires var db := AfterAll(reg, history, moves).world.nodes[p].db;
             IsCycle(db, after, limit) && k in Present(db, o) && k !in Present(after, o) && r in Receivers(db)
    ensures var f := AfterAll(reg, history, moves);
            && r in f.world.nodes
            && (|| r == o
                || Reflected(reg, f.world.nodes[r].db.tables, EventsOf(f.world.nodes[p].db, o)[k])
                || (r in f.extras && k <= Get(f.extras[r].bare, o) && ServedItself(f.snapshots, o, k)))
  {
    hide AfterAll, Legal, Has, IsCycle, FullOk, Reflected, Coherent, WellFormedRegistry, WritesOnly, ServedItself;
    hide Mesh.Consistent;
    RunIsOk(reg, history, moves);
    var f := AfterAll(reg, history, moves);
    FullIsConsistent(reg, history, f);
    Mesh.ConsistentCollectionIsHeld(f.world, p, after, limit, o, k, r);
    CollectedWasLogged(reg, history, f, p, o, k);
    if r != o {
      HeldIsReflected(reg, history, f, r, EventsOf(f.world.nodes[p].db, o)[k]);
      BareWasServed(reg, history, f, r, o, k);
    }
  }

  lemma FullIsConsistent(reg: Registry, history: set<Event>, f: Full)
    requires FullOk(reg, history, f)
    ensures Mesh.Consistent(f.world)
  {
  }

  lemma BareWasServed(reg: Registry, history: set<Event>, f: Full, r: Origin, o: Origin, k: nat)
    requires FullOk(reg, history, f) && r in f.world.nodes && k >= 1
    ensures r in f.extras && (k <= Get(f.extras[r].bare, o) ==> ServedItself(f.snapshots, o, k))
  {
    hide NodeOk, ServedItself;
    assert MemberOk(reg, history, f, r);
  }

  /** What bare values cost: a joiner seeded right after a local write agrees
      with a replica that received the write, once a later event has arrived at
      both, exactly when the write survives on the node that made it. */
  lemma SeededJoinerAgreesIff(reg: Registry, before: Tables, key: RowKey, c: Change, w: Event, empty: Tables,
                              seeded: Tables, e: Event)
    requires WellFormedRegistry(reg) && KeyOf(reg, w) == KeyOf(reg, e) == Some(key)
    requires Shared(SpecAt(reg, key), RowAt(before, key)) && Logs(SpecAt(reg, key), RowAt(before, key), c, w)
    requires SeedsInto(reg, WithRow(before, key, RowAfter(SpecAt(reg, key), RowIn(before, key), c).value), empty,
                       seeded)
    ensures RowAt(ResolveInto(reg, seeded, e), key).row
         == RowAt(ResolveInto(reg, ResolveInto(reg, before, w), e), key).row
       <==> LocalWriteSurvives(SpecAt(reg, key), RowAt(before, key), c, w, e)
  {
    hide Shared, LocalWriteSurvives, Resolve, ResolveInto, RowAfter, Logged, SpecAt, WellFormedRegistry, KeyOf;
    var spec, rs := SpecAt(reg, key), RowAt(before, key);
    var written := WithRow(before, key, RowAfter(spec, rs.row, c).value);
    assert Streamed(reg, key) by { KeyIsStreamed(reg, e); }
    assert RowAt(seeded, key) == RowAt(written, key) == rs.(row := RowAfter(spec, rs.row, c).value);
    ResolveIntoAt(reg, seeded, e, key);
    ResolveIntoAt(reg, before, w, key);
    ResolveIntoAt(reg, ResolveInto(reg, before, w), e, key);
    LocalWriteSurvivesIff(spec, rs, c, w, e);
  }

  lemma KeyIsStreamed(reg: Registry, e: Event)
    requires WellFormedRegistry(reg) && KeyOf(reg, e).Some?
    ensures Streamed(reg, KeyOf(reg, e).value)
  {
    hide Lower;
  }
}
