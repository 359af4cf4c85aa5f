/** The source of a snapshot: internal/seed/source.go, without the integrity
    digest. */
module Seed {
  import opened Conflict
  import opened Changelog
  import opened Store
  import opened Apply

  const DEFAULT_CHUNK: nat := 500

  datatype SeedRow = SeedRow(id: string, values: Row)
  datatype SeedVersion = SeedVersion(rowId: string, column: string, version: Version)
  datatype SeedTombstone = SeedTombstone(rowId: string, version: Version)

  datatype Message =
    | SeedStart(bootstrapId: string, schemaVersion: nat, vector: Vector, tables: seq<string>)
    | SeedRows(table: string, rows: seq<SeedRow>, done: bool)
    | SeedVersions(table: string, versions: seq<SeedVersion>, done: bool)
    | SeedTombstones(table: string, tombs: seq<SeedTombstone>, done: bool)
    | SeedEnd(bootstrapId: string)

  datatype Request = Request(bootstrapId: string, joining: Origin, schemaVersion: nat)

  // ----- Source: prepare -----

  /** What Prepare checks before it opens a session. */
  predicate Admissible(db: Db, req: Request, peerNodeId: string, schemaVersion: nat) {
    && req.schemaVersion == schemaVersion
    && (peerNodeId != "" ==> req.joining.nodeId == peerNodeId)
    && req.bootstrapId != "" && req.joining.nodeId != "" && req.joining.incarnationId != ""
    && !IsRetired(db.nodes, req.joining)
    && (req.joining.nodeId in db.nodes ==> db.nodes[req.joining.nodeId].status != ACTIVE)
    && req.bootstrapId !in db.seeds.bootstraps
  }

  /** One pin row per entry, an upsert each. */
  function WithPins(pins: map<string, Vector>, id: string, v: Vector): map<string, Vector> {
    if v == map[] then pins else pins[id := (if id in pins then pins[id] else map[]) + v]
  }

  /** The session row and one pin per origin of the snapshot vector. */
  function Prepared(db: Db, req: Request): Db {
    db.(seeds := Seeds(
      db.seeds.bootstraps[req.bootstrapId := Bootstrap(req.joining, Started, req.schemaVersion)],
      WithPins(db.seeds.pins, req.bootstrapId, LocalVector(db))))
  }

  method Prepare(db: Database, req: Request, peerNodeId: string, schemaVersion: nat) returns (r: Result<Vector>)
    modifies db`seeds
    ensures !Admissible(old(db.View()), req, peerNodeId, schemaVersion) ==>
              r == Err(PeerRejected) && db.View() == old(db.View())
    ensures Admissible(old(db.View()), req, peerNodeId, schemaVersion) ==>
              r == Ok(LocalVector(old(db.View()))) && db.View() == Prepared(old(db.View()), req)
  {
    if req.schemaVersion != schemaVersion
       || (peerNodeId != "" && req.joining.nodeId != peerNodeId)
       || req.bootstrapId == "" || req.joining.nodeId == "" || req.joining.incarnationId == "" {
      return Err(PeerRejected);
    }
    if req.joining.nodeId in db.nodes {
      var n := db.nodes[req.joining.nodeId];
      if (n.status == RETIRED && n.incarnationId == req.joining.incarnationId) || n.status == ACTIVE {
        return Err(PeerRejected);
      }
    }
    if req.bootstrapId in db.seeds.bootstraps {
      return Err(PeerRejected);
    }
    var vector := db.ReadLocalVector();
    PinVector(db, req, vector);
    return Ok(vector);
  }

  /** CreateBootstrap, then SetBootstrapVector once per origin. */
  method PinVector(db: Database, req: Request, vector: Vector)
    requires vector == LocalVector(db.View())
    modifies db`seeds
    ensures db.View() == Prepared(old(db.View()), req)
  {
    hide LocalVector, WithPins;
    var id := req.bootstrapId;
    ghost var before := db.seeds;
    db.seeds := db.seeds.(bootstraps := db.seeds.bootstraps[id := Bootstrap(req.joining, Started, req.schemaVersion)]);
    ghost var sessions := db.seeds.bootstraps;
    ghost var done: Vector := map[];
    NoPins(before.pins, id);
    var todo := vector.Keys;
    while todo != {}
      invariant todo <= vector.Keys && done.Keys == vector.Keys - todo
      invariant forall o :: o in done ==> done[o] == vector[o]
      invariant db.seeds == Seeds(sessions, WithPins(before.pins, id, done))
    {
      var o :| o in todo;
      PinOneMore(before.pins, id, done, o, vector[o]);
      var pins := if id in db.seeds.pins then db.seeds.pins[id] else map[];
      db.seeds := db.seeds.(pins := db.seeds.pins[id := pins[o := vector[o]]]);
      done := done[o := vector[o]];
      todo := todo - {o};
    }
    assert done == vector;
  }

  lemma NoPins(pins: map<string, Vector>, id: string)
    ensures WithPins(pins, id, map[]) == pins
  {
  }

  lemma PinOneMore(pins: map<string, Vector>, id: string, done: Vector, o: Origin, n: nat)
    requires o !in done
    ensures var now := WithPins(pins, id, done);
            now[id := (if id in now then now[id] else map[])[o := n]] == WithPins(pins, id, done[o := n])
  {
    var was := if id in pins then pins[id] else map[];
    assert was + done[o := n] == (was + done)[o := n];
    assert was + map[] == was;
  }

  /** How the source closes the session once the stream is out: the target's
      ACK completes it, anything else aborts it. */
  method CloseSession(db: Database, id: string, acknowledged: bool)
    modifies db`seeds
    ensures db.View() == Closed(old(db.View()), id, acknowledged)
    ensures id in old(db.seeds.bootstraps) ==>
              && id in db.seeds.bootstraps && (acknowledged ==> db.seeds.bootstraps[id].status == Completed)
              && (!acknowledged ==> db.seeds.bootstraps[id].status == Aborted)
  {
    if id in db.seeds.bootstraps {
      var b := db.seeds.bootstraps[id].(status := if acknowledged then Completed else Aborted);
      db.seeds := db.seeds.(bootstraps := db.seeds.bootstraps[id := b]);
    }
  }

  function Closed(db: Db, id: string, acknowledged: bool): Db {
    if id !in db.seeds.bootstraps then db
    else
      var b := db.seeds.bootstraps[id].(status := if acknowledged then Completed else Aborted);
      db.(seeds := db.seeds.(bootstraps := db.seeds.bootstraps[id := b]))
  }

  /** What a session needs: matching schemas, the joiner's own connection, a
      complete identity that is not retired, a node that is not ACTIVE, and a
      bootstrap id nobody used. */
  lemma AdmissibleIff(db: Db, req: Request, peerNodeId: string, schemaVersion: nat)
    ensures !Admissible(db, req, peerNodeId, schemaVersion) <==>
            || req.schemaVersion != schemaVersion
            || (peerNodeId != "" && peerNodeId != req.joining.nodeId)
            || req.bootstrapId == "" || req.joining.nodeId == "" || req.joining.incarnationId == ""
            || (req.joining.nodeId in db.nodes
                && (db.nodes[req.joining.nodeId].status == "ACTIVE"
                    || (db.nodes[req.joining.nodeId].status == "RETIRED"
                        && db.nodes[req.joining.nodeId].incarnationId == req.joining.incarnationId)))
            || req.bootstrapId in db.seeds.bootstraps
  {
  }

  /** The session is STARTED for the joiner and pins every origin the source
      knows at its cursor, the own one at current_seq. */
  lemma PreparedIs(db: Db, req: Request)
    requires req.bootstrapId !in db.seeds.bootstraps && req.bootstrapId !in db.seeds.pins
    ensures Prepared(db, req) == db.(seeds := Prepared(db, req).seeds)
    ensures var seeds := Prepared(db, req).seeds;
            && seeds.bootstraps == db.seeds.bootstraps[req.bootstrapId :=
                                   Bootstrap(req.joining, Started, req.schemaVersion)]
            && req.bootstrapId in seeds.pins && seeds.pins.Keys == db.seeds.pins.Keys + {req.bootstrapId}
            && (forall b :: b in db.seeds.pins ==> seeds.pins[b] == db.seeds.pins[b])
            && var pins := seeds.pins[req.bootstrapId];
            && db.local.self in pins && pins[db.local.self] == db.local.currentSeq
            && forall o :: o != db.local.self ==>
                             if EntryIn(db.progress, db.local.self, o).Some?
                             then o in pins && pins[o] == EntryIn(db.progress, db.local.self, o).value else o !in pins
  {
    assert db.local.self in LocalVector(db);
    assert map[] + LocalVector(db) == LocalVector(db);
  }

  /** The row of the session says how it ended; all else stays. */
  lemma ClosedIs(db: Db, id: string, acknowledged: bool)
    ensures id !in db.seeds.bootstraps ==> Closed(db, id, acknowledged) == db
    ensures id in db.seeds.bootstraps ==>
              && Closed(db, id, acknowledged) == db.(seeds := Closed(db, id, acknowledged).seeds)
              && var was, seeds := db.seeds.bootstraps[id], Closed(db, id, acknowledged).seeds;
              && seeds.pins == db.seeds.pins && seeds.bootstraps.Keys == db.seeds.bootstraps.Keys
              && (forall b :: b in db.seeds.bootstraps && b != id ==> seeds.bootstraps[b] == db.seeds.bootstraps[b])
              && seeds.bootstraps[id] ==
                 Bootstrap(was.joining, if acknowledged then Completed else Aborted, was.schemaVersion)
  {
  }

  // ----- Source: stream -----

  function Flatten<T>(batches: seq<seq<T>>): seq<T> {
    if batches == [] then [] else Flatten(batches[..|batches| - 1]) + batches[|batches| - 1]
  }

  /** Full batches of `size`, then a last one that is shorter, maybe empty. */
  ghost predicate AreBatches<T>(items: seq<T>, size: nat, batches: seq<seq<T>>) {
    && Flatten(batches) == items && batches != []
    && (forall i :: 0 <= i < |batches| - 1 ==> |batches[i]| == size)
    && |batches[|batches| - 1]| < size
  }

  ghost predicate InSome<T>(batches: seq<seq<T>>, x: T) {
    exists i :: 0 <= i < |batches| && x in batches[i]
  }

  lemma FlattenSnoc<T>(batches: seq<seq<T>>, batch: seq<T>)
    ensures Flatten(batches + [batch]) == Flatten(batches) + batch
  {
    assert (batches + [batch])[..|batches|] == batches;
  }

  function ChunkSize(chunk: int): (size: nat)
    ensures size >= 1 && size as int == if chunk > 0 then chunk else 500
  {
    if chunk <= 0 then DEFAULT_CHUNK else chunk
  }

  /** The flush loop shared by rows, versions and tombstones. */
  method InBatches<T>(items: seq<T>, chunk: int) returns (batches: seq<seq<T>>)
    ensures AreBatches(items, ChunkSize(chunk), batches)
    ensures forall x :: x in items <==> InSome(batches, x)
  {
    hide Flatten, InSome;
    var size := ChunkSize(chunk);
    batches := [];
    var batch: seq<T> := [];
    ghost var flushed: seq<T> := [];
    NothingToFlatten<T>();
    for i := 0 to |items|
      invariant flushed + batch == items[..i] && flushed == Flatten(batches) && |batch| < size
      invariant forall j :: 0 <= j < |batches| ==> |batches[j]| == size
    {
      batch := batch + [items[i]];
      assert flushed + batch == items[..i + 1];
      if |batch| >= size {
        FlattenSnoc(batches, batch);
        flushed := flushed + batch;
        batches := batches + [batch];
        batch := [];
        assert flushed + batch == items[..i + 1];
      }
    }
    FlattenSnoc(batches, batch);
    batches := batches + [batch];
    assert items[..|items|] == items;
    FlattenMembers(batches);
  }

  lemma NothingToFlatten<T>()
    ensures Flatten<T>([]) == []
  {
  }

  lemma {:induction false} FlattenMembers<T>(batches: seq<seq<T>>)
    ensures forall x :: x in Flatten(batches) <==> InSome(batches, x)
  {
    if batches != [] {
      var init := batches[..|batches| - 1];
      FlattenMembers(init);
      forall x
        ensures InSome(batches, x) <==> InSome(init, x) || x in batches[|batches| - 1]
      {
        if InSome(init, x) {
          var i :| 0 <= i < |init| && x in init[i];
          assert x in batches[i];
        }
        if InSome(batches, x) && x !in batches[|batches| - 1] {
          var i :| 0 <= i < |batches| && x in batches[i];
          assert x in init[i];
        }
      }
    }
  }

  ghost predicate IsSeedRow(s: Tables, table: string, x: SeedRow) {
    RowKey(table, x.id) in s.rows && x.values == s.rows[RowKey(table, x.id)]
  }

  ghost predicate IsSeedVersion(s: Tables, table: string, x: SeedVersion) {
    var key := RowKey(table, x.rowId);
    key in s.versions && x.column in s.versions[key] && s.versions[key][x.column] == x.version
  }

  ghost predicate IsSeedTombstone(s: Tables, table: string, x: SeedTombstone) {
    RowKey(table, x.rowId) in s.tombs && s.tombs[RowKey(table, x.rowId)] == x.version
  }

  /** Message of one body section carries only what the source tables hold. */
  ghost predicate FromSource(reg: Registry, s: Tables, m: Message) {
    match m
    case SeedRows(table, rows, _) =>
      && Lower(table) in reg && reg[Lower(table)].name == table
      && forall i :: 0 <= i < |rows| ==> IsSeedRow(s, table, rows[i])
    case SeedVersions(table, versions, _) =>
      forall i :: 0 <= i < |versions| ==> IsSeedVersion(s, table, versions[i])
    case SeedTombstones(table, tombs, _) =>
      forall i :: 0 <= i < |tombs| ==> IsSeedTombstone(s, table, tombs[i])
    case SeedStart(_, _, _, _) => false
    case SeedEnd(_) => false
  }

  ghost predicate CarriesRow(m: Message, key: RowKey) {
    m.SeedRows? && m.table == key.table && exists i :: 0 <= i < |m.rows| && m.rows[i].id == key.id
  }

  ghost predicate CarriesVersion(m: Message, key: RowKey, c: string) {
    m.SeedVersions? && m.table == key.table &&
    exists i :: 0 <= i < |m.versions| && m.versions[i].rowId == key.id && m.versions[i].column == c
  }

  ghost predicate CarriesTombstone(m: Message, key: RowKey) {
    m.SeedTombstones? && m.table == key.table && exists i :: 0 <= i < |m.tombs| && m.tombs[i].rowId == key.id
  }

  /** The body streams everything the source holds for its tables. */
  ghost predicate Covers(s: Tables, names: set<string>, body: seq<Message>) {
    && (forall key :: key in s.rows && key.table in names ==> exists m :: m in body && CarriesRow(m, key))
    && (forall key, c :: key in s.versions && key.table in names && c in s.versions[key] ==>
                           exists m :: m in body && CarriesVersion(m, key, c))
    && (forall key :: key in s.tombs && key.table in names ==> exists m :: m in body && CarriesTombstone(m, key))
  }

  ghost predicate IsBody(reg: Registry, s: Tables, names: set<string>, body: seq<Message>) {
    && (forall m :: m in body ==> FromSource(reg, s, m) && m.table in names)
    && Covers(s, names, body)
  }

  // The three sections of one table. ORDER BY follows the collation of the
  // server, whichever it is.

  type Collation = (string, string) -> bool

  ghost predicate IsOrder<T(!new)>(atMost: (T, T) -> bool) {
    && (forall a, b :: atMost(a, b) || atMost(b, a))
    && (forall a, b, c :: atMost(a, b) && atMost(b, c) ==> atMost(a, c))
  }

  lemma {:induction false} Least<T(!new)>(atMost: (T, T) -> bool, items: set<T>) returns (least: T)
    requires IsOrder(atMost) && items != {}
    ensures least in items && forall x :: x in items ==> atMost(least, x)
  {
    least :| least in items;
    var rest := items - {least};
    assert forall x :: x in items <==> x == least || x in rest;
    if rest != {} {
      var other := Least(atMost, rest);
      if !atMost(least, other) {
        least := other;
      }
    }
  }

  /** ORDER BY row_id, column_name. */
  predicate PairAtMost(order: Collation, row1: string, column1: string, row2: string, column2: string) {
    order(row1, row2) && (order(row2, row1) ==> order(column1, column2))
  }

  predicate NoRepeats<T(==)>(items: seq<T>) {
    forall i, j :: 0 <= i < j < |items| ==> items[i] != items[j]
  }

  ghost predicate ListsRows(order: Collation, s: Tables, table: string, items: seq<SeedRow>) {
    && NoRepeats(items) && (forall x :: x in items <==> IsSeedRow(s, table, x))
    && forall i, j :: 0 <= i < j < |items| ==> order(items[i].id, items[j].id)
  }

  ghost predicate ListsVersions(order: Collation, s: Tables, table: string, items: seq<SeedVersion>) {
    NoRepeats(items) && Sorted(order, items) && forall x :: x in items <==> IsSeedVersion(s, table, x)
  }

  ghost predicate Sorted(order: Collation, items: seq<SeedVersion>) {
    forall i, j :: 0 <= i < j < |items| ==>
                     PairAtMost(order, items[i].rowId, items[i].column, items[j].rowId, items[j].column)
  }

  /** None of the pairs comes before an item. */
  ghost predicate ComeLater(order: Collation, items: seq<SeedVersion>, pairs: set<(RowKey, string)>) {
    forall i, p :: 0 <= i < |items| && p in pairs ==>
                     PairAtMost(order, items[i].rowId, items[i].column, p.0.id, p.1)
  }

  lemma NothingSorted(order: Collation, pairs: set<(RowKey, string)>)
    ensures Sorted(order, []) && ComeLater(order, [], pairs)
  {
  }

  lemma NextVersion(order: Collation, items: seq<SeedVersion>, pairs: set<(RowKey, string)>, p: (RowKey, string),
                    x: SeedVersion)
    requires Sorted(order, items) && ComeLater(order, items, pairs) && p in pairs
    requires forall q :: q in pairs ==> PairAtMost(order, p.0.id, p.1, q.0.id, q.1)
    requires x.rowId == p.0.id && x.column == p.1
    ensures Sorted(order, items + [x]) && ComeLater(order, items + [x], pairs - {p})
  {
    hide PairAtMost;
  }

  ghost predicate ListsTombstones(order: Collation, s: Tables, table: string, items: seq<SeedTombstone>) {
    && NoRepeats(items) && (forall x :: x in items <==> IsSeedTombstone(s, table, x))
    && forall i, j :: 0 <= i < j < |items| ==> order(items[i].rowId, items[j].rowId)
  }

  /** Every row of the table once, in full chunks and a shorter last one, which
      alone is marked done. Likewise for versions and tombstones. */
  ghost predicate IsRowSection(order: Collation, s: Tables, table: string, size: nat, out: seq<Message>) {
    exists batches: seq<seq<SeedRow>> ::
      && ListsRows(order, s, table, Flatten(batches)) && AreBatches(Flatten(batches), size, batches)
      && out == seq(|batches|, i requires 0 <= i < |batches| => SeedRows(table, batches[i], i == |batches| - 1))
  }

  ghost predicate IsVersionSection(order: Collation, s: Tables, table: string, size: nat, out: seq<Message>) {
    exists batches: seq<seq<SeedVersion>> ::
      && ListsVersions(order, s, table, Flatten(batches)) && AreBatches(Flatten(batches), size, batches)
      && out == seq(|batches|, i requires 0 <= i < |batches| => SeedVersions(table, batches[i], i == |batches| - 1))
  }

  ghost predicate IsTombstoneSection(order: Collation, s: Tables, table: string, size: nat, out: seq<Message>) {
    exists batches: seq<seq<SeedTombstone>> ::
      && ListsTombstones(order, s, table, Flatten(batches)) && AreBatches(Flatten(batches), size, batches)
      && out == seq(|batches|, i requires 0 <= i < |batches| => SeedTombstones(table, batches[i], i == |batches| - 1))
  }

  lemma NoItems<T>()
    ensures NoRepeats<T>([])
  {
  }

  lemma OneMoreItem<T>(items: seq<T>, x: T)
    requires NoRepeats(items) && x !in items
    ensures NoRepeats(items + [x])
  {
  }

  lemma LeastKey(order: Collation, keys: set<RowKey>) returns (least: RowKey)
    requires IsOrder(order) && keys != {}
    ensures least in keys && forall k :: k in keys ==> order(least.id, k.id)
  {
    var atMost := (a: RowKey, b: RowKey) => order(a.id, b.id);
    forall a, b, c
      ensures atMost(a, b) || atMost(b, a)
      ensures atMost(a, b) && atMost(b, c) ==> atMost(a, c)
    {
      assert order(a.id, b.id) || order(b.id, a.id);
      assert order(a.id, b.id) && order(b.id, c.id) ==> order(a.id, c.id);
    }
    least := Least(atMost, keys);
    assert forall k :: k in keys ==> atMost(least, k);
  }

  lemma PairOrder(order: Collation, a: (RowKey, string), b: (RowKey, string), c: (RowKey, string))
    requires IsOrder(order)
    ensures PairAtMost(order, a.0.id, a.1, b.0.id, b.1) || PairAtMost(order, b.0.id, b.1, a.0.id, a.1)
    ensures PairAtMost(order, a.0.id, a.1, b.0.id, b.1) && PairAtMost(order, b.0.id, b.1, c.0.id, c.1) ==>
              PairAtMost(order, a.0.id, a.1, c.0.id, c.1)
  {
    OrderAt(order, a.0.id, b.0.id, c.0.id);
    OrderAt(order, c.0.id, a.0.id, b.0.id);
    OrderAt(order, b.0.id, c.0.id, a.0.id);
    OrderAt(order, a.1, b.1, c.1);
  }

  lemma OrderAt(order: Collation, a: string, b: string, c: string)
    requires IsOrder(order)
    ensures (order(a, b) || order(b, a)) && (order(a, b) && order(b, c) ==> order(a, c))
  {
  }

  lemma LeastPair(order: Collation, pairs: set<(RowKey, string)>) returns (least: (RowKey, string))
    requires IsOrder(order) && pairs != {}
    ensures least in pairs && forall p :: p in pairs ==> PairAtMost(order, least.0.id, least.1, p.0.id, p.1)
  {
    hide PairAtMost;
    var atMost := (a: (RowKey, string), b: (RowKey, string)) => PairAtMost(order, a.0.id, a.1, b.0.id, b.1);
    forall a, b, c
      ensures atMost(a, b) || atMost(b, a)
      ensures atMost(a, b) && atMost(b, c) ==> atMost(a, c)
    {
      PairOrder(order, a, b, c);
    }
    least := Least(atMost, pairs);
    assert forall p :: p in pairs ==> atMost(least, p);
  }

  method ListRows(order: Collation, s: Tables, table: string) returns (items: seq<SeedRow>)
    requires IsOrder(order)
    ensures ListsRows(order, s, table, items)
  {
    hide NoRepeats, IsOrder;
    items := [];
    NoItems<SeedRow>();
    var todo := set k | k in s.rows && k.table == table;
    while todo != {}
      invariant forall k :: k in todo ==> k.table == table && k in s.rows
      invariant NoRepeats(items)
      invariant forall i, j :: 0 <= i < j < |items| ==> order(items[i].id, items[j].id)
      invariant forall i, k :: 0 <= i < |items| && k in todo ==> order(items[i].id, k.id)
      invariant forall x :: x in items <==> IsSeedRow(s, table, x) && RowKey(table, x.id) !in todo
    {
      ghost var least := LeastKey(order, todo);
      var k :| k in todo && forall j :: j in todo ==> order(k.id, j.id);
      assert k == RowKey(table, k.id);
      var x := SeedRow(k.id, s.rows[k]);
      OneMoreItem(items, x);
      items := items + [x];
      todo := todo - {k};
    }
  }

  method StreamRows(order: Collation, s: Tables, reg: Registry, table: string, chunk: int) returns (out: seq<Message>)
    requires IsOrder(order)
    requires Lower(table) in reg && reg[Lower(table)].name == table
    ensures IsRowSection(order, s, table, ChunkSize(chunk), out)
    ensures forall m :: m in out ==> m.SeedRows? && m.table == table && FromSource(reg, s, m)
    ensures forall key :: key in s.rows && key.table == table ==> exists m :: m in out && CarriesRow(m, key)
    ensures out != [] && forall i :: 0 <= i < |out| ==> (out[i].done <==> i == |out| - 1)
  {
    hide Lower, Flatten, NoRepeats, InSome, ListsRows;
    var items := ListRows(order, s, table);
    var batches := InBatches(items, chunk);
    out := [];
    for i := 0 to |batches|
      invariant |out| == i && forall j :: 0 <= j < i ==> out[j] == SeedRows(table, batches[j], j == |batches| - 1)
    {
      out := out + [SeedRows(table, batches[i], i == |batches| - 1)];
    }
    assert out == seq(|batches|, i requires 0 <= i < |batches| =>
                    SeedRows(table, batches[i], i == |batches| - 1));
    RowSectionIsComplete(order, reg, s, table, items, batches, out);
  }

  lemma RowSectionIsComplete(order: Collation, reg: Registry, s: Tables, table: string, items: seq<SeedRow>,
                             batches: seq<seq<SeedRow>>, out: seq<Message>)
    requires Lower(table) in reg && reg[Lower(table)].name == table
    requires ListsRows(order, s, table, items) && forall x :: x in items <==> InSome(batches, x)
    requires |out| == |batches|
    requires forall j :: 0 <= j < |out| ==> out[j] == SeedRows(table, batches[j], j == |batches| - 1)
    ensures forall m :: m in out ==> m.SeedRows? && m.table == table && FromSource(reg, s, m)
    ensures forall key :: key in s.rows && key.table == table ==> exists m :: m in out && CarriesRow(m, key)
  {
    hide Lower, NoRepeats;
    forall m | m in out
      ensures m.SeedRows? && m.table == table && FromSource(reg, s, m)
    {
      var j :| 0 <= j < |out| && out[j] == m;
      forall i | 0 <= i < |m.rows|
        ensures IsSeedRow(s, table, m.rows[i])
      {
        assert InSome(batches, m.rows[i]) by { assert m.rows[i] in batches[j]; }
      }
    }
    forall key | key in s.rows && key.table == table
      ensures exists m :: m in out && CarriesRow(m, key)
    {
      var x := SeedRow(key.id, s.rows[key]);
      assert IsSeedRow(s, table, x);
      assert InSome(batches, x);
      var j :| 0 <= j < |batches| && x in batches[j];
      assert CarriesRow(out[j], key);
    }
  }

  method ListVersions(order: Collation, s: Tables, table: string) returns (items: seq<SeedVersion>)
    requires IsOrder(order)
    ensures ListsVersions(order, s, table, items)
  {
    hide NoRepeats, IsOrder, PairAtMost, Sorted, ComeLater;
    items := [];
    NoItems<SeedVersion>();
    var todo := set k, c | k in s.versions && c in s.versions[k] && k.table == table :: (k, c);
    assert Sorted(order, items) && ComeLater(order, items, todo) by { NothingSorted(order, todo); }
    while todo != {}
      invariant forall p: (RowKey, string) :: p in todo ==> p.0.table == table && p.0 in s.versions
      invariant forall p: (RowKey, string) :: p in todo ==> p.0 in s.versions && p.1 in s.versions[p.0]
      invariant NoRepeats(items)
      invariant Sorted(order, items) && ComeLater(order, items, todo)
      invariant forall x :: x in items <==> IsSeedVersion(s, table, x) && (RowKey(table, x.rowId), x.column) !in todo
    {
      ghost var least := LeastPair(order, todo);
      var p :| p in todo && forall q :: q in todo ==> PairAtMost(order, p.0.id, p.1, q.0.id, q.1);
      assert p.0 == RowKey(table, p.0.id);
      var x := SeedVersion(p.0.id, p.1, s.versions[p.0][p.1]);
      OneMoreItem(items, x);
      NextVersion(order, items, todo, p, x);
      items := items + [x];
      todo := todo - {p};
    }
  }

  method StreamVersions(order: Collation, s: Tables, reg: Registry, table: string, chunk: int)
    returns (out: seq<Message>)
    requires IsOrder(order)
    ensures IsVersionSection(order, s, table, ChunkSize(chunk), out)
    ensures forall m :: m in out ==> m.SeedVersions? && m.table == table && FromSource(reg, s, m)
    ensures forall key, c :: key in s.versions && key.table == table && c in s.versions[key] ==>
                               exists m :: m in out && CarriesVersion(m, key, c)
    ensures out != [] && forall i :: 0 <= i < |out| ==> (out[i].done <==> i == |out| - 1)
  {
    hide Lower, Flatten, NoRepeats, Sorted, InSome, ListsVersions;
    var items := ListVersions(order, s, table);
    var batches := InBatches(items, chunk);
    out := [];
    for i := 0 to |batches|
      invariant |out| == i && forall j :: 0 <= j < i ==> out[j] == SeedVersions(table, batches[j], j == |batches| - 1)
    {
      out := out + [SeedVersions(table, batches[i], i == |batches| - 1)];
    }
    assert out == seq(|batches|, i requires 0 <= i < |batches| =>
                    SeedVersions(table, batches[i], i == |batches| - 1));
    VersionSectionIsComplete(order, reg, s, table, items, batches, out);
  }

  lemma VersionSectionIsComplete(order: Collation, reg: Registry, s: Tables, table: string, items: seq<SeedVersion>,
                                 batches: seq<seq<SeedVersion>>, out: seq<Message>)
    requires ListsVersions(order, s, table, items) && forall x :: x in items <==> InSome(batches, x)
    requires |out| == |batches|
    requires forall j :: 0 <= j < |out| ==> out[j] == SeedVersions(table, batches[j], j == |batches| - 1)
    ensures forall m :: m in out ==> m.SeedVersions? && m.table == table && FromSource(reg, s, m)
    ensures forall key, c :: key in s.versions && key.table == table && c in s.versions[key] ==>
                               exists m :: m in out && CarriesVersion(m, key, c)
  {
    hide Lower, NoRepeats;
    forall m | m in out
      ensures m.SeedVersions? && m.table == table && FromSource(reg, s, m)
    {
      var j :| 0 <= j < |out| && out[j] == m;
      forall i | 0 <= i < |m.versions|
        ensures IsSeedVersion(s, table, m.versions[i])
      {
        assert InSome(batches, m.versions[i]) by { assert m.versions[i] in batches[j]; }
      }
    }
    forall key, c | key in s.versions && key.table == table && c in s.versions[key]
      ensures exists m :: m in out && CarriesVersion(m, key, c)
    {
      var x := SeedVersion(key.id, c, s.versions[key][c]);
      assert IsSeedVersion(s, table, x);
      assert InSome(batches, x);
      var j :| 0 <= j < |batches| && x in batches[j];
      assert CarriesVersion(out[j], key, c);
    }
  }

  method ListTombstones(order: Collation, s: Tables, table: string) returns (items: seq<SeedTombstone>)
    requires IsOrder(order)
    ensures ListsTombstones(order, s, table, items)
  {
    hide NoRepeats, IsOrder;
    items := [];
    NoItems<SeedTombstone>();
    var todo := set k | k in s.tombs && k.table == table;
    while todo != {}
      invariant forall k :: k in todo ==> k.table == table && k in s.tombs
      invariant NoRepeats(items)
      invariant forall i, j :: 0 <= i < j < |items| ==> order(items[i].rowId, items[j].rowId)
      invariant forall i, k :: 0 <= i < |items| && k in todo ==> order(items[i].rowId, k.id)
      invariant forall x :: x in items <==> IsSeedTombstone(s, table, x) && RowKey(table, x.rowId) !in todo
    {
      ghost var least := LeastKey(order, todo);
      var k :| k in todo && forall j :: j in todo ==> order(k.id, j.id);
      assert k == RowKey(table, k.id);
      var x := SeedTombstone(k.id, s.tombs[k]);
      OneMoreItem(items, x);
      items := items + [x];
      todo := todo - {k};
    }
  }

  method StreamTombstones(order: Collation, s: Tables, reg: Registry, table: string, chunk: int)
    returns (out: seq<Message>)
    requires IsOrder(order)
    ensures IsTombstoneSection(order, s, table, ChunkSize(chunk), out)
    ensures forall m :: m in out ==> m.SeedTombstones? && m.table == table && FromSource(reg, s, m)
    ensures forall key :: key in s.tombs && key.table == table ==> exists m :: m in out && CarriesTombstone(m, key)
    ensures out != [] && forall i :: 0 <= i < |out| ==> (out[i].done <==> i == |out| - 1)
  {
    hide Lower, Flatten, NoRepeats, InSome, ListsTombstones;
    var items := ListTombstones(order, s, table);
    var batches := InBatches(items, chunk);
    out := [];
    for i := 0 to |batches|
      invariant |out| == i && forall j :: 0 <= j < i ==> out[j] == SeedTombstones(table, batches[j], j == |batches| - 1)
    {
      out := out + [SeedTombstones(table, batches[i], i == |batches| - 1)];
    }
    assert out == seq(|batches|, i requires 0 <= i < |batches| =>
                    SeedTombstones(table, batches[i], i == |batches| - 1));
    TombstoneSectionIsComplete(order, reg, s, table, items, batches, out);
  }

  lemma TombstoneSectionIsComplete(order: Collation, reg: Registry, s: Tables, table: string, items: seq<SeedTombstone>,
                                   batches: seq<seq<SeedTombstone>>, out: seq<Message>)
    requires ListsTombstones(order, s, table, items) && forall x :: x in items <==> InSome(batches, x)
    requires |out| == |batches|
    requires forall j :: 0 <= j < |out| ==> out[j] == SeedTombstones(table, batches[j], j == |batches| - 1)
    ensures forall m :: m in out ==> m.SeedTombstones? && m.table == table && FromSource(reg, s, m)
    ensures forall key :: key in s.tombs && key.table == table ==> exists m :: m in out && CarriesTombstone(m, key)
  {
    hide Lower, NoRepeats;
    forall m | m in out
      ensures m.SeedTombstones? && m.table == table && FromSource(reg, s, m)
    {
      var j :| 0 <= j < |out| && out[j] == m;
      forall i | 0 <= i < |m.tombs|
        ensures IsSeedTombstone(s, table, m.tombs[i])
      {
        assert InSome(batches, m.tombs[i]) by { assert m.tombs[i] in batches[j]; }
      }
    }
    forall key | key in s.tombs && key.table == table
      ensures exists m :: m in out && CarriesTombstone(m, key)
    {
      var x := SeedTombstone(key.id, s.tombs[key]);
      assert IsSeedTombstone(s, table, x);
      assert InSome(batches, x);
      var j :| 0 <= j < |batches| && x in batches[j];
      assert CarriesTombstone(out[j], key);
    }
  }

  function Names(names: seq<string>): set<string> {
    set n | n in names
  }

  /** A complete stream of the snapshot tables. */
  ghost predicate IsStream(reg: Registry, s: Tables, req: Request, vector: Vector, schemaVersion: nat,
                           names: seq<string>, msgs: seq<Message>)
  {
    && |msgs| >= 2
    && msgs[0] == SeedStart(req.bootstrapId, schemaVersion, vector, names)
    && msgs[|msgs| - 1] == SeedEnd(req.bootstrapId)
    && IsBody(reg, s, Names(names), msgs[1..|msgs| - 1])
  }

  ghost predicate IsTableSection(order: Collation, s: Tables, table: string, size: nat, out: seq<Message>) {
    exists a, b, c :: IsRowSection(order, s, table, size, a) && IsVersionSection(order, s, table, size, b)
                      && IsTombstoneSection(order, s, table, size, c) && out == a + b + c
  }

  /** The tables one after the other. */
  ghost predicate InSections(order: Collation, s: Tables, names: seq<string>, size: nat, body: seq<Message>) {
    exists sections: seq<seq<Message>> ::
      && |sections| == |names| && body == Flatten(sections)
      && forall i :: 0 <= i < |names| ==> IsTableSection(order, s, names[i], size, sections[i])
  }

  lemma NoSections(order: Collation, reg: Registry, s: Tables, size: nat)
    ensures InSections(order, s, [], size, []) && IsBody(reg, s, Names([]), [])
  {
    assert Flatten<Message>([]) == [];
  }

  lemma OneMoreSection(order: Collation, s: Tables, names: seq<string>, size: nat, body: seq<Message>, name: string,
                       out: seq<Message>)
    requires InSections(order, s, names, size, body) && IsTableSection(order, s, name, size, out)
    ensures InSections(order, s, names + [name], size, body + out)
  {
    hide IsTableSection;
    var sections: seq<seq<Message>> :|
      && |sections| == |names| && body == Flatten(sections)
      && forall i :: 0 <= i < |names| ==> IsTableSection(order, s, names[i], size, sections[i]);
    FlattenSnoc(sections, out);
    var longer := sections + [out];
    assert forall i :: 0 <= i < |names| + 1 ==> IsTableSection(order, s, (names + [name])[i], size, longer[i]);
  }

  /** Rows, then versions, then tombstones of one table. */
  method StreamTable(order: Collation, s: Tables, reg: Registry, table: string, chunk: int) returns (out: seq<Message>)
    requires IsOrder(order)
    requires Lower(table) in reg && reg[Lower(table)].name == table
    ensures IsTableSection(order, s, table, ChunkSize(chunk), out)
    ensures IsBody(reg, s, {table}, out)
  {
    hide Lower, FromSource, CarriesRow, CarriesVersion, CarriesTombstone;
    hide IsRowSection, IsVersionSection, IsTombstoneSection;
    var a := StreamRows(order, s, reg, table, chunk);
    var b := StreamVersions(order, s, reg, table, chunk);
    var c := StreamTombstones(order, s, reg, table, chunk);
    out := a + b + c;
  }

  /** Every table in turn, for any chunk size. */
  method Stream(order: Collation, s: Tables, reg: Registry, req: Request, vector: Vector, schemaVersion: nat,
                names: seq<string>,
                chunk: int)
    returns (msgs: seq<Message>)
    requires IsOrder(order) && forall n :: n in names ==> Lower(n) in reg && reg[Lower(n)].name == n
    ensures IsStream(reg, s, req, vector, schemaVersion, names, msgs)
    ensures |msgs| >= 2 && msgs[0] == SeedStart(req.bootstrapId, schemaVersion, vector, names)
    ensures msgs[|msgs| - 1] == SeedEnd(req.bootstrapId)
    ensures InSections(order, s, names, ChunkSize(chunk), msgs[1..|msgs| - 1])
  {
    hide InSections, IsTableSection, IsBody, Lower;
    var body: seq<Message> := [];
    NoSections(order, reg, s, ChunkSize(chunk));
    for i := 0 to |names|
      invariant IsBody(reg, s, Names(names[..i]), body)
      invariant InSections(order, s, names[..i], ChunkSize(chunk), body)
    {
      var section := StreamTable(order, s, reg, names[i], chunk);
      BodyGrows(reg, s, Names(names[..i]), names[i], body, section);
      assert Names(names[..i]) + {names[i]} == Names(names[..i + 1]);
      OneMoreSection(order, s, names[..i], ChunkSize(chunk), body, names[i], section);
      assert names[..i] + [names[i]] == names[..i + 1];
      body := body + section;
    }
    assert names[..|names|] == names;
    msgs := [SeedStart(req.bootstrapId, schemaVersion, vector, names)] + body + [SeedEnd(req.bootstrapId)];
    assert msgs[1..|msgs| - 1] == body;
  }

  lemma BodyGrows(reg: Registry, s: Tables, names: set<string>, table: string, body: seq<Message>, more: seq<Message>)
    requires IsBody(reg, s, names, body)
    requires IsBody(reg, s, {table}, more)
    ensures IsBody(reg, s, names + {table}, body + more)
  {
    hide FromSource, CarriesRow, CarriesVersion, CarriesTombstone;
    forall key | key in s.rows && key.table in names + {table}
      ensures exists m :: m in body + more && CarriesRow(m, key)
    {
      var m :| (m in body || m in more) && CarriesRow(m, key);
      assert m in body + more;
    }
    forall key, c | key in s.versions && key.table in names + {table} && c in s.versions[key]
      ensures exists m :: m in body + more && CarriesVersion(m, key, c)
    {
      var m :| (m in body || m in more) && CarriesVersion(m, key, c);
      assert m in body + more;
    }
    forall key | key in s.tombs && key.table in names + {table}
      ensures exists m :: m in body + more && CarriesTombstone(m, key)
    {
      var m :| (m in body || m in more) && CarriesTombstone(m, key);
      assert m in body + more;
    }
  }
}
