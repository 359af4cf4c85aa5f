/** Loading a snapshot stream into an empty database:
    internal/seed/target.go, without the integrity digest. */
module SeedTarget {
  import opened Hlc
  import opened Changelog
  import opened Store
  import opened Resolver
  import opened Apply
  import opened Seed

  // ----- Loading, message by message -----

  /** INSERT ... ON DUPLICATE KEY UPDATE; an unknown column fails the chunk. */
  function LoadRows(spec: TableSpec, t: Tables, rows: seq<SeedRow>): Option<Tables> {
    if rows == [] then Some(t)
    else
      var r := rows[|rows| - 1];
      var before := LoadRows(spec, t, rows[..|rows| - 1]);
      if before.None? || !(r.values.Keys <= spec.columns) then None
      else Some(WithSeedRow(spec, before.value, r))
  }

  function WithSeedRow(spec: TableSpec, t: Tables, r: SeedRow): Tables {
    var key := RowKey(spec.name, r.id);
    t.(rows := t.rows[key := (if key in t.rows then t.rows[key] else Blank(spec)) + r.values])
  }

  function LoadVersions(t: Tables, table: string, vs: seq<SeedVersion>): Tables {
    if vs == [] then t
    else
      WithSeedVersion(LoadVersions(t, table, vs[..|vs| - 1]), table, vs[|vs| - 1])
  }

  function WithSeedVersion(t: Tables, table: string, v: SeedVersion): Tables {
    var key := RowKey(table, v.rowId);
    t.(versions := t.versions[key := RowAt(t, key).vers[v.column := v.version]])
  }

  function LoadTombstones(t: Tables, table: string, vs: seq<SeedTombstone>): Tables {
    if vs == [] then t
    else
      WithSeedTombstone(LoadTombstones(t, table, vs[..|vs| - 1]), table, vs[|vs| - 1])
  }

  function WithSeedTombstone(t: Tables, table: string, v: SeedTombstone): Tables {
    t.(tombs := t.tombs[RowKey(table, v.rowId) := v.version])
  }

  /** One body message; None when the target refuses it. */
  function Load(reg: Registry, t: Tables, m: Message): Option<Tables> {
    match m
    case SeedRows(table, rows, _) =>
      if rows == [] then Some(t)
      else if Lower(table) !in reg then None
      else LoadRows(reg[Lower(table)], t, rows)
    case SeedVersions(table, versions, _) => Some(LoadVersions(t, table, versions))
    case SeedTombstones(table, tombs, _) => Some(LoadTombstones(t, table, tombs))
    case SeedStart(_, _, _, _) => None
    case SeedEnd(_) => None
  }

  function LoadAll(reg: Registry, t: Tables, body: seq<Message>): Option<Tables> {
    if body == [] then Some(t)
    else
      var before := LoadAll(reg, t, body[..|body| - 1]);
      if before.None? then None else Load(reg, before.value, body[|body| - 1])
  }

  // ----- What loading does -----

  /** A seed row overwrites the columns it carries; in a row that was not there
      the others show their default. */
  lemma SeedRowIs(spec: TableSpec, t: Tables, r: SeedRow)
    ensures var key, after := RowKey(spec.name, r.id), WithSeedRow(spec, t, r);
            && after.versions == t.versions && after.tombs == t.tombs && after.rows.Keys == t.rows.Keys + {key}
            && (forall other :: other in t.rows && other != key ==> after.rows[other] == t.rows[other])
            && (forall c :: c in r.values ==> c in after.rows[key] && after.rows[key][c] == r.values[c])
            && (forall c :: c !in r.values ==>
                              if key in t.rows
                              then (c in after.rows[key] <==> c in t.rows[key])
                                   && (c in t.rows[key] ==> after.rows[key][c] == t.rows[key][c])
                              else (c in after.rows[key] <==> c in spec.columns)
                                   && (c in spec.columns ==>
                                         after.rows[key][c] == if c in spec.defaults then spec.defaults[c] else Null))
  {
  }

  /** A version or a tombstone of the seed replaces the stored one and touches
      nothing else. */
  lemma SeedVersionIs(t: Tables, table: string, v: SeedVersion)
    ensures var key, after := RowKey(table, v.rowId), WithSeedVersion(t, table, v);
            && after.rows == t.rows && after.tombs == t.tombs && after.versions.Keys == t.versions.Keys + {key}
            && (forall other :: other in t.versions && other != key ==> after.versions[other] == t.versions[other])
            && v.column in after.versions[key] && after.versions[key][v.column] == v.version
            && (forall c :: c != v.column ==>
                              (c in after.versions[key] <==> key in t.versions && c in t.versions[key])
                              && (c in after.versions[key] ==> after.versions[key][c] == t.versions[key][c]))
  {
  }

  lemma SeedTombstoneIs(t: Tables, table: string, v: SeedTombstone)
    ensures WithSeedTombstone(t, table, v) == t.(tombs := t.tombs[RowKey(table, v.rowId) := v.version])
  {
  }

  /** A chunk of rows is refused exactly when it has rows and its table is not
      registered, or one of them has a column that is not. */
  lemma RowsLoadIff(reg: Registry, t: Tables, table: string, rows: seq<SeedRow>, done: bool)
    ensures Load(reg, t, SeedRows(table, rows, done)).Some? <==>
            || rows == []
            || (Lower(table) in reg
                && forall r, c :: r in rows && c in r.values ==> c in reg[Lower(table)].columns)
  {
    if rows != [] && Lower(table) in reg {
      AllLoadIff(reg[Lower(table)], t, rows);
      assert (forall r :: r in rows ==> r.values.Keys <= reg[Lower(table)].columns) <==>
             (forall r, c :: r in rows && c in r.values ==> c in reg[Lower(table)].columns);
    }
  }

  lemma {:induction false} AllLoadIff(spec: TableSpec, t: Tables, rows: seq<SeedRow>)
    ensures LoadRows(spec, t, rows).Some? <==> forall r :: r in rows ==> r.values.Keys <= spec.columns
  {
    hide WithSeedRow;
    if rows != [] {
      var init, last := rows[..|rows| - 1], rows[|rows| - 1];
      AllLoadIff(spec, t, init);
      assert rows == init + [last];
    }
  }

  /** The stamps a message carries. */
  function Stamps(m: Message): set<HLC> {
    match m
    case SeedVersions(_, versions, _) => set v | v in versions :: v.version.hlc
    case SeedTombstones(_, tombs, _) => set v | v in tombs :: v.version.hlc
    case SeedRows(_, _, _) => {}
    case SeedStart(_, _, _, _) => {}
    case SeedEnd(_) => {}
  }

  function AllStamps(body: seq<Message>): set<HLC> {
    set m, h | m in body && h in Stamps(m) :: h
  }

  /** The latest of the stamps, or the zero clock. */
  ghost predicate IsLatest(h: HLC, stamps: set<HLC>) {
    && (h == HLC(0, 0) || h in stamps)
    && forall s :: s in stamps ==> !Before(h, s)
  }

  /** The times of the versions and tombstones in the message. */
  lemma StampsAre(m: Message, h: HLC)
    ensures h in Stamps(m) <==>
            || (m.SeedVersions? && exists v :: v in m.versions && v.version.hlc == h)
            || (m.SeedTombstones? && exists v :: v in m.tombs && v.version.hlc == h)
  {
  }

  // ----- Fetch -----

  predicate IsEmpty(reg: Registry, db: Db) {
    && (forall key :: key in db.tables.rows ==> !(Lower(key.table) in reg && reg[Lower(key.table)].name == key.table))
    && (forall o :: o in db.log ==> db.log[o] == map[])
    && (forall key :: key in db.tables.versions ==> db.tables.versions[key] == map[])
    && db.tables.tombs == map[]
  }

  predicate IsTable(reg: Registry, t: string, name: string)
    requires t in reg
  {
    t == Lower(name) && reg[t].name == name
  }

  predicate FitsStart(reg: Registry, m: Message, req: Request, schemaVersion: nat) {
    && m.SeedStart? && m.schemaVersion == schemaVersion && m.bootstrapId == req.bootstrapId
    && forall n :: n in m.tables ==> Lower(n) in reg
  }

  predicate IsBodyMessage(m: Message) {
    m.SeedRows? || m.SeedVersions? || m.SeedTombstones?
  }

  /** The stream is a fitting start, then messages that all load, then an end
      at index n; later frames are never read. */
  ghost predicate EndsAt(reg: Registry, t: Tables, msgs: seq<Message>, req: Request, schemaVersion: nat, n: nat) {
    && 1 <= n < |msgs| && FitsStart(reg, msgs[0], req, schemaVersion) && msgs[n].SeedEnd?
    && (forall i :: 1 <= i < n ==> IsBodyMessage(msgs[i]))
    && LoadAll(reg, t, msgs[1..n]).Some?
  }

  /** Loaded tables, cursors raised to the seed vector, clock restored past all
      seeded writes and saved. */
  ghost predicate Seeded(reg: Registry, before: Db, after: Db, msgs: seq<Message>, n: nat, clockBefore: HLC, clock: HLC)
    requires 1 <= n < |msgs| && msgs[0].SeedStart?
  {
    exists latest ::
      && IsLatest(latest, AllStamps(msgs[1..n]))
      && clock == Max(clockBefore, latest)
      && LoadAll(reg, before.tables, msgs[1..n]).Some?
      && after == WithProgressMany(before, before.local.self, msgs[0].vector).(
                  tables := LoadAll(reg, before.tables, msgs[1..n]).value,
                  local := before.local.(hlc := SavedHlc(before.local.hlc, clock)))
  }

  class Target {
    const db: Database
    const clock: Clock
    const registry: Registry
    const schemaVersion: nat

    constructor (db: Database, clock: Clock, registry: Registry, schemaVersion: nat)
      ensures this.db == db && this.clock == clock && this.registry == registry && this.schemaVersion == schemaVersion
    {
      this.db, this.clock, this.registry, this.schemaVersion := db, clock, registry, schemaVersion;
    }

    /** Every registered table, the log, versions and tombstones are empty. */
    method RequireEmpty() returns (empty: bool)
      ensures empty <==> IsEmpty(registry, db.View())
      ensures empty <==>
              && (forall key :: key in db.tables.rows ==> !exists t :: t in registry && IsTable(registry, t, key.table))
              && (forall o :: o in db.log ==> db.log[o] == map[])
              && (forall key, c :: key in db.tables.versions ==> c !in db.tables.versions[key])
              && (forall key :: key !in db.tables.tombs)
    {
      var names := registry.Keys;
      while names != {}
        invariant names <= registry.Keys
        invariant forall key :: key in db.tables.rows && Lower(key.table) in registry && Lower(key.table) !in names ==>
                                  registry[Lower(key.table)].name != key.table
      {
        var t :| t in names;
        if exists key :: key in db.tables.rows && key.table == registry[t].name && Lower(key.table) == t {
          return false;
        }
        names := names - {t};
      }
      if exists o :: o in db.log && db.log[o] != map[] {
        return false;
      }
      if exists key :: key in db.tables.versions && db.tables.versions[key] != map[] {
        return false;
      }
      return db.tables.tombs == map[];
    }

    /** applyRows: one transaction per chunk. */
    method ApplyRows(table: string, rows: seq<SeedRow>) returns (ok: bool)
      modifies db`tables
      ensures var loaded := Load(registry, old(db.tables), SeedRows(table, rows, false));
              && (ok <==> loaded.Some?)
              && db.tables == if loaded.Some? then loaded.value else old(db.tables)
    {
      hide Lower;
      if |rows| == 0 {
        return true;
      }
      if Lower(table) !in registry {
        return false;
      }
      var spec := registry[Lower(table)];
      var saved := db.tables;
      for i := 0 to |rows|
        invariant LoadRows(spec, saved, rows[..i]) == Some(db.tables)
      {
        assert rows[..i + 1][..i] == rows[..i] && rows[..i + 1][i] == rows[i];
        if !(rows[i].values.Keys <= spec.columns) {
          RowsRefused(spec, saved, rows, i + 1);
          db.tables := saved;
          return false;
        }
        db.tables := WithSeedRow(spec, db.tables, rows[i]);
      }
      assert rows[..|rows|] == rows;
      return true;
    }

    method ApplyVersions(table: string, versions: seq<SeedVersion>, latest: HLC) returns (h: HLC)
      modifies db`tables
      ensures db.tables == LoadVersions(old(db.tables), table, versions)
      ensures h in {latest} + Stamps(SeedVersions(table, versions, false)) && !Before(h, latest)
      ensures forall s :: s in Stamps(SeedVersions(table, versions, false)) ==> !Before(h, s)
    {
      hide WithSeedVersion;
      h := latest;
      for i := 0 to |versions|
        invariant db.tables == LoadVersions(old(db.tables), table, versions[..i])
        invariant h in {latest} + (set v | v in versions :: v.version.hlc) && !Before(h, latest)
        invariant forall j :: 0 <= j < i ==> !Before(h, versions[j].version.hlc)
      {
        var v := versions[i];
        assert versions[..i + 1][..i] == versions[..i] && versions[..i + 1][i] == v;
        assert v in versions;
        if Compare(v.version.hlc, h) > 0 {
          h := v.version.hlc;
        }
        db.tables := WithSeedVersion(db.tables, table, v);
      }
      assert versions[..|versions|] == versions;
    }

    method ApplyTombstones(table: string, tombs: seq<SeedTombstone>, latest: HLC) returns (h: HLC)
      modifies db`tables
      ensures db.tables == LoadTombstones(old(db.tables), table, tombs)
      ensures h in {latest} + Stamps(SeedTombstones(table, tombs, false)) && !Before(h, latest)
      ensures forall s :: s in Stamps(SeedTombstones(table, tombs, false)) ==> !Before(h, s)
    {
      hide WithSeedTombstone;
      h := latest;
      for i := 0 to |tombs|
        invariant db.tables == LoadTombstones(old(db.tables), table, tombs[..i])
        invariant h in {latest} + (set v | v in tombs :: v.version.hlc) && !Before(h, latest)
        invariant forall j :: 0 <= j < i ==> !Before(h, tombs[j].version.hlc)
      {
        var v := tombs[i];
        assert tombs[..i + 1][..i] == tombs[..i] && tombs[..i + 1][i] == v;
        assert v in tombs;
        if Compare(v.version.hlc, h) > 0 {
          h := v.version.hlc;
        }
        db.tables := WithSeedTombstone(db.tables, table, v);
      }
      assert tombs[..|tombs|] == tombs;
    }

    /** One body message; a refused one ends the session with chunks already
        committed left in place. */
    method ApplyMessage(m: Message, latest: HLC, ghost stamps: set<HLC>) returns (ok: bool, h: HLC)
      requires IsBodyMessage(m) && IsLatest(latest, stamps)
      modifies db`tables
      ensures var loaded := Load(registry, old(db.tables), m);
              && (ok <==> loaded.Some?)
              && db.tables == if loaded.Some? then loaded.value else old(db.tables)
      ensures ok ==> IsLatest(h, stamps + Stamps(m))
    {
      hide LoadRows, LoadVersions, LoadTombstones, Lower;
      ok, h := true, latest;
      match m
      case SeedRows(table, rows, _) => ok := ApplyRows(table, rows);
      case SeedVersions(table, versions, _) => h := ApplyVersions(table, versions, latest);
      case SeedTombstones(table, tombs, _) => h := ApplyTombstones(table, tombs, latest);
    }

    /** Reads the stream frame by frame; running out of frames is a lost
        connection. */
    method Fetch(msgs: seq<Message>, req: Request) returns (r: Result<Vector>)
      modifies db`tables, db`progress, db`local, clock
      ensures !IsEmpty(registry, old(db.View())) ==>
                r == Err(NotEmpty) && db.View() == old(db.View()) && clock.Load() == old(clock.Load())
      ensures IsEmpty(registry, old(db.View())) ==>
                (r.Ok? <==> exists n: nat :: EndsAt(registry, old(db.tables), msgs, req, schemaVersion, n))
      ensures r.Ok? ==> exists n: nat ::
                  && EndsAt(registry, old(db.tables), msgs, req, schemaVersion, n) && r.value == msgs[0].vector
                  && Seeded(registry, old(db.View()), db.View(), msgs, n, old(clock.Load()), clock.Load())
      ensures r.Err? ==> db.View() == old(db.View()).(tables := db.tables) && clock.Load() == old(clock.Load())
      ensures r.Ok? ==> |msgs| >= 2 && msgs[0].SeedStart? && msgs[0].schemaVersion == schemaVersion
                        && msgs[0].bootstrapId == req.bootstrapId && r.value == msgs[0].vector
                        && forall n :: n in msgs[0].tables ==> Lower(n) in registry
    {
      hide IsEmpty, Lower, Load, Stamps;
      var empty := RequireEmpty();
      if !empty {
        return Err(NotEmpty);
      }
      if |msgs| == 0 {
        return Err(Disconnected);
      }
      var start := msgs[0];
      if !FitsStart(registry, start, req, schemaVersion) {
        return Err(PeerRejected);
      }
      var latest := HLC(0, 0);
      var i := 1;
      NoStamps();
      while i < |msgs|
        invariant 1 <= i <= |msgs|
        invariant forall j :: 1 <= j < i ==> IsBodyMessage(msgs[j])
        invariant LoadAll(registry, old(db.tables), msgs[1..i]) == Some(db.tables)
        invariant IsLatest(latest, AllStamps(msgs[1..i]))
        invariant db.View() == old(db.View()).(tables := db.tables) && clock.Load() == old(clock.Load())
      {
        var m := msgs[i];
        if m.SeedEnd? {
          assert EndsAt(registry, old(db.tables), msgs, req, schemaVersion, i);
          FinishSeed(start.vector, latest, old(db.View()), msgs, i);
          return Ok(start.vector);
        }
        if !IsBodyMessage(m) {
          return Err(UnexpectedMessage);
        }
        OneMoreMessage(registry, old(db.tables), msgs, i);
        var ok, h := ApplyMessage(m, latest, AllStamps(msgs[1..i]));
        if !ok {
          NeverEnds(registry, old(db.tables), msgs, req, schemaVersion, i);
          return Err(UnexpectedMessage);
        }
        latest, i := h, i + 1;
      }
      return Err(Disconnected);
    }

    method FinishSeed(vector: Vector, latest: HLC, ghost begun: Db, ghost msgs: seq<Message>, ghost n: nat)
      requires 1 <= n < |msgs| && msgs[0].SeedStart? && vector == msgs[0].vector
      requires LoadAll(registry, begun.tables, msgs[1..n]) == Some(db.tables)
      requires IsLatest(latest, AllStamps(msgs[1..n]))
      requires db.View() == begun.(tables := db.tables)
      modifies db`progress, db`local, clock
      ensures Seeded(registry, begun, db.View(), msgs, n, old(clock.Load()), clock.Load())
    {
      hide LoadAll, IsLatest;
      db.SetProgressMany(db.local.self, vector);
      clock.Restore(latest);
      db.SaveHLC(clock.Load());
    }
  }

  /** A seeded database: cursors at the greater of the old and the seed's, the
      clock in memory at the latest of the old one and every seeded stamp, the
      stored one as SaveHLC leaves it, and nothing else changed but the tables. */
  lemma SeededIs(reg: Registry, before: Db, after: Db, msgs: seq<Message>, n: nat, c0: HLC, c1: HLC)
    requires 1 <= n < |msgs| && msgs[0].SeedStart? && Seeded(reg, before, after, msgs, n, c0, c1)
    ensures after == before.(tables := after.tables, progress := after.progress, local := after.local)
    ensures LoadAll(reg, before.tables, msgs[1..n]) == Some(after.tables)
    ensures forall r, o :: r != before.local.self || o !in msgs[0].vector ==>
                             EntryIn(after.progress, r, o) == EntryIn(before.progress, r, o)
    ensures forall o :: o in msgs[0].vector ==>
                          var stored := Get(ProgressOf(before, before.local.self), o);
                          EntryIn(after.progress, before.local.self, o)
                          == Some(if stored > msgs[0].vector[o] then stored else msgs[0].vector[o])
    ensures after.local.self == before.local.self && after.local.currentSeq == before.local.currentSeq
    ensures !Before(c1, c0) && forall h :: h in AllStamps(msgs[1..n]) ==> !Before(c1, h)
    ensures c1 == c0 || c1 in AllStamps(msgs[1..n]) || c1 == HLC(0, 0)
    ensures after.local.hlc ==
            if c1.physical > before.local.hlc.physical then HLC(c1.physical, 0)
            else if c1.physical < before.local.hlc.physical then before.local.hlc
            else HLC(c1.physical, if c1.logical > before.local.hlc.logical then c1.logical
                     else before.local.hlc.logical)
  {
    hide LoadAll, AllStamps;
  }

  lemma NoStamps()
    ensures IsLatest(HLC(0, 0), AllStamps([]))
  {
  }

  lemma {:induction false} RowsRefused(spec: TableSpec, t: Tables, rows: seq<SeedRow>, n: nat)
    requires n <= |rows| && LoadRows(spec, t, rows[..n]).None?
    ensures LoadRows(spec, t, rows).None?
    decreases |rows|
  {
    if n < |rows| {
      assert rows[..|rows| - 1][..n] == rows[..n];
      RowsRefused(spec, t, rows[..|rows| - 1], n);
    } else {
      assert rows[..n] == rows;
    }
  }

  lemma OneMoreMessage(reg: Registry, t: Tables, msgs: seq<Message>, i: nat)
    requires 1 <= i < |msgs|
    ensures AllStamps(msgs[1..i + 1]) == AllStamps(msgs[1..i]) + Stamps(msgs[i])
    ensures LoadAll(reg, t, msgs[1..i + 1]) ==
            (var before := LoadAll(reg, t, msgs[1..i]); if before.None? then None else Load(reg, before.value, msgs[i]))
  {
    hide Stamps, Load;
    assert msgs[1..i + 1][..i - 1] == msgs[1..i] && msgs[1..i + 1][i - 1] == msgs[i];
    assert msgs[1..i + 1] == msgs[1..i] + [msgs[i]];
    forall h
      ensures h in AllStamps(msgs[1..i + 1]) <==> h in AllStamps(msgs[1..i]) || h in Stamps(msgs[i])
    {
      assert forall m :: m in msgs[1..i + 1] <==> m in msgs[1..i] || m == msgs[i];
    }
  }

  lemma {:induction false} PrefixRefused(reg: Registry, t: Tables, body: seq<Message>, n: nat)
    requires n <= |body| && LoadAll(reg, t, body[..n]).None?
    ensures LoadAll(reg, t, body).None?
    decreases |body|
  {
    hide Load;
    if n < |body| {
      assert body[..|body| - 1][..n] == body[..n];
      PrefixRefused(reg, t, body[..|body| - 1], n);
    } else {
      assert body[..n] == body;
    }
  }

  /** A refused message, or the absence of an end, is final. */
  lemma NeverEnds(reg: Registry, t: Tables, msgs: seq<Message>, req: Request, schemaVersion: nat, i: nat)
    requires 1 <= i < |msgs| && (forall j :: 1 <= j <= i ==> IsBodyMessage(msgs[j]))
    requires LoadAll(reg, t, msgs[1..i + 1]).None?
    ensures forall n: nat :: !EndsAt(reg, t, msgs, req, schemaVersion, n)
  {
    hide Load, FitsStart;
    forall n: nat
      ensures !EndsAt(reg, t, msgs, req, schemaVersion, n)
    {
      if i < n < |msgs| {
        assert msgs[1..n][..i] == msgs[1..i + 1];
        PrefixRefused(reg, t, msgs[1..n], i);
      }
    }
  }
}
