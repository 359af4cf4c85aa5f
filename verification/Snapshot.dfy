/** A streamed snapshot is a faithful copy, whatever the chunk size. */
module Snapshot {
  import opened Changelog
  import opened Store
  import opened Resolver
  import opened Apply
  import opened Seed
  import opened SeedTarget

  /** The spelling under which the registry keeps the table. */
  predicate IsRegistered(reg: Registry, table: string) {
    Lower(table) in reg && reg[Lower(table)].name == table
  }

  /** Rows of registered tables have exactly the registered columns. */
  ghost predicate FullRows(reg: Registry, s: Tables) {
    forall key :: key in s.rows && IsRegistered(reg, key.table) ==> s.rows[key].Keys == SpecAt(reg, key).columns
  }

  /** What the target holds for the key, the source holds too. */
  ghost predicate Agrees(s: Tables, t: Tables, key: RowKey) {
    && (key in t.rows ==> key in s.rows && t.rows[key] == s.rows[key])
    && (forall c :: c in RowAt(t, key).vers ==> c in RowAt(s, key).vers
                                                && RowAt(t, key).vers[c] == RowAt(s, key).vers[c])
    && (key in t.tombs ==> key in s.tombs && t.tombs[key] == s.tombs[key])
  }

  ghost predicate AllAgree(s: Tables, t: Tables, names: set<string>) {
    forall key: RowKey :: key.table in names ==> Agrees(s, t, key)
  }

  /** Nothing is lost between two stages of a load, and tables outside `names`
      are left alone. */
  ghost predicate Grows(a: Tables, b: Tables, names: set<string>) {
    && (forall key :: key in a.rows ==> key in b.rows)
    && (forall key, c :: c in RowAt(a, key).vers ==> c in RowAt(b, key).vers)
    && (forall key :: key in a.tombs ==> key in b.tombs)
    && (forall key: RowKey :: key.table !in names ==> RowAt(a, key) == RowAt(b, key))
  }

  /** Everything the message carries has arrived. */
  ghost predicate Arrived(t: Tables, m: Message) {
    && (forall key :: CarriesRow(m, key) ==> key in t.rows)
    && (forall key, c :: CarriesVersion(m, key, c) ==> c in RowAt(t, key).vers)
    && (forall key :: CarriesTombstone(m, key) ==> key in t.tombs)
  }

  /** A change at one key of a streamed table. */
  lemma OneKeyChanges(s: Tables, a: Tables, b: Tables, key: RowKey, names: set<string>)
    requires AllAgree(s, a, names) && key.table in names && Agrees(s, b, key)
    requires forall k :: k != key ==> RowAt(b, k) == RowAt(a, k)
    requires key in a.rows ==> key in b.rows
    requires forall c :: c in RowAt(a, key).vers ==> c in RowAt(b, key).vers
    requires key in a.tombs ==> key in b.tombs
    ensures AllAgree(s, b, names) && Grows(a, b, names)
  {
    forall k: RowKey
      ensures k.table in names ==> Agrees(s, b, k)
      ensures (k in a.rows ==> k in b.rows) && (k in a.tombs ==> k in b.tombs)
    {
      assert k.table in names ==> Agrees(s, a, k);
      assert k != key ==> RowAt(b, k) == RowAt(a, k);
    }
    forall k, c | c in RowAt(a, k).vers
      ensures c in RowAt(b, k).vers
    {
      assert k != key ==> RowAt(b, k) == RowAt(a, k);
    }
  }

  lemma RowLoads(reg: Registry, s: Tables, t: Tables, table: string, r: SeedRow, names: set<string>)
    requires FullRows(reg, s) && IsRegistered(reg, table) && table in names && AllAgree(s, t, names)
    requires IsSeedRow(s, table, r)
    ensures r.values.Keys <= reg[Lower(table)].columns
    ensures var after := WithSeedRow(reg[Lower(table)], t, r);
            AllAgree(s, after, names) && Grows(t, after, names) && RowKey(table, r.id) in after.rows
  {
    hide Lower, Grows, AllAgree;
    var key := RowKey(table, r.id);
    assert Agrees(s, t, key) by { AgreesAt(s, t, names, key); }
    assert SpecAt(reg, key) == reg[Lower(table)];
    assert WithSeedRow(reg[Lower(table)], t, r).rows[key] == s.rows[key];
    OneKeyChanges(s, t, WithSeedRow(reg[Lower(table)], t, r), key, names);
  }

  lemma AgreesAt(s: Tables, t: Tables, names: set<string>, key: RowKey)
    requires AllAgree(s, t, names) && key.table in names
    ensures Agrees(s, t, key)
  {
  }

  lemma {:induction false} RowsLoad(reg: Registry, s: Tables, t: Tables, table: string, rows: seq<SeedRow>,
                                    names: set<string>)
    requires FullRows(reg, s) && IsRegistered(reg, table) && table in names && AllAgree(s, t, names)
    requires forall i :: 0 <= i < |rows| ==> IsSeedRow(s, table, rows[i])
    ensures LoadRows(reg[Lower(table)], t, rows).Some?
    ensures var after := LoadRows(reg[Lower(table)], t, rows).value;
            && AllAgree(s, after, names) && Grows(t, after, names)
            && forall i :: 0 <= i < |rows| ==> RowKey(table, rows[i].id) in after.rows
  {
    hide Lower, AllAgree, FullRows, IsSeedRow, WithSeedRow, RowAt;
    if rows != [] {
      var init, r := rows[..|rows| - 1], rows[|rows| - 1];
      RowsLoad(reg, s, t, table, init, names);
      var before := LoadRows(reg[Lower(table)], t, init).value;
      RowLoads(reg, s, before, table, r, names);
      forall i | 0 <= i < |rows|
        ensures RowKey(table, rows[i].id) in WithSeedRow(reg[Lower(table)], before, r).rows
      {
        assert i < |init| ==> rows[i] == init[i];
      }
    }
  }

  lemma VersionLoads(s: Tables, t: Tables, table: string, v: SeedVersion, names: set<string>)
    requires table in names && AllAgree(s, t, names) && IsSeedVersion(s, table, v)
    ensures var after := WithSeedVersion(t, table, v);
            AllAgree(s, after, names) && Grows(t, after, names) && v.column in RowAt(after, RowKey(table, v.rowId)).vers
  {
    hide Grows, AllAgree;
    AgreesAt(s, t, names, RowKey(table, v.rowId));
    OneKeyChanges(s, t, WithSeedVersion(t, table, v), RowKey(table, v.rowId), names);
  }

  lemma {:induction false} VersionsLoad(s: Tables, t: Tables, table: string, vs: seq<SeedVersion>, names: set<string>)
    requires table in names && AllAgree(s, t, names)
    requires forall i :: 0 <= i < |vs| ==> IsSeedVersion(s, table, vs[i])
    ensures var after := LoadVersions(t, table, vs);
            && AllAgree(s, after, names) && Grows(t, after, names)
            && forall i :: 0 <= i < |vs| ==> vs[i].column in RowAt(after, RowKey(table, vs[i].rowId)).vers
  {
    hide AllAgree, IsSeedVersion, WithSeedVersion, RowAt;
    if vs != [] {
      var init, v := vs[..|vs| - 1], vs[|vs| - 1];
      VersionsLoad(s, t, table, init, names);
      var before := LoadVersions(t, table, init);
      VersionLoads(s, before, table, v, names);
      forall i | 0 <= i < |vs|
        ensures vs[i].column in RowAt(WithSeedVersion(before, table, v), RowKey(table, vs[i].rowId)).vers
      {
        assert i < |init| ==> vs[i] == init[i];
      }
    }
  }

  lemma TombstoneLoads(s: Tables, t: Tables, table: string, v: SeedTombstone, names: set<string>)
    requires table in names && AllAgree(s, t, names) && IsSeedTombstone(s, table, v)
    ensures var after := WithSeedTombstone(t, table, v);
            AllAgree(s, after, names) && Grows(t, after, names) && RowKey(table, v.rowId) in after.tombs
  {
    hide Grows, AllAgree;
    AgreesAt(s, t, names, RowKey(table, v.rowId));
    OneKeyChanges(s, t, WithSeedTombstone(t, table, v), RowKey(table, v.rowId), names);
  }

  lemma {:induction false} TombstonesLoad(s: Tables, t: Tables, table: string, vs: seq<SeedTombstone>,
                                          names: set<string>)
    requires table in names && AllAgree(s, t, names)
    requires forall i :: 0 <= i < |vs| ==> IsSeedTombstone(s, table, vs[i])
    ensures var after := LoadTombstones(t, table, vs);
            && AllAgree(s, after, names) && Grows(t, after, names)
            && forall i :: 0 <= i < |vs| ==> RowKey(table, vs[i].rowId) in after.tombs
  {
    hide AllAgree, IsSeedTombstone, WithSeedTombstone, RowAt;
    if vs != [] {
      var init, v := vs[..|vs| - 1], vs[|vs| - 1];
      TombstonesLoad(s, t, table, init, names);
      var before := LoadTombstones(t, table, init);
      TombstoneLoads(s, before, table, v, names);
      forall i | 0 <= i < |vs|
        ensures RowKey(table, vs[i].rowId) in WithSeedTombstone(before, table, v).tombs
      {
        assert i < |init| ==> vs[i] == init[i];
      }
    }
  }

  lemma MessageLoads(reg: Registry, s: Tables, t: Tables, m: Message, names: set<string>)
    requires FullRows(reg, s) && FromSource(reg, s, m) && m.table in names && AllAgree(s, t, names)
    ensures Load(reg, t, m).Some?
    ensures var after := Load(reg, t, m).value;
            AllAgree(s, after, names) && Grows(t, after, names) && Arrived(after, m)
  {
    hide Lower, LoadRows, LoadVersions, LoadTombstones, FullRows, AllAgree, Grows;
    match m
    case SeedRows(table, rows, _) =>
      RowsLoad(reg, s, t, table, rows, names);
      NoRows(reg[Lower(table)], t);
    case SeedVersions(table, versions, _) => VersionsLoad(s, t, table, versions, names);
    case SeedTombstones(table, tombs, _) => TombstonesLoad(s, t, table, tombs, names);
  }

  lemma NoRows(spec: TableSpec, t: Tables)
    ensures LoadRows(spec, t, []) == Some(t)
  {
  }

  lemma ArrivedStays(a: Tables, b: Tables, names: set<string>, m: Message)
    requires Arrived(a, m) && Grows(a, b, names)
    ensures Arrived(b, m)
  {
    hide CarriesRow, CarriesVersion, CarriesTombstone;
  }

  lemma {:induction false} BodyLoads(reg: Registry, s: Tables, t: Tables, body: seq<Message>, names: set<string>)
    requires FullRows(reg, s) && AllAgree(s, t, names)
    requires forall m :: m in body ==> FromSource(reg, s, m) && m.table in names
    ensures LoadAll(reg, t, body).Some?
    ensures var after := LoadAll(reg, t, body).value;
            && AllAgree(s, after, names) && Grows(t, after, names)
            && forall m :: m in body ==> Arrived(after, m)
  {
    hide Load, FromSource, Arrived, FullRows, AllAgree;
    if body != [] {
      var init, m := body[..|body| - 1], body[|body| - 1];
      BodyLoads(reg, s, t, init, names);
      var before := LoadAll(reg, t, init).value;
      MessageLoads(reg, s, before, m, names);
      var after := Load(reg, before, m).value;
      forall x | x in body
        ensures Arrived(after, x)
      {
        if x in init {
          ArrivedStays(before, after, names, x);
        }
      }
    }
  }

  lemma EmptyAgrees(reg: Registry, s: Tables, db: Db, names: set<string>)
    requires IsEmpty(reg, db) && forall n :: n in names ==> IsRegistered(reg, n)
    ensures AllAgree(s, db.tables, names)
  {
    forall key: RowKey | key.table in names
      ensures Agrees(s, db.tables, key)
    {
    }
  }

  /** Loading the body of a snapshot into an empty database always succeeds and
      reproduces each streamed row, its versions and its tombstone; the other
      tables keep what they had. */
  lemma SnapshotIsFaithful(reg: Registry, s: Tables, names: set<string>, body: seq<Message>, db: Db)
    requires FullRows(reg, s) && IsBody(reg, s, names, body)
    requires IsEmpty(reg, db) && forall n :: n in names ==> IsRegistered(reg, n)
    ensures LoadAll(reg, db.tables, body).Some?
    ensures var after := LoadAll(reg, db.tables, body).value;
            && (forall key: RowKey :: key.table in names ==> RowAt(after, key) == RowAt(s, key))
            && (forall key: RowKey :: key.table !in names ==> RowAt(after, key) == RowAt(db.tables, key))
  {
    hide FullRows, FromSource, IsEmpty, AllAgree, LoadAll, IsRegistered, Arrived, CarriesRow, CarriesVersion,
      CarriesTombstone;
    EmptyAgrees(reg, s, db, names);
    BodyLoads(reg, s, db.tables, body, names);
    var after := LoadAll(reg, db.tables, body).value;
    forall key: RowKey | key.table in names
      ensures RowAt(after, key) == RowAt(s, key)
    {
      RowArrived(s, after, names, body, key);
    }
  }

  lemma RowArrived(s: Tables, t: Tables, names: set<string>, body: seq<Message>, key: RowKey)
    requires AllAgree(s, t, names) && Covers(s, names, body) && key.table in names
    requires forall m :: m in body ==> Arrived(t, m)
    ensures RowAt(t, key) == RowAt(s, key)
  {
    hide CarriesRow, CarriesVersion, CarriesTombstone;
    assert Agrees(s, t, key);
    if key in s.rows {
      var m :| m in body && CarriesRow(m, key);
    }
    if key in s.tombs {
      var m :| m in body && CarriesTombstone(m, key);
    }
    forall c | c in RowAt(s, key).vers
      ensures c in RowAt(t, key).vers
    {
      var m :| m in body && CarriesVersion(m, key, c);
    }
    assert RowAt(t, key).vers == RowAt(s, key).vers;
  }
}
