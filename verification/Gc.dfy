/** Watermarks and bounded collection: internal/gc/gc.go with DeleteThrough and
    the bootstrap pins of internal/store. */
module Gc {
  import opened Changelog
  import opened Store

  const DEFAULT_LIMIT: nat := 1000

  // ----- What the watermark is -----

  predicate IsActive(nodes: map<string, NodeRow>, r: Origin) {
    r.nodeId in nodes && nodes[r.nodeId].incarnationId == r.incarnationId && nodes[r.nodeId].status == ACTIVE
  }

  /** ACTIVE receivers that have a progress row at all. */
  function Receivers(db: Db): set<Origin> {
    set r | r in db.progress && IsActive(db.nodes, r)
  }

  /** Some known node carries an epoch newer than the persisted one. */
  predicate StaleView(db: Db) {
    exists id :: id in db.nodes && db.nodes[id].epoch > db.meta.epoch
  }

  function StartedSeeds(db: Db): set<string> {
    set b | b in db.seeds.bootstraps && db.seeds.bootstraps[b].status.Started?
  }

  function PinsOf(db: Db, b: string): Vector {
    if b in db.seeds.pins then db.seeds.pins[b] else map[]
  }

  function PinValues(db: Db, o: Origin): set<nat> {
    set b | b in StartedSeeds(db) && o in PinsOf(db, b) :: PinsOf(db, b)[o]
  }

  /** MIN(seed_seq) over the started sessions that have a row for the origin. */
  function MergedPin(db: Db, o: Origin): nat {
    if PinValues(db, o) == {} then 0 else LeastOf(PinValues(db, o))
  }

  function AckValues(db: Db, o: Origin): set<nat> {
    set r | r in Receivers(db) :: Get(db.progress[r], o)
  }

  function Known(db: Db): set<Origin> {
    set r, o | r in Receivers(db) && o in db.progress[r] :: o
  }

  function FloorValues(db: Db, o: Origin): set<nat> {
    AckValues(db, o) + if StartedSeeds(db) != {} then {MergedPin(db, o)} else {}
  }

  /** The least acknowledged sequence, lowered by the pins while seeding. With
      nobody to agree with there is no watermark. */
  function Watermark(db: Db): Vector {
    map o | o in Known(db) && FloorValues(db, o) != {} :: LeastOf(FloorValues(db, o))
  }

  lemma WatermarkBounds(db: Db, o: Origin)
    ensures forall r :: r in Receivers(db) ==> Get(Watermark(db), o) <= Get(db.progress[r], o)
    ensures StartedSeeds(db) != {} ==> Get(Watermark(db), o) <= MergedPin(db, o)
  {
    hide MergedPin, StartedSeeds, IsActive;
    forall r | r in Receivers(db)
      ensures Get(Watermark(db), o) <= Get(db.progress[r], o)
    {
      assert Get(db.progress[r], o) in AckValues(db, o);
    }
  }

  lemma WatermarkDomain(db: Db)
    ensures Watermark(db).Keys == if Receivers(db) == {} then {} else Known(db)
  {
    hide MergedPin, StartedSeeds, IsActive;
    forall o | o in Known(db)
      ensures FloorValues(db, o) != {}
    {
      var r :| r in Receivers(db) && o in db.progress[r];
      assert Get(db.progress[r], o) in AckValues(db, o);
    }
  }

  // ----- The watermark in terms of the rows -----

  /** An ACTIVE incarnation that has acknowledged something. */
  predicate Counts(db: Db, r: Origin) {
    && r in db.progress && r.nodeId in db.nodes
    && db.nodes[r.nodeId].incarnationId == r.incarnationId && db.nodes[r.nodeId].status == "ACTIVE"
  }

  predicate Acknowledged(db: Db, r: Origin, o: Origin, n: nat) {
    r in db.progress && o in db.progress[r] && n <= db.progress[r][o]
  }

  /** A seed session in progress, with a pin for the origin or without. */
  predicate Seeding(db: Db, b: string) {
    b in db.seeds.bootstraps && db.seeds.bootstraps[b].status == Started
  }

  predicate SeedingWithPin(db: Db, b: string, o: Origin) {
    Seeding(db, b) && b in db.seeds.pins && o in db.seeds.pins[b]
  }

  lemma MergedPinReachesIff(db: Db, o: Origin, n: nat)
    requires n >= 1
    ensures n <= MergedPin(db, o) <==>
            && (exists b :: SeedingWithPin(db, b, o))
            && forall b :: SeedingWithPin(db, b, o) ==> n <= db.seeds.pins[b][o]
  {
    if PinValues(db, o) != {} {
      var b :| b in StartedSeeds(db) && o in PinsOf(db, b) && PinsOf(db, b)[o] == MergedPin(db, o);
      assert SeedingWithPin(db, b, o);
    }
    forall b | SeedingWithPin(db, b, o)
      ensures db.seeds.pins[b][o] in PinValues(db, o)
    {
      assert PinsOf(db, b)[o] == db.seeds.pins[b][o];
    }
  }

  lemma FloorReachesIff(db: Db, o: Origin, n: nat)
    requires n >= 1
    ensures n <= Get(Watermark(db), o) <==>
            && Receivers(db) != {} && (forall r :: r in Receivers(db) ==> n <= Get(db.progress[r], o))
            && (StartedSeeds(db) != {} ==> n <= MergedPin(db, o))
  {
    hide MergedPin, StartedSeeds, IsActive;
    WatermarkBounds(db, o);
    WatermarkDomain(db);
    if Receivers(db) != {} && forall r :: r in Receivers(db) ==> n <= Get(db.progress[r], o) {
      var r :| r in Receivers(db);
      assert o in db.progress[r] && o in Known(db);
      var w := Watermark(db)[o];
      if w in AckValues(db, o) {
        var s :| s in Receivers(db) && Get(db.progress[s], o) == w;
      }
    }
  }

  /** A watermark reaches a sequence exactly when there is somebody to agree
      with, everybody who counts has acknowledged that far, and, while a seed
      session is in progress, some session pins the origin and every one that
      does pins it that high. */
  lemma WatermarkReachesIff(db: Db, o: Origin, n: nat)
    requires n >= 1
    ensures n <= Get(Watermark(db), o) <==>
            && (exists r :: Counts(db, r)) && (forall r :: Counts(db, r) ==> Acknowledged(db, r, o, n))
            && ((exists b :: Seeding(db, b)) ==>
                  && (exists b :: SeedingWithPin(db, b, o))
                  && forall b :: SeedingWithPin(db, b, o) ==> n <= db.seeds.pins[b][o])
  {
    hide Watermark, MergedPin, Receivers, StartedSeeds, Counts, Acknowledged, Seeding, SeedingWithPin;
    FloorReachesIff(db, o, n);
    MergedPinReachesIff(db, o, n);
    CountingIs(db, o, n);
  }

  lemma CountingIs(db: Db, o: Origin, n: nat)
    requires n >= 1
    ensures Receivers(db) != {} <==> exists r :: Counts(db, r)
    ensures (forall r :: r in Receivers(db) ==> n <= Get(db.progress[r], o)) <==>
            (forall r :: Counts(db, r) ==> Acknowledged(db, r, o, n))
    ensures StartedSeeds(db) != {} <==> exists b :: Seeding(db, b)
  {
    forall r
      ensures Counts(db, r) <==> r in Receivers(db)
      ensures Counts(db, r) ==> (Acknowledged(db, r, o, n) <==> n <= Get(db.progress[r], o))
    {
    }
    forall b
      ensures Seeding(db, b) <==> b in StartedSeeds(db)
    {
    }
  }

  // ----- Computing it -----

  method ActiveBootstrapPins(db: Database) returns (out: Vector)
    ensures forall o :: o in out <==> PinValues(db.View(), o) != {}
    ensures forall o :: Get(out, o) == MergedPin(db.View(), o)
    ensures forall o :: o in out <==> exists b :: SeedingWithPin(db.View(), b, o)
    ensures forall o, b :: SeedingWithPin(db.View(), b, o) ==> o in out && out[o] <= db.seeds.pins[b][o]
    ensures forall o :: o in out ==> exists b :: SeedingWithPin(db.View(), b, o) && db.seeds.pins[b][o] == out[o]
  {
    ghost var v := db.View();
    out := map[];
    var todo := db.seeds.bootstraps.Keys;
    ghost var seen: set<string> := {};
    while todo != {}
      invariant todo <= db.seeds.bootstraps.Keys && seen == db.seeds.bootstraps.Keys - todo
      invariant forall o :: IsPinOver(v, seen, o, out)
    {
      var b :| b in todo;
      if db.seeds.bootstraps[b].status.Started? && b in db.seeds.pins {
        ghost var before := out;
        out := MinInto(out, db.seeds.pins[b]);
        forall o
          ensures IsPinOver(v, seen + {b}, o, out)
        {
          assert IsPinOver(v, seen, o, before);
        }
      } else {
        forall o
          ensures IsPinOver(v, seen + {b}, o, out)
        {
          assert IsPinOver(v, seen, o, out);
        }
      }
      seen := seen + {b};
      todo := todo - {b};
    }
    forall o
      ensures (o in out <==> PinValues(v, o) != {}) && Get(out, o) == MergedPin(v, o)
    {
      assert IsPinOver(v, seen, o, out);
      PinOverAll(v, seen, o, out);
    }
    PinsAreLeast(v, seen, out);
  }

  lemma PinsAreLeast(db: Db, seen: set<string>, out: Vector)
    requires seen == db.seeds.bootstraps.Keys && forall o :: IsPinOver(db, seen, o, out)
    ensures forall o :: o in out <==> exists b :: SeedingWithPin(db, b, o)
    ensures forall o, b :: SeedingWithPin(db, b, o) ==> o in out && out[o] <= db.seeds.pins[b][o]
    ensures forall o :: o in out ==> exists b :: SeedingWithPin(db, b, o) && db.seeds.pins[b][o] == out[o]
  {
    forall o, b | SeedingWithPin(db, b, o)
      ensures o in out && out[o] <= db.seeds.pins[b][o]
    {
      assert IsPinOver(db, seen, o, out);
      assert b in seen && b in StartedSeeds(db) && o in PinsOf(db, b);
    }
    forall o | o in out
      ensures exists b :: SeedingWithPin(db, b, o) && db.seeds.pins[b][o] == out[o]
    {
      assert IsPinOver(db, seen, o, out);
      var b :| b in seen && b in StartedSeeds(db) && o in PinsOf(db, b) && out[o] == PinsOf(db, b)[o];
      assert SeedingWithPin(db, b, o);
    }
  }

  /** `out` holds the least pin for `o` among the started sessions in `seen`. */
  ghost predicate IsPinOver(db: Db, seen: set<string>, o: Origin, out: Vector) {
    && (forall b :: b in seen && b in StartedSeeds(db) && o in PinsOf(db, b) ==> o in out && out[o] <= PinsOf(db, b)[o])
    && (o in out ==> exists b :: b in seen && b in StartedSeeds(db) && o in PinsOf(db, b) && out[o] == PinsOf(db, b)[o])
  }

  lemma PinOverAll(db: Db, seen: set<string>, o: Origin, out: Vector)
    requires seen == db.seeds.bootstraps.Keys && IsPinOver(db, seen, o, out)
    ensures o in out <==> PinValues(db, o) != {}
    ensures Get(out, o) == MergedPin(db, o)
  {
    forall x | x in PinValues(db, o)
      ensures o in out && out[o] <= x
    {
      var b :| b in StartedSeeds(db) && o in PinsOf(db, b) && PinsOf(db, b)[o] == x;
    }
    if o in out {
      assert out[o] in PinValues(db, o);
    }
  }

  /** Lowers or adds the entries of one session's pins. */
  function MinInto(out: Vector, pins: Vector): Vector {
    map o | o in out.Keys + pins.Keys ::
      if o in out && (o !in pins || out[o] <= pins[o]) then out[o] else pins[o]
  }

  /** The ACTIVE incarnations, unless a node row shows a newer epoch. */
  method ActiveNodes(db: Database) returns (r: Result<set<Origin>>)
    ensures StaleView(db.View()) ==> r == Err(StaleMembership)
    ensures !StaleView(db.View()) ==> r.Ok? && forall o :: o in r.value <==> IsActive(db.nodes, o)
    ensures r.Err? <==> exists id :: id in db.nodes && db.nodes[id].epoch > db.meta.epoch
    ensures r.Ok? ==> forall id, i :: Origin(id, i) in r.value <==>
                                      id in db.nodes && db.nodes[id].incarnationId == i
                                      && db.nodes[id].status == "ACTIVE"
  {
    var active: set<Origin> := {};
    var ids := db.nodes.Keys;
    while ids != {}
      invariant ids <= db.nodes.Keys
      invariant forall id :: id in db.nodes && id !in ids ==> db.nodes[id].epoch <= db.meta.epoch
      invariant forall o :: o in active <==> IsActive(db.nodes, o) && o.nodeId !in ids
    {
      var id :| id in ids;
      var n := db.nodes[id];
      if n.epoch > db.meta.epoch {
        return Err(StaleMembership);
      }
      if n.status == ACTIVE {
        active := active + {Origin(id, n.incarnationId)};
      }
      ids := ids - {id};
    }
    return Ok(active);
  }

  method ReceiverVectors(db: Database, active: set<Origin>) returns (vectors: seq<Vector>, ghost from: seq<Origin>)
    requires forall o :: o in active <==> IsActive(db.nodes, o)
    ensures vectors == [] <==> Receivers(db.View()) == {}
    ensures vectors != [] ==> ListsReceivers(db.View(), from, vectors)
  {
    hide IsActive;
    vectors, from := [], [];
    var receivers := db.progress.Keys;
    while receivers != {}
      invariant receivers <= db.progress.Keys && |from| == |vectors|
      invariant forall i :: 0 <= i < |from| ==> from[i] in Receivers(db.View()) && vectors[i] == db.progress[from[i]]
      invariant forall r :: r in Receivers(db.View()) && r !in receivers ==> r in from
    {
      var r :| r in receivers;
      if r in active {
        vectors := vectors + [db.progress[r]];
        from := from + [r];
      }
      receivers := receivers - {r};
    }
    assert vectors != [] ==> from[0] in Receivers(db.View());
  }

  method Watermarks(db: Database) returns (r: Result<Vector>)
    ensures StaleView(db.View()) ==> r == Err(StaleMembership)
    ensures !StaleView(db.View()) ==> r == Ok(Watermark(db.View()))
    ensures r.Err? <==> exists id :: id in db.nodes && db.nodes[id].epoch > db.meta.epoch
  {
    hide Watermark, IsActive, MergedPin, ListsReceivers, IsLeastAt;
    ghost var v := db.View();
    var active := ActiveNodes(db);
    if active.Err? {
      return Err(StaleMembership);
    }
    var vectors, from := ReceiverVectors(db, active.value);
    if vectors == [] {
      WatermarkDomain(v);
      return Ok(map[]);
    }
    var pins := ActiveBootstrapPins(db);
    ghost var acked := vectors;
    if HasActiveBootstrap(db) {
      var known := UnionKeys(vectors);
      var merged := map k | k in known :: Get(pins, k);
      vectors := vectors + [merged];
    }
    var least := Min(vectors);
    forall o
      ensures o in least <==> o in Watermark(v)
      ensures o in least ==> least[o] == Watermark(v)[o]
    {
      LeastIsWatermark(v, from, acked, vectors, pins, least, o);
    }
    assert least == Watermark(v);
    return Ok(least);
  }

  predicate HasActiveBootstrap(db: Database)
    reads db
  {
    StartedSeeds(db.View()) != {}
  }

  function UnionKeys(vectors: seq<Vector>): set<Origin> {
    set i, k | 0 <= i < |vectors| && k in vectors[i] :: k
  }

  /** `acked` lists the vectors of exactly the receivers, in some order. */
  ghost predicate ListsReceivers(db: Db, from: seq<Origin>, acked: seq<Vector>) {
    && |from| == |acked| > 0
    && (forall i :: 0 <= i < |from| ==> from[i] in Receivers(db) && acked[i] == db.progress[from[i]])
    && (forall r :: r in Receivers(db) ==> r in from)
  }

  lemma KnownIsUnion(db: Db, from: seq<Origin>, acked: seq<Vector>)
    requires ListsReceivers(db, from, acked)
    ensures Known(db) == UnionKeys(acked) && Receivers(db) != {}
  {
    hide IsActive;
    forall k
      ensures k in Known(db) <==> k in UnionKeys(acked)
    {
      if k in Known(db) {
        var r :| r in Receivers(db) && k in db.progress[r];
        var i :| 0 <= i < |from| && from[i] == r;
        assert k in acked[i];
      }
      if k in UnionKeys(acked) {
        var i :| 0 <= i < |acked| && k in acked[i];
        assert from[i] in Receivers(db);
      }
    }
    assert from[0] in Receivers(db);
  }

  /** The values Min compares at `o` are the floor values. */
  lemma LeastIsFloor(db: Db, from: seq<Origin>, acked: seq<Vector>, vectors: seq<Vector>, o: Origin, m: nat)
    requires ListsReceivers(db, from, acked)
    requires |acked| <= |vectors| && vectors[..|acked|] == acked
    requires |vectors| == |acked| + if StartedSeeds(db) != {} then 1 else 0
    requires StartedSeeds(db) != {} ==> Get(vectors[|acked|], o) == MergedPin(db, o)
    requires IsLeastAt(vectors, o, m)
    ensures m in FloorValues(db, o) && forall x :: x in FloorValues(db, o) ==> m <= x
  {
    hide IsActive, MergedPin, StartedSeeds;
    assert forall i :: 0 <= i < |acked| ==> vectors[i] == acked[i];
    var i :| 0 <= i < |vectors| && m == Get(vectors[i], o);
    if i < |acked| {
      assert m in AckValues(db, o) by {
        assert from[i] in Receivers(db) && acked[i] == db.progress[from[i]];
      }
    }
    forall x | x in FloorValues(db, o)
      ensures m <= x
    {
      if x in AckValues(db, o) {
        var r :| r in Receivers(db) && x == Get(db.progress[r], o);
        var j :| 0 <= j < |from| && from[j] == r;
        assert vectors[j] == acked[j];
      }
    }
  }

  lemma LeastIsWatermark(db: Db, from: seq<Origin>, acked: seq<Vector>, vectors: seq<Vector>,
                         pins: Vector, least: Vector, o: Origin)
    requires ListsReceivers(db, from, acked)
    requires forall k :: Get(pins, k) == MergedPin(db, k)
    requires vectors == acked + if StartedSeeds(db) != {} then [map k | k in UnionKeys(acked) :: Get(pins, k)] else []
    requires forall k :: k in least <==> exists i :: 0 <= i < |vectors| && k in vectors[i]
    requires forall k :: k in least ==> IsLeastAt(vectors, k, least[k])
    ensures o in least <==> o in Watermark(db)
    ensures o in least ==> least[o] == Watermark(db)[o]
  {
    hide IsActive, Receivers, MergedPin, StartedSeeds, Watermark, IsLeastAt, FloorValues;
    KnownIsUnion(db, from, acked);
    WatermarkDomain(db);
    assert forall i :: 0 <= i < |acked| ==> vectors[i] == acked[i];
    assert o in least <==> o in UnionKeys(acked) by {
      if o in UnionKeys(acked) {
        var i :| 0 <= i < |acked| && o in acked[i];
        assert o in vectors[i];
      }
      if o in least {
        var i :| 0 <= i < |vectors| && o in vectors[i];
        assert i < |acked| ==> o in acked[i];
      }
    }
    if o in least {
      LeastIsFloor(db, from, acked, vectors, o, least[o]);
      WatermarkAt(db, o);
    }
  }

  lemma WatermarkAt(db: Db, o: Origin)
    requires o in Watermark(db)
    ensures Watermark(db)[o] in FloorValues(db, o)
    ensures forall x :: x in FloorValues(db, o) ==> Watermark(db)[o] <= x
  {
  }
}
