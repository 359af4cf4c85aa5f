/** The nodes together: acknowledgements travel between them and each collects
    what it believes everyone has. Any interleaving, any number of nodes. */
module Mesh {
  import opened Hlc
  import opened Changelog
  import opened Store
  import opened Apply
  import opened Capture
  import opened SeedTarget
  import opened Replica
  import opened Ranges
  import opened Gc
  import opened Collection

  /** A vector on its way from the node whose vector it is. */
  datatype Ack = Ack(from: Origin, to: Origin, vector: Vector)

  datatype World = World(nodes: map<Origin, Node>, acks: set<Ack>)

  datatype Move =
    | Enter(at: Origin)
    | Local(at: Origin, step: Replica.Step)
    | SendAck(at: Origin, to: Origin)
    | RecordAck(ack: Ack)
    | Cycle(at: Origin, after: Db, limit: nat)
    | Reconfigure(at: Origin, members: map<string, NodeRow>, epoch: nat, seeds: Seeds)

  /** Acknowledgements may be lost, repeated, delayed and reordered; membership
      tables and seed sessions may change in any way. Vectors are recorded from
      acknowledgements only, and log rows go in GC cycles only. */
  ghost predicate Enabled(reg: Registry, w: World, m: Move) {
    match m
    case Enter(at) => at !in w.nodes
    case Local(at, step) => at in w.nodes && !step.Record? && !step.Collect?
    case SendAck(at, to) => at in w.nodes && at != to
    case RecordAck(ack) => ack in w.acks && ack.to in w.nodes
    case Cycle(at, after, limit) => at in w.nodes && IsCycle(w.nodes[at].db, after, limit)
    case Reconfigure(at, _, _, _) => at in w.nodes
  }

  /** Nothing is ruled out beforehand: new nodes come in, nodes take batches,
      writes and seeds, acknowledge to anybody else, record whatever has arrived,
      run any cycle, and change members and sessions, in any order. */
  lemma AnythingMayHappen(reg: Registry, w: World, at: Origin)
    ensures at !in w.nodes ==> Enabled(reg, w, Enter(at))
    ensures at in w.nodes ==> forall step: Replica.Step :: !step.Record? && !step.Collect? ==>
                                                             Enabled(reg, w, Local(at, step))
    ensures at in w.nodes ==> forall to :: to != at ==> Enabled(reg, w, SendAck(at, to))
    ensures forall a :: a in w.acks && a.to in w.nodes ==> Enabled(reg, w, RecordAck(a))
    ensures at in w.nodes ==> forall after, limit :: IsCycle(w.nodes[at].db, after, limit) ==>
                                                       Enabled(reg, w, Cycle(at, after, limit))
    ensures at in w.nodes ==> forall members, epoch, seeds :: Enabled(reg, w, Reconfigure(at, members, epoch, seeds))
  {
    hide IsCycle;
  }

  ghost function After(reg: Registry, w: World, m: Move): World
    requires Enabled(reg, w, m)
  {
    match m
    case Enter(at) => w.(nodes := w.nodes[at := Begin(at)])
    case Local(at, step) => w.(nodes := w.nodes[at := Next(reg, w.nodes[at], step)])
    case SendAck(at, to) => w.(acks := w.acks + {Ack(at, to, LocalVector(w.nodes[at].db))})
    case RecordAck(ack) => w.(nodes := w.nodes[ack.to := Next(reg, w.nodes[ack.to], Record(ack.from, ack.vector))])
    case Cycle(at, after, _) => w.(nodes := w.nodes[at := w.nodes[at].(db := after)])
    case Reconfigure(at, members, epoch, seeds) =>
      var db := w.nodes[at].db;
      var changed := db.(nodes := members, meta := db.meta.(epoch := epoch), seeds := seeds);
      w.(nodes := w.nodes[at := w.nodes[at].(db := changed)])
  }

  ghost predicate Legal(reg: Registry, w: World, moves: seq<Move>)
    decreases |moves|, 0
  {
    moves != [] ==>
      && Legal(reg, w, moves[..|moves| - 1])
      && Enabled(reg, AfterAll(reg, w, moves[..|moves| - 1]), moves[|moves| - 1])
  }

  ghost function AfterAll(reg: Registry, w: World, moves: seq<Move>): World
    requires Legal(reg, w, moves)
    decreases |moves|, 1
  {
    if moves == [] then w else After(reg, AfterAll(reg, w, moves[..|moves| - 1]), moves[|moves| - 1])
  }

  const EMPTY := World(map[], {})

  // ----- The invariant -----

  /** The vector is no more than what the node itself has. */
  ghost predicate Backed(w: World, o: Origin, v: Vector) {
    o in w.nodes && AtMost(v, LocalVector(w.nodes[o].db))
  }

  ghost predicate NodeConsistent(w: World, p: Origin)
    requires p in w.nodes
  {
    && w.nodes[p].db.local.self == p && Sound(w.nodes[p])
    && forall r :: r in w.nodes[p].db.progress && r != p ==> Backed(w, r, w.nodes[p].db.progress[r])
  }

  ghost predicate AckConsistent(w: World, a: Ack) {
    a.from != a.to && Backed(w, a.from, a.vector)
  }

  /** Every recorded cursor and every acknowledgement in flight is backed. */
  ghost predicate Consistent(w: World) {
    && (forall p :: p in w.nodes ==> NodeConsistent(w, p))
    && (forall a :: a in w.acks ==> AckConsistent(w, a))
  }

  /** Nodes only gain. */
  ghost predicate Advances(w: World, v: World) {
    forall o :: o in w.nodes ==>
                  o in v.nodes && Keeps(w.nodes[o], v.nodes[o])
                  && AtMost(LocalVector(w.nodes[o].db), LocalVector(v.nodes[o].db))
  }

  lemma BackedStays(w: World, v: World, o: Origin, x: Vector)
    requires Advances(w, v) && Backed(w, o, x)
    ensures Backed(v, o, x)
  {
    hide LocalVector;
  }

  lemma MoveAdvances(reg: Registry, w: World, m: Move)
    requires Enabled(reg, w, m)
    ensures Advances(w, After(reg, w, m))
  {
    hide Next, Keeps, LocalVector, IsCycle;
    var v := After(reg, w, m);
    forall o | o in w.nodes
      ensures o in v.nodes && Keeps(w.nodes[o], v.nodes[o])
              && AtMost(LocalVector(w.nodes[o].db), LocalVector(v.nodes[o].db))
    {
      Stays(w.nodes[o]);
      match m
      case Enter(_) =>
      case Local(at, step) => StepAdvances(reg, w.nodes[at], step);
      case SendAck(_, _) =>
      case RecordAck(ack) => StepAdvances(reg, w.nodes[ack.to], Record(ack.from, ack.vector));
      case Cycle(at, after, limit) => SameCursors(w.nodes[at], v.nodes[at])
      by { CycleCursors(w.nodes[at].db, after, limit); }
      case Reconfigure(at, _, _, _) => SameCursors(w.nodes[at], v.nodes[at]);
    }
  }

  lemma Stays(n: Node)
    ensures Keeps(n, n) && AtMost(LocalVector(n.db), LocalVector(n.db))
  {
  }

  lemma CycleCursors(a: Db, b: Db, limit: nat)
    requires IsCycle(a, b, limit)
    ensures a.progress == b.progress && a.local == b.local
  {
  }

  lemma SameCursors(n: Node, after: Node)
    requires after.got == n.got && after.covered == n.covered
    requires after.db.progress == n.db.progress && after.db.local == n.db.local
    ensures Keeps(n, after) && AtMost(LocalVector(n.db), LocalVector(after.db))
  {
  }

  lemma CycleOnlyLoses(a: Db, b: Db, limit: nat, o: Origin)
    requires IsCycle(a, b, limit)
    ensures Present(b, o) <= Present(a, o)
  {
    hide Watermark, StaleView;
    if Get(Watermark(a), o) > 0 {
      var w := Get(Watermark(a), o);
      var victims :| IsPick(Below(a, o, w), limit, victims) && OriginLost(a, b, o, w, victims, limit);
    }
  }

  /** The node that moves stays sound. */
  lemma MoveKeepsSound(reg: Registry, w: World, m: Move, p: Origin)
    requires Enabled(reg, w, m) && p in After(reg, w, m).nodes
    requires p in w.nodes ==> Sound(w.nodes[p]) && w.nodes[p].db.local.self == p
    ensures Sound(After(reg, w, m).nodes[p]) && After(reg, w, m).nodes[p].db.local.self == p
  {
    hide Sound, Next, IsCycle, Present;
    match m
    case Enter(_) => BeginIsSound(p);
    case Local(at, step) => if p == at { StepKeepsSound(reg, w.nodes[at], step); StepAdvances(reg, w.nodes[at], step); }
    case SendAck(_, _) =>
    case RecordAck(a) =>
      if p == a.to {
        StepKeepsSound(reg, w.nodes[p], Record(a.from, a.vector));
        StepAdvances(reg, w.nodes[p], Record(a.from, a.vector));
      }
    case Cycle(at, after, limit) =>
      if p == at {
        CycleCursors(w.nodes[p].db, after, limit);
        forall o
          ensures Present(after, o) <= Present(w.nodes[p].db, o)
        {
          CycleOnlyLoses(w.nodes[p].db, after, limit, o);
        }
        ShrinkKeepsSound(w.nodes[p], w.nodes[p].(db := after));
      }
    case Reconfigure(at, _, _, _) =>
      if p == at {
        var after := After(reg, w, m).nodes[p];
        forall o
          ensures Present(after.db, o) <= Present(w.nodes[p].db, o)
        {
          SameLogPresent(after.db, w.nodes[p].db, o);
        }
        ShrinkKeepsSound(w.nodes[p], after);
      }
  }

  lemma SameLogPresent(a: Db, b: Db, o: Origin)
    requires a.log == b.log
    ensures Present(a, o) == Present(b, o)
  {
  }

  /** An acknowledgement carries its sender's vector as it stands, and raises the
      receiver's record of the sender to it. */
  lemma AckIsRecorded(reg: Registry, w: World, a: Ack)
    requires Consistent(w) && a in w.acks && a.to in w.nodes
    ensures Enabled(reg, w, RecordAck(a))
    ensures var before, after := w.nodes[a.to].db, After(reg, w, RecordAck(a)).nodes[a.to].db;
            forall o :: Get(ProgressOf(after, a.from), o) ==
                        if Get(a.vector, o) > Get(ProgressOf(before, a.from), o) then Get(a.vector, o)
                        else Get(ProgressOf(before, a.from), o)
  {
    hide Sound, Backed;
    assert AckConsistent(w, a) && NodeConsistent(w, a.to);
  }

  lemma AckIsSent(reg: Registry, w: World, at: Origin, to: Origin)
    requires at in w.nodes && at != to
    ensures Enabled(reg, w, SendAck(at, to))
    ensures After(reg, w, SendAck(at, to)) == World(w.nodes, w.acks + {Ack(at, to, LocalVector(w.nodes[at].db))})
  {
  }

  lemma MoveKeepsRecords(reg: Registry, w: World, m: Move, p: Origin, r: Origin)
    requires Enabled(reg, w, m) && Consistent(w) && p in After(reg, w, m).nodes
    requires r in After(reg, w, m).nodes[p].db.progress && r != p
    ensures Backed(After(reg, w, m), r, After(reg, w, m).nodes[p].db.progress[r])
  {
    hide Next, IsCycle, Sound, Advances, LocalVector, Backed;
    var v := After(reg, w, m);
    MoveAdvances(reg, w, m);
    assert p in w.nodes ==> NodeConsistent(w, p);
    match m
    case Enter(at) =>
      assert p != at;
      BackedStays(w, v, r, w.nodes[p].db.progress[r]);
    case Local(at, step) =>
      if p == at {
        StepKeepsRecords(reg, w.nodes[p], step, r);
      }
      BackedStays(w, v, r, w.nodes[p].db.progress[r]);
    case SendAck(_, _) => BackedStays(w, v, r, w.nodes[p].db.progress[r]);
    case RecordAck(a) => RecordKeepsRecords(reg, w, a, p, r);
    case Cycle(at, after, limit) =>
      if p == at {
        CycleCursors(w.nodes[p].db, after, limit);
      }
      BackedStays(w, v, r, w.nodes[p].db.progress[r]);
    case Reconfigure(_, _, _, _) => BackedStays(w, v, r, w.nodes[p].db.progress[r]);
  }

  lemma RecordKeepsRecords(reg: Registry, w: World, a: Ack, p: Origin, r: Origin)
    requires Enabled(reg, w, RecordAck(a)) && Consistent(w) && p in w.nodes
    requires r in After(reg, w, RecordAck(a)).nodes[p].db.progress && r != p
    ensures Backed(After(reg, w, RecordAck(a)), r, After(reg, w, RecordAck(a)).nodes[p].db.progress[r])
  {
    hide Sound, Advances, LocalVector, Backed;
    var v := After(reg, w, RecordAck(a));
    MoveAdvances(reg, w, RecordAck(a));
    assert NodeConsistent(w, p) && AckConsistent(w, a);
    BackedStays(w, v, a.from, a.vector);
    if p == a.to && r == a.from && a.vector != map[] {
      if r in w.nodes[p].db.progress {
        BackedStays(w, v, r, w.nodes[p].db.progress[r]);
      } else {
        NothingIsBacked(v, r, a.vector);
      }
      JoinIsBacked(v, r, ProgressOf(w.nodes[p].db, r), a.vector);
    } else {
      BackedStays(w, v, r, w.nodes[p].db.progress[r]);
    }
  }

  lemma NothingIsBacked(w: World, o: Origin, v: Vector)
    requires Backed(w, o, v)
    ensures Backed(w, o, map[])
  {
  }

  lemma JoinIsBacked(w: World, o: Origin, a: Vector, b: Vector)
    requires Backed(w, o, a) && Backed(w, o, b)
    ensures Backed(w, o, Join(a, b))
  {
    hide LocalVector;
  }

  lemma MoveKeepsConsistent(reg: Registry, w: World, m: Move)
    requires Enabled(reg, w, m) && Consistent(w)
    ensures Consistent(After(reg, w, m))
  {
    hide Sound, Advances, Backed, Next, IsCycle, LocalVector;
    var v := After(reg, w, m);
    MoveAdvances(reg, w, m);
    forall p | p in v.nodes
      ensures NodeConsistent(v, p)
    {
      assert p in w.nodes ==> NodeConsistent(w, p);
      MoveKeepsSound(reg, w, m, p);
      forall r | r in v.nodes[p].db.progress && r != p
        ensures Backed(v, r, v.nodes[p].db.progress[r])
      {
        MoveKeepsRecords(reg, w, m, p, r);
      }
    }
    forall a | a in v.acks
      ensures AckConsistent(v, a)
    {
      if a in w.acks {
        assert AckConsistent(w, a);
        BackedStays(w, v, a.from, a.vector);
      } else {
        OwnVectorIsBacked(v, a.from);
      }
    }
  }

  lemma OwnVectorIsBacked(w: World, o: Origin)
    requires o in w.nodes
    ensures Backed(w, o, LocalVector(w.nodes[o].db))
  {
  }

  lemma {:induction false} RunIsConsistent(reg: Registry, moves: seq<Move>)
    requires Legal(reg, EMPTY, moves)
    ensures Consistent(AfterAll(reg, EMPTY, moves))
  {
    hide Enabled, After, Consistent;
    if moves == [] {
      assert Consistent(EMPTY) by { EmptyIsConsistent(); }
    } else {
      RunIsConsistent(reg, moves[..|moves| - 1]);
      MoveKeepsConsistent(reg, AfterAll(reg, EMPTY, moves[..|moves| - 1]), moves[|moves| - 1]);
    }
  }

  lemma EmptyIsConsistent()
    ensures Consistent(EMPTY)
  {
  }

  // ----- Safety of collection -----

  lemma BackedIsHeld(w: World, r: Origin, v: Vector, o: Origin, k: nat)
    requires r in w.nodes && NodeConsistent(w, r) && Backed(w, r, v) && 1 <= k <= Get(v, o)
    ensures Has(w.nodes[r], o, k)
  {
    hide Cursor;
    var n := w.nodes[r];
    assert Get(v, o) <= Get(LocalVector(n.db), o);
    if o != r {
      assert Get(LocalVector(n.db), o) == Cursor(n.db, o) by { RemoteEntry(n.db, o); }
      assert CursorSound(n, o);
    }
  }

  lemma RemoteEntry(db: Db, o: Origin)
    requires o != db.local.self
    ensures Get(LocalVector(db), o) == Cursor(db, o)
  {
  }

  lemma ConsistentCollectionIsHeld(w: World, p: Origin, after: Db, limit: nat, o: Origin, k: nat, r: Origin)
    requires Consistent(w) && p in w.nodes
    requires var db := w.nodes[p].db;
             IsCycle(db, after, limit) && k in Present(db, o) && k !in Present(after, o) && r in Receivers(db)
    ensures r in w.nodes && Has(w.nodes[r], o, k) && k >= 1
  {
    hide Has, Backed, IsCycle, Present;
    var db := w.nodes[p].db;
    assert NodeConsistent(w, p);
    assert LogSound(w.nodes[p], o);
    if r != p {
      CycleRemovesOnlyAcknowledged(db, after, limit, o, k);
      assert Backed(w, r, db.progress[r]) && r in w.nodes by { RecordBacked(w, p, r); }
      assert NodeConsistent(w, r);
      BackedIsHeld(w, r, db.progress[r], o, k);
    }
  }

  /** Whatever a GC cycle removes at any node in any reachable world, every
      ACTIVE receiver on that node's record has written, stored or been
      seeded past it, now and ever after. */
  lemma CollectedRowsAreHeld(reg: Registry, moves: seq<Move>, p: Origin, after: Db, limit: nat, o: Origin, k: nat,
                             r: Origin)
    requires Legal(reg, EMPTY, moves)
    requires p in AfterAll(reg, EMPTY, moves).nodes
    requires var db := AfterAll(reg, EMPTY, moves).nodes[p].db;
             IsCycle(db, after, limit) && k in Present(db, o) && k !in Present(after, o) && r in Receivers(db)
    ensures r in AfterAll(reg, EMPTY, moves).nodes && Has(AfterAll(reg, EMPTY, moves).nodes[r], o, k)
  {
    hide AfterAll, Legal, Has, IsCycle, Present, Consistent;
    RunIsConsistent(reg, moves);
    ConsistentCollectionIsHeld(AfterAll(reg, EMPTY, moves), p, after, limit, o, k, r);
  }

  lemma RecordBacked(w: World, p: Origin, r: Origin)
    requires p in w.nodes && NodeConsistent(w, p) && r in Receivers(w.nodes[p].db) && r != p
    ensures r in w.nodes && Backed(w, r, w.nodes[p].db.progress[r])
  {
  }

  // ----- A recorded receiver can always catch up -----

  /** Node p never runs a cycle without r among its ACTIVE receivers. */
  ghost predicate CountsReceiver(reg: Registry, w: World, moves: seq<Move>, p: Origin, r: Origin)
    requires Legal(reg, w, moves)
  {
    moves != [] ==>
      && CountsReceiver(reg, w, moves[..|moves| - 1], p, r)
      && (moves[|moves| - 1].Cycle? && moves[|moves| - 1].at == p ==>
            r in Receivers(AfterAll(reg, w, moves[..|moves| - 1]).nodes[p].db))
  }

  /** What p keeps for r: no mark past r's recorded cursors, and none of the
      rows `kept` beyond them gone. */
  ghost predicate RetainsFor(db: Db, r: Origin, o: Origin, kept: set<nat>) {
    && Mark(db, o) <= Get(ProgressOf(db, r), o)
    && forall k :: k in kept && k > Get(ProgressOf(db, r), o) ==> k in Present(db, o)
  }

  lemma CycleRetains(a: Db, b: Db, limit: nat, r: Origin, o: Origin, kept: set<nat>)
    requires IsCycle(a, b, limit) && r in Receivers(a) && RetainsFor(a, r, o, kept)
    ensures RetainsFor(b, r, o, kept)
  {
    hide Watermark, StaleView, IsActive;
    WatermarkBounds(a, o);
    if Get(Watermark(a), o) > 0 {
      var w := Get(Watermark(a), o);
      var victims :| IsPick(Below(a, o, w), limit, victims) && OriginLost(a, b, o, w, victims, limit);
    }
  }

  /** More rows and higher cursors keep retention. */
  lemma GrowthRetains(a: Db, b: Db, r: Origin, o: Origin, kept: set<nat>)
    requires RetainsFor(a, r, o, kept)
    requires Mark(b, o) == Mark(a, o) && Present(a, o) <= Present(b, o)
    requires Get(ProgressOf(a, r), o) <= Get(ProgressOf(b, r), o)
    ensures RetainsFor(b, r, o, kept)
  {
    hide Present, ProgressOf;
  }

  lemma StepGrows(reg: Registry, n: Node, step: Replica.Step, o: Origin)
    requires !step.Collect?
    ensures Present(n.db, o) <= Present(Next(reg, n, step).db, o)
  {
    hide Applied, IsEmpty;
    match step
    case Batch(es, clock) =>
      if Applied(reg, n.db, es, clock).Ok? {
        BatchCursors(reg, n.db, es, clock, o);
      }
    case Write(spec, c, wall, id) => CapturedLog(spec, n.db, c, wall, id, o);
    case Load(_, _, _) =>
    case AbortedLoad(_) =>
    case Record(_, _) =>
    case Members(_) =>
  }

  lemma MoveRetains(reg: Registry, w: World, m: Move, p: Origin, r: Origin, o: Origin, kept: set<nat>)
    requires Enabled(reg, w, m) && Consistent(w) && p in w.nodes && r != p
    requires m.Cycle? && m.at == p ==> r in Receivers(w.nodes[p].db)
    requires RetainsFor(w.nodes[p].db, r, o, kept)
    ensures p in After(reg, w, m).nodes && RetainsFor(After(reg, w, m).nodes[p].db, r, o, kept)
  {
    hide Next, IsCycle, Sound, RetainsFor, Present, ProgressOf, Mark, Receivers, LocalVector;
    assert NodeConsistent(w, p);
    var v := After(reg, w, m);
    match m
    case Enter(_) =>
    case Local(at, step) =>
      if p == at {
        StepKeepsRecords(reg, w.nodes[p], step, r);
        StepGrows(reg, w.nodes[p], step, o);
        SameMeta(w.nodes[p].db, v.nodes[p].db, o);
        GrowthRetains(w.nodes[p].db, v.nodes[p].db, r, o, kept);
      }
    case SendAck(_, _) =>
    case RecordAck(a) =>
      if p == a.to {
        StepGrows(reg, w.nodes[p], Record(a.from, a.vector), o);
        RecordRaises(reg, w.nodes[p], a.from, a.vector, r, o);
        GrowthRetains(w.nodes[p].db, v.nodes[p].db, r, o, kept);
      }
    case Cycle(at, after, limit) =>
      if p == at {
        CycleRetains(w.nodes[p].db, after, limit, r, o, kept);
      }
    case Reconfigure(at, _, _, _) =>
      if p == at {
        SameLogPresent(w.nodes[p].db, v.nodes[p].db, o);
        SameProgress(w.nodes[p].db, v.nodes[p].db, r, o);
        GrowthRetains(w.nodes[p].db, v.nodes[p].db, r, o, kept);
      }
  }

  lemma SameMeta(a: Db, b: Db, o: Origin)
    requires a.meta == b.meta
    ensures Mark(a, o) == Mark(b, o)
  {
  }

  lemma SameProgress(a: Db, b: Db, r: Origin, o: Origin)
    requires a.progress == b.progress && a.meta.gcMarks == b.meta.gcMarks
    ensures ProgressOf(a, r) == ProgressOf(b, r) && Mark(a, o) == Mark(b, o)
  {
  }

  lemma RecordRaises(reg: Registry, n: Node, peer: Origin, v: Vector, r: Origin, o: Origin)
    ensures var after := Next(reg, n, Record(peer, v));
            Get(ProgressOf(n.db, r), o) <= Get(ProgressOf(after.db, r), o) && Mark(after.db, o) == Mark(n.db, o)
  {
  }

  lemma {:induction false} RunRetains(reg: Registry, w: World, moves: seq<Move>, p: Origin, r: Origin, o: Origin,
                                      kept: set<nat>)
    requires Consistent(w) && Legal(reg, w, moves) && p in w.nodes && r != p
    requires CountsReceiver(reg, w, moves, p, r) && RetainsFor(w.nodes[p].db, r, o, kept)
    ensures Consistent(AfterAll(reg, w, moves)) && p in AfterAll(reg, w, moves).nodes
    ensures RetainsFor(AfterAll(reg, w, moves).nodes[p].db, r, o, kept)
  {
    hide Enabled, After, Consistent, RetainsFor, Receivers;
    if moves != [] {
      var init, m := moves[..|moves| - 1], moves[|moves| - 1];
      RunRetains(reg, w, init, p, r, o, kept);
      MoveKeepsConsistent(reg, AfterAll(reg, w, init), m);
      MoveRetains(reg, AfterAll(reg, w, init), m, p, r, o, kept);
    }
  }

  /** No range asked for above a vector that covers every mark is refused. */
  lemma AboveMarksIsNotTruncated(db: Db, have: Vector, want: Vector, ranges: seq<Range>)
    requires forall o :: Mark(db, o) <= Get(have, o)
    requires IsMissing(have, want, ranges)
    ensures !Truncated(db, ranges)
  {
    forall i | 0 <= i < |ranges|
      ensures !Collected(db, ranges[i].origin, ranges[i].from)
    {
      var o, k := ranges[i].origin, ranges[i].from;
      assert InRange(ranges[i], o, k);
      assert Requested(ranges, o, k);
      assert Get(have, o) < k;
      assert Mark(db, o) <= Get(have, o);
    }
  }

  /** As long as every cycle of node p counts r among its receivers, r never
      needs a new seed: a Need computed from any vector that is not behind what
      p has recorded of r is never refused as truncated, and every row p ever
      stored above that vector is still in p's log. */
  lemma ReceiverNeverNeedsReseed(reg: Registry, before: seq<Move>, moves: seq<Move>, p: Origin, r: Origin,
                                 have: Vector, want: Vector, ranges: seq<Range>, o: Origin, k: nat)
    requires Legal(reg, EMPTY, before) && p != r
    requires var w := AfterAll(reg, EMPTY, before);
             && p in w.nodes && Legal(reg, w, moves) && CountsReceiver(reg, w, moves, p, r)
             && (forall q :: Mark(w.nodes[p].db, q) <= Get(ProgressOf(w.nodes[p].db, r), q))
             && k in Present(w.nodes[p].db, o)
    requires var v := AfterAll(reg, AfterAll(reg, EMPTY, before), moves);
             && p in v.nodes && AtMost(ProgressOf(v.nodes[p].db, r), have)
             && k > Get(have, o) && IsMissing(have, want, ranges)
    ensures var v := AfterAll(reg, AfterAll(reg, EMPTY, before), moves);
            k in Present(v.nodes[p].db, o) && !Truncated(v.nodes[p].db, ranges)
  {
    hide AfterAll, Legal, Enabled, CountsReceiver, Sound, Present, ProgressOf, Mark, IsMissing, Truncated, Consistent;
    RunIsConsistent(reg, before);
    var w := AfterAll(reg, EMPTY, before);
    var v := AfterAll(reg, w, moves);
    RunRetains(reg, w, moves, p, r, o, Present(w.nodes[p].db, o));
    forall q
      ensures Mark(v.nodes[p].db, q) <= Get(have, q)
    {
      RunRetains(reg, w, moves, p, r, q, {});
      assert Get(ProgressOf(v.nodes[p].db, r), q) <= Get(have, q);
    }
    AboveMarksIsNotTruncated(v.nodes[p].db, have, want, ranges);
    assert Get(ProgressOf(v.nodes[p].db, r), o) <= Get(have, o);
  }

  /** In particular r's own vector is never behind its record at p. */
  lemma RecordIsNeverAhead(reg: Registry, moves: seq<Move>, p: Origin, r: Origin)
    requires Legal(reg, EMPTY, moves) && p != r
    requires p in AfterAll(reg, EMPTY, moves).nodes && r in AfterAll(reg, EMPTY, moves).nodes
    ensures var w := AfterAll(reg, EMPTY, moves);
            AtMost(ProgressOf(w.nodes[p].db, r), LocalVector(w.nodes[r].db))
  {
    hide AfterAll, Legal, LocalVector;
    RunIsConsistent(reg, moves);
    RecordOrNothingBacked(AfterAll(reg, EMPTY, moves), p, r);
  }

  lemma RecordOrNothingBacked(w: World, p: Origin, r: Origin)
    requires p in w.nodes && r in w.nodes && NodeConsistent(w, p) && r != p
    ensures Backed(w, r, ProgressOf(w.nodes[p].db, r))
  {
  }

  // ----- A node's own log -----

  /** Only a batch with own events or a seed vector with an own entry gives a
      node a cursor for its own log; a session never records one. */
  ghost predicate BringsOwnCursor(m: Move, p: Origin) {
    && m.Local? && m.at == p
    && match m.step
       case Batch(es, _) => p in Origins(es)
       case Load(v, _, _) => Get(v, p) > 0
       case _ => false
  }

  ghost predicate NoOwnCursor(moves: seq<Move>, p: Origin) {
    forall i :: 0 <= i < |moves| ==> !BringsOwnCursor(moves[i], p)
  }

  lemma StepKeepsOwnCursor(reg: Registry, n: Node, step: Replica.Step)
    requires Cursor(n.db, n.db.local.self) == 0
    requires step.Batch? ==> n.db.local.self !in Origins(step.events)
    requires step.Load? ==> Get(step.vector, n.db.local.self) == 0
    ensures Cursor(Next(reg, n, step).db, n.db.local.self) == 0
  {
    hide Applied, IsEmpty, Captured;
    var self := n.db.local.self;
    match step
    case Batch(es, clock) =>
      if Applied(reg, n.db, es, clock).Ok? {
        BatchCursors(reg, n.db, es, clock, self);
      }
    case Write(spec, c, wall, id) => CapturedLog(spec, n.db, c, wall, id, self);
    case Load(_, _, _) =>
    case AbortedLoad(_) =>
    case Record(_, _) =>
    case Collect(_, _) =>
    case Members(_) =>
  }

  lemma MoveKeepsOwnCursor(reg: Registry, w: World, m: Move, p: Origin)
    requires Enabled(reg, w, m) && Consistent(w) && !BringsOwnCursor(m, p)
    requires p in w.nodes ==> Cursor(w.nodes[p].db, p) == 0
    ensures p in After(reg, w, m).nodes ==> Cursor(After(reg, w, m).nodes[p].db, p) == 0
  {
    hide Next, IsCycle, Sound;
    assert p in w.nodes ==> NodeConsistent(w, p);
    match m
    case Enter(_) =>
    case Local(at, step) => if p == at { StepKeepsOwnCursor(reg, w.nodes[p], step); }
    case SendAck(_, _) =>
    case RecordAck(a) => if p == a.to { StepKeepsOwnCursor(reg, w.nodes[p], Record(a.from, a.vector)); }
    case Cycle(at, after, limit) => if p == at { CycleCursors(w.nodes[p].db, after, limit); }
    case Reconfigure(_, _, _, _) =>
  }

  lemma {:induction false} OwnCursorStaysZero(reg: Registry, moves: seq<Move>, p: Origin)
    requires Legal(reg, EMPTY, moves) && NoOwnCursor(moves, p)
    ensures p in AfterAll(reg, EMPTY, moves).nodes ==> Cursor(AfterAll(reg, EMPTY, moves).nodes[p].db, p) == 0
  {
    hide Enabled, After, Consistent, BringsOwnCursor, Cursor;
    if moves != [] {
      var init, m := moves[..|moves| - 1], moves[|moves| - 1];
      assert forall i :: 0 <= i < |init| ==> init[i] == moves[i];
      OwnCursorStaysZero(reg, init, p);
      RunIsConsistent(reg, init);
      MoveKeepsOwnCursor(reg, AfterAll(reg, EMPTY, init), m, p);
    }
  }

  /** Own rows of p survive a move. */
  lemma MoveKeepsOwnLog(reg: Registry, w: World, m: Move, p: Origin)
    requires Enabled(reg, w, m) && Consistent(w) && p in w.nodes && Cursor(w.nodes[p].db, p) == 0
    requires m.Cycle? && m.at == p ==> p in Receivers(w.nodes[p].db)
    ensures p in After(reg, w, m).nodes
    ensures Present(w.nodes[p].db, p) <= Present(After(reg, w, m).nodes[p].db, p)
  {
    hide Next, IsCycle, Sound, Present, Receivers, Cursor;
    assert NodeConsistent(w, p);
    match m
    case Enter(_) =>
    case Local(at, step) => if p == at { StepGrows(reg, w.nodes[p], step, p); }
    case SendAck(_, _) =>
    case RecordAck(a) => if p == a.to { StepGrows(reg, w.nodes[p], Record(a.from, a.vector), p); }
    case Cycle(at, after, limit) =>
      if p == at {
        OwnLogIsRetained(w.nodes[p].db, after, limit);
        SameEventsPresent(w.nodes[p].db, after, p);
      }
    case Reconfigure(at, _, _, _) => if p == at { SameLogPresent(w.nodes[p].db, After(reg, w, m).nodes[p].db, p); }
  }

  lemma SameEventsPresent(a: Db, b: Db, o: Origin)
    requires EventsOf(a, o) == EventsOf(b, o)
    ensures Present(a, o) == Present(b, o)
  {
  }

  lemma {:induction false} OwnLogKept(reg: Registry, w: World, moves: seq<Move>, p: Origin)
    requires Consistent(w) && Legal(reg, w, moves) && p in w.nodes && Cursor(w.nodes[p].db, p) == 0
    requires CountsReceiver(reg, w, moves, p, p) && NoOwnCursor(moves, p)
    ensures Consistent(AfterAll(reg, w, moves)) && p in AfterAll(reg, w, moves).nodes
    ensures Cursor(AfterAll(reg, w, moves).nodes[p].db, p) == 0
    ensures Present(w.nodes[p].db, p) <= Present(AfterAll(reg, w, moves).nodes[p].db, p)
  {
    hide Enabled, After, Consistent, BringsOwnCursor, Cursor, Present, Receivers;
    if moves != [] {
      var init, m := moves[..|moves| - 1], moves[|moves| - 1];
      assert forall i :: 0 <= i < |init| ==> init[i] == moves[i];
      OwnLogKept(reg, w, init, p);
      var now := AfterAll(reg, w, init);
      MoveKeepsConsistent(reg, now, m);
      MoveKeepsOwnCursor(reg, now, m, p);
      MoveKeepsOwnLog(reg, now, m, p);
    }
  }

  /** A node that counts itself among the ACTIVE receivers, and never takes an
      own-origin cursor from a batch or a seed, never collects a row of its own
      log, whatever everyone else has acknowledged. */
  lemma OwnLogNeverShrinks(reg: Registry, before: seq<Move>, moves: seq<Move>, p: Origin)
    requires Legal(reg, EMPTY, before) && NoOwnCursor(before, p) && NoOwnCursor(moves, p)
    requires var w := AfterAll(reg, EMPTY, before);
             p in w.nodes && Legal(reg, w, moves) && CountsReceiver(reg, w, moves, p, p)
    ensures var w := AfterAll(reg, EMPTY, before);
            var v := AfterAll(reg, w, moves);
            p in v.nodes && Present(w.nodes[p].db, p) <= Present(v.nodes[p].db, p)
  {
    hide AfterAll, Legal, CountsReceiver, Consistent, NoOwnCursor, Cursor, Present;
    RunIsConsistent(reg, before);
    OwnCursorStaysZero(reg, before, p);
    OwnLogKept(reg, AfterAll(reg, EMPTY, before), moves, p);
  }
}
