/** From the moment a seed is prepared until its joiner is first on record:
    what a source keeps for a joiner that nothing protects once the session is
    closed (internal/seed/source.go, internal/gc/gc.go). */
module SeedGap {
  import opened Changelog
  import opened Store
  import Apply
  import opened Gc
  import opened Collection
  import opened Seed
  import Replica
  import Mesh
  import Seeding

  /** Everything of `kept` above the bar is in the log, and no request above
      the bar is refused. */
  ghost predicate Retains(db: Db, o: Origin, bar: nat, kept: set<nat>) {
    && Mark(db, o) <= bar
    && forall k :: k in kept && k > bar ==> k in Present(db, o)
  }

  /** A cycle whose watermark stays at or below the bar, or one whose bounded
      DELETE was used up on rows not kept above the bar. */
  ghost predicate Spares(before: Db, after: Db, limit: nat, o: Origin, bar: nat, kept: set<nat>) {
    var w := Get(Watermark(before), o);
    || w <= bar
    || (|Below(before, o, w)| >= limit && forall k :: k in kept && k > bar ==> k in Present(after, o))
  }

  lemma CycleRetainsIff(before: Db, after: Db, limit: nat, o: Origin, bar: nat, kept: set<nat>)
    requires IsCycle(before, after, limit) && Retains(before, o, bar, kept)
    ensures Retains(after, o, bar, kept) <==> Spares(before, after, limit, o, bar, kept)
  {
    hide Watermark, StaleView;
    var w := Get(Watermark(before), o);
    if w > 0 {
      var victims :| IsPick(Below(before, o, w), limit, victims) && OriginLost(before, after, o, w, victims, limit);
    }
  }

  /** Below the limit, that is the watermark alone. */
  lemma FullCycleRetainsIff(before: Db, after: Db, limit: nat, o: Origin, bar: nat, kept: set<nat>)
    requires IsCycle(before, after, limit) && Retains(before, o, bar, kept)
    requires |Below(before, o, Get(Watermark(before), o))| < limit
    ensures Retains(after, o, bar, kept) <==> Get(Watermark(before), o) <= bar
  {
    hide Retains, IsCycle, Watermark;
    CycleRetainsIff(before, after, limit, o, bar, kept);
  }

  // ----- Over a run -----

  lemma MoveRetains(reg: Apply.Registry, w: Mesh.World, m: Mesh.Move, p: Origin, o: Origin, bar: nat, kept: set<nat>)
    requires Mesh.Enabled(reg, w, m) && p in w.nodes && Retains(w.nodes[p].db, o, bar, kept)
    requires !(m.Cycle? && m.at == p)
    ensures p in Mesh.After(reg, w, m).nodes && Retains(Mesh.After(reg, w, m).nodes[p].db, o, bar, kept)
  {
    hide Replica.Next, IsCycle, Present, Mark;
    var v := Mesh.After(reg, w, m);
    match m
    case Enter(_) =>
    case Local(at, step) =>
      if p == at {
        Mesh.StepGrows(reg, w.nodes[p], step, o);
        Seeding.StepKeepsSeeds(reg, w.nodes[p], step);
        Mesh.SameMeta(w.nodes[p].db, v.nodes[p].db, o);
      }
    case SendAck(_, _) =>
    case RecordAck(a) =>
      if p == a.to {
        Mesh.StepGrows(reg, w.nodes[p], Replica.Record(a.from, a.vector), o);
        Seeding.StepKeepsSeeds(reg, w.nodes[p], Replica.Record(a.from, a.vector));
        Mesh.SameMeta(w.nodes[p].db, v.nodes[p].db, o);
      }
    case Cycle(_, _, _) =>
    case Reconfigure(at, _, _, _) =>
      if p == at {
        Mesh.SameLogPresent(w.nodes[p].db, v.nodes[p].db, o);
        Mesh.SameProgress(w.nodes[p].db, v.nodes[p].db, o, o);
      }
  }

  lemma {:induction false} LegalPrefix(reg: Apply.Registry, w: Mesh.World, moves: seq<Mesh.Move>, n: nat)
    requires Mesh.Legal(reg, w, moves) && n <= |moves|
    ensures Mesh.Legal(reg, w, moves[..n])
    decreases |moves|
  {
    hide Mesh.Enabled;
    if n < |moves| {
      var init := moves[..|moves| - 1];
      LegalPrefix(reg, w, init, n);
      assert init[..n] == moves[..n];
    } else {
      assert moves[..n] == moves;
    }
  }

  /** The mesh after the first `n` moves. */
  ghost function At(reg: Apply.Registry, w: Mesh.World, moves: seq<Mesh.Move>, n: nat): Mesh.World
    requires Mesh.Legal(reg, w, moves) && n <= |moves|
  {
    LegalPrefix(reg, w, moves, n);
    Mesh.AfterAll(reg, w, moves[..n])
  }

  lemma AtNext(reg: Apply.Registry, w: Mesh.World, moves: seq<Mesh.Move>, n: nat)
    requires Mesh.Legal(reg, w, moves) && n < |moves|
    ensures Mesh.Enabled(reg, At(reg, w, moves, n), moves[n])
    ensures At(reg, w, moves, n + 1) == Mesh.After(reg, At(reg, w, moves, n), moves[n])
  {
    hide Mesh.Enabled, Mesh.After;
    LegalPrefix(reg, w, moves, n + 1);
    var longer := moves[..n + 1];
    assert longer[..|longer| - 1] == moves[..n] && longer[|longer| - 1] == moves[n];
  }

  ghost predicate RetainsAt(reg: Apply.Registry, w: Mesh.World, moves: seq<Mesh.Move>, n: nat,
                            p: Origin, o: Origin, bar: nat, kept: set<nat>)
    requires Mesh.Legal(reg, w, moves) && n <= |moves|
  {
    var v := At(reg, w, moves, n);
    p in v.nodes && Retains(v.nodes[p].db, o, bar, kept)
  }

  ghost predicate SparesAt(reg: Apply.Registry, w: Mesh.World, moves: seq<Mesh.Move>, n: nat,
                           p: Origin, o: Origin, bar: nat, kept: set<nat>)
    requires Mesh.Legal(reg, w, moves) && n < |moves|
  {
    var v := At(reg, w, moves, n);
    moves[n].Cycle? && moves[n].at == p ==>
      p in v.nodes && Spares(v.nodes[p].db, moves[n].after, moves[n].limit, o, bar, kept)
  }

  lemma NextRetainsIff(reg: Apply.Registry, w: Mesh.World, moves: seq<Mesh.Move>, n: nat,
                       p: Origin, o: Origin, bar: nat, kept: set<nat>)
    requires Mesh.Legal(reg, w, moves) && n < |moves| && RetainsAt(reg, w, moves, n, p, o, bar, kept)
    ensures RetainsAt(reg, w, moves, n + 1, p, o, bar, kept) <==> SparesAt(reg, w, moves, n, p, o, bar, kept)
  {
    hide Mesh.Legal, At, Retains, Spares, IsCycle;
    AtNext(reg, w, moves, n);
    var v, m := At(reg, w, moves, n), moves[n];
    if m.Cycle? && m.at == p {
      CycleRetainsIff(v.nodes[p].db, m.after, m.limit, o, bar, kept);
    } else {
      MoveRetains(reg, v, m, p, o, bar, kept);
    }
  }

  lemma {:induction false} SparedRetains(reg: Apply.Registry, w: Mesh.World, moves: seq<Mesh.Move>, from: nat, n: nat,
                                         p: Origin, o: Origin, bar: nat, kept: set<nat>)
    requires Mesh.Legal(reg, w, moves) && from <= n <= |moves| && RetainsAt(reg, w, moves, from, p, o, bar, kept)
    requires forall j :: from <= j < |moves| ==> SparesAt(reg, w, moves, j, p, o, bar, kept)
    ensures RetainsAt(reg, w, moves, n, p, o, bar, kept)
    decreases n
  {
    hide Mesh.Legal, RetainsAt, SparesAt;
    if from < n {
      SparedRetains(reg, w, moves, from, n - 1, p, o, bar, kept);
      NextRetainsIff(reg, w, moves, n - 1, p, o, bar, kept);
    }
  }

  /** A lone session is prepared at p on `db`, stands for the first `m` moves,
      and is then closed. From its snapshot vector on, p keeps an origin's rows
      and refuses no request, all the way, exactly when every cycle p runs after
      the close spares them; the cycles before need no condition. */
  lemma SeedToRecordIff(reg: Apply.Registry, w: Mesh.World, moves: seq<Mesh.Move>, m: nat, p: Origin,
                        db: Db, req: Request, o: Origin, kept: set<nat>)
    requires Mesh.Legal(reg, w, moves) && m <= |moves| && p in w.nodes
    requires StartedSeeds(db) == {} && req.bootstrapId !in db.seeds.pins
    requires w.nodes[p].db.seeds == Prepared(db, req).seeds
    requires Seeding.KeepsSeeds(moves[..m], p, Prepared(db, req).seeds)
    requires Retains(w.nodes[p].db, o, Get(LocalVector(db), o), kept)
    ensures var bar := Get(LocalVector(db), o);
            (forall n :: 0 <= n <= |moves| ==> RetainsAt(reg, w, moves, n, p, o, bar, kept)) <==>
            (forall n :: m <= n < |moves| ==> SparesAt(reg, w, moves, n, p, o, bar, kept))
  {
    hide Mesh.Legal, RetainsAt, SparesAt, LocalVector, Prepared, StartedSeeds, Retains;
    var bar := Get(LocalVector(db), o);
    forall n | 0 <= n <= m
      ensures RetainsAt(reg, w, moves, n, p, o, bar, kept)
    {
      PinnedRetains(reg, w, moves, m, n, p, db, req, o, kept);
    }
    if forall n :: m <= n < |moves| ==> SparesAt(reg, w, moves, n, p, o, bar, kept) {
      forall n | m <= n <= |moves|
        ensures RetainsAt(reg, w, moves, n, p, o, bar, kept)
      {
        SparedRetains(reg, w, moves, m, n, p, o, bar, kept);
      }
    }
    if forall n :: 0 <= n <= |moves| ==> RetainsAt(reg, w, moves, n, p, o, bar, kept) {
      forall n | m <= n < |moves|
        ensures SparesAt(reg, w, moves, n, p, o, bar, kept)
      {
        NextRetainsIff(reg, w, moves, n, p, o, bar, kept);
      }
    }
  }

  lemma PinnedRetains(reg: Apply.Registry, w: Mesh.World, moves: seq<Mesh.Move>, m: nat, n: nat, p: Origin,
                      db: Db, req: Request, o: Origin, kept: set<nat>)
    requires Mesh.Legal(reg, w, moves) && n <= m <= |moves| && p in w.nodes
    requires StartedSeeds(db) == {} && req.bootstrapId !in db.seeds.pins
    requires w.nodes[p].db.seeds == Prepared(db, req).seeds
    requires Seeding.KeepsSeeds(moves[..m], p, Prepared(db, req).seeds)
    requires Retains(w.nodes[p].db, o, Get(LocalVector(db), o), kept)
    ensures RetainsAt(reg, w, moves, n, p, o, Get(LocalVector(db), o), kept)
  {
    hide Mesh.Legal, Mesh.AfterAll, LocalVector, Prepared, StartedSeeds, Present, Mark;
    LegalPrefix(reg, w, moves, n);
    var bar := Get(LocalVector(db), o);
    assert forall i :: 0 <= i < n ==> moves[..n][i] == moves[..m][i];
    Seeding.PreparedSeedStaysProtected(reg, w, moves[..n], p, db, req, o, bar + 1);
    forall k | k in kept && k > bar
      ensures k in Present(At(reg, w, moves, n).nodes[p].db, o)
    {
      Seeding.PreparedSeedStaysProtected(reg, w, moves[..n], p, db, req, o, k);
    }
  }

  // ----- What it means for the joiner -----

  /** Once p has recorded a vector of the joiner that is not behind the
      snapshot's, the record takes over: as long as every cycle counts the
      joiner, all above its record stays, and no request above it is refused. */
  lemma RecordTakesOver(reg: Apply.Registry, w: Mesh.World, later: seq<Mesh.Move>, p: Origin, r: Origin,
                        o: Origin, bar: nat, kept: set<nat>)
    requires Mesh.Consistent(w) && Mesh.Legal(reg, w, later) && p in w.nodes && p != r
    requires Retains(w.nodes[p].db, o, bar, kept) && bar <= Get(ProgressOf(w.nodes[p].db, r), o)
    requires Mesh.CountsReceiver(reg, w, later, p, r)
    ensures p in Mesh.AfterAll(reg, w, later).nodes
    ensures Mesh.RetainsFor(Mesh.AfterAll(reg, w, later).nodes[p].db, r, o, kept)
  {
    hide Mesh.Legal, Mesh.Consistent, Mesh.AfterAll, Mesh.CountsReceiver, Present, Mark, ProgressOf;
    Mesh.RunRetains(reg, w, later, p, r, o, kept);
  }
}
