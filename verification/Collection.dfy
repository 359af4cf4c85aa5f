/** Bounded deletion below the watermarks, and what any number of GC cycles
    keep and finish (internal/gc/gc.go, DeleteThrough in internal/store). */
module Collection {
  import opened Changelog
  import opened Store
  import opened Gc

  /** Log rows of one origin at or below a sequence. */
  function Below(db: Db, o: Origin, through: nat): set<nat> {
    set n | n in Present(db, o) && n <= through
  }

  function Mark(db: Db, o: Origin): nat {
    Get(db.meta.gcMarks, o)
  }

  /** A bounded DELETE removes as many rows as the limit allows, whichever
      rows the server picks. */
  ghost predicate IsPick(rows: set<nat>, limit: nat, victims: set<nat>) {
    victims <= rows && |victims| == if |rows| < limit then |rows| else limit
  }

  function EffectiveLimit(limit: int): nat {
    if limit <= 0 then DEFAULT_LIMIT else limit
  }

  /** The mark moves only when the batch proves nothing remains. It is
      overwritten, even by a smaller value. */
  function AfterDelete(db: Db, o: Origin, through: nat, victims: set<nat>, limit: nat): Db {
    var deleted := WithoutEvents(db, o, victims);
    if |victims| < limit then deleted.(meta := deleted.meta.(gcMarks := deleted.meta.gcMarks[o := through]))
    else deleted
  }

  method DeleteThrough(db: Database, o: Origin, through: nat, limit: int) returns (n: nat, ghost victims: set<nat>)
    modifies db`log, db`meta
    ensures IsPick(Below(old(db.View()), o, through), EffectiveLimit(limit), victims)
    ensures db.View() == AfterDelete(old(db.View()), o, through, victims, EffectiveLimit(limit))
    ensures n == |victims| && forall k :: k in victims ==> k <= through
    ensures forall p :: Present(db.View(), p) == Present(old(db.View()), p) - if p == o then victims else {}
    ensures limit > 0 ==> n <= limit
    ensures limit <= 0 ==> n <= 1000
    ensures n < (if limit > 0 then limit else 1000) ==>
              db.meta.gcMarks == old(db.meta.gcMarks)[o := through] && forall k :: k in Present(db.View(), o) ==>
                                                                                     k > through
    ensures n >= (if limit > 0 then limit else 1000) ==> db.meta.gcMarks == old(db.meta.gcMarks)
  {
    hide IsPick, Present;
    ghost var begun := db.View();
    var max := EffectiveLimit(limit);
    var rows := if o in db.log then db.log[o] else map[];
    var picked := PickRows(rows.Keys, through, max);
    BelowIs(begun, o, through);
    PickIsSmall(Below(begun, o, through), max, picked);
    DeletedAre(begun, o, through, picked, max);
    db.log := db.log[o := rows - picked];
    n, victims := |picked|, picked;
    if n < max {
      db.meta := db.meta.(gcMarks := db.meta.gcMarks[o := through]);
    }
    ghost var after := db.View();
    assert after == AfterDelete(begun, o, through, picked, max);
  }

  /** The rows the server takes for the bounded DELETE, one after the other. */
  method PickRows(present: set<nat>, through: nat, max: nat) returns (picked: set<nat>)
    ensures IsPick((set k | k in present && k <= through), max, picked)
  {
    picked := {};
    ghost var all := set k | k in present && k <= through;
    while |picked| < max && exists k :: k in present - picked && k <= through
      invariant picked <= all && |picked| <= max
      decreases |all - picked|
    {
      var k :| k in present - picked && k <= through;
      assert k in all - picked;
      assert all - (picked + {k}) < all - picked by { assert k !in all - (picked + {k}); }
      SmallerSubset(all - (picked + {k}), all - picked);
      picked := picked + {k};
    }
    if |picked| < max {
      forall k | k in all
        ensures k in picked
      {
        assert k in picked || k in present - picked;
      }
      assert picked == all;
    } else {
      SubsetSize(picked, all);
    }
  }

  lemma BelowIs(db: Db, o: Origin, through: nat)
    ensures Below(db, o, through) == set k | k in EventsOf(db, o).Keys && k <= through
  {
  }

  lemma PickIsSmall(rows: set<nat>, limit: nat, victims: set<nat>)
    requires IsPick(rows, limit, victims)
    ensures |victims| <= limit
  {
  }

  lemma DeletedAre(db: Db, o: Origin, through: nat, victims: set<nat>, limit: nat)
    requires IsPick(Below(db, o, through), limit, victims)
    ensures var after := AfterDelete(db, o, through, victims, limit);
            && (forall p :: Present(after, p) == Present(db, p) - if p == o then victims else {})
            && (|victims| < limit ==> forall k :: k in Present(after, o) ==> k > through)
    ensures forall k :: k in victims ==> k <= through
  {
    var after := AfterDelete(db, o, through, victims, limit);
    forall p
      ensures Present(after, p) == if p == o then Present(db, o) - victims else Present(db, p)
    {
      assert EventsOf(after, p) == if p == o then EventsOf(db, o) - victims else EventsOf(db, p);
    }
    if |victims| < limit {
      if victims != Below(db, o, through) {
        SmallerSubset(victims, Below(db, o, through));
        assert false;
      }
      assert forall k :: k in Present(db, o) && k <= through ==> k in Below(db, o, through);
    }
  }

  /** Every (origin, sequence) in the log. */
  function LogRows(db: Db): set<(Origin, nat)> {
    set o, n | o in db.log && n in db.log[o] :: (o, n)
  }

  function Pairs(o: Origin, ns: set<nat>): set<(Origin, nat)> {
    set n | n in ns :: (o, n)
  }

  lemma {:induction false} PairsSize(o: Origin, ns: set<nat>)
    ensures |Pairs(o, ns)| == |ns|
  {
    if ns == {} {
      assert Pairs(o, ns) == {};
    } else {
      var n :| n in ns;
      PairsSize(o, ns - {n});
      assert Pairs(o, ns) == Pairs(o, ns - {n}) + {(o, n)};
      assert (o, n) !in Pairs(o, ns - {n});
    }
  }

  lemma LogRowsAfter(db: Db, o: Origin, victims: set<nat>)
    ensures LogRows(WithoutEvents(db, o, victims)) == LogRows(db) - Pairs(o, victims)
  {
    var after := WithoutEvents(db, o, victims);
    forall q: Origin, n: nat
      ensures (q, n) in LogRows(after) <==> (q, n) in LogRows(db) && !(q == o && n in victims)
    {
      assert (q, n) in LogRows(after) <==> n in Present(after, q);
      assert (q, n) in LogRows(db) <==> n in Present(db, q);
    }
    forall p: (Origin, nat)
      ensures p in Pairs(o, victims) <==> p.0 == o && p.1 in victims
    {
      assert p.0 == o && p.1 in victims ==> p == (o, p.1);
    }
  }

  lemma DeleteCounts(db: Db, o: Origin, through: nat, victims: set<nat>, limit: nat)
    requires victims <= Below(db, o, through)
    ensures |LogRows(AfterDelete(db, o, through, victims, limit))| + |victims| == |LogRows(db)|
  {
    hide LogRows, Pairs;
    PairsSize(o, victims);
    LogRowsAfter(db, o, victims);
    assert LogRows(AfterDelete(db, o, through, victims, limit)) == LogRows(WithoutEvents(db, o, victims)) by {
      SameLogRows(AfterDelete(db, o, through, victims, limit), WithoutEvents(db, o, victims));
    }
    assert Pairs(o, victims) <= LogRows(db) by {
      PairsWithin(db, o, through, victims);
    }
    assert LogRows(db) == (LogRows(db) - Pairs(o, victims)) + Pairs(o, victims);
  }

  lemma SameLogRows(a: Db, b: Db)
    requires a.log == b.log
    ensures LogRows(a) == LogRows(b)
  {
  }

  lemma PairsWithin(db: Db, o: Origin, through: nat, victims: set<nat>)
    requires victims <= Below(db, o, through)
    ensures Pairs(o, victims) <= LogRows(db)
  {
  }

  lemma {:induction false} SubsetSize<T>(a: set<T>, b: set<T>)
    requires a <= b
    ensures |a| <= |b|
  {
    assert b == a + (b - a);
  }

  lemma SmallerSubset<T>(a: set<T>, b: set<T>)
    requires a < b
    ensures |a| < |b|
  {
    var x :| x in b && x !in a;
    SubsetSize(a, b - {x});
  }

  // ----- One cycle -----

  /** What a cycle does to one origin. */
  ghost predicate OriginCollected(before: Db, after: Db, o: Origin, through: nat, limit: nat) {
    exists victims :: IsPick(Below(before, o, through), limit, victims)
                      && OriginLost(before, after, o, through, victims, limit)
  }

  ghost predicate OriginLost(before: Db, after: Db, o: Origin, through: nat, victims: set<nat>, limit: nat) {
    && EventsOf(after, o) == EventsOf(before, o) - victims
    && Mark(after, o) == if |victims| < limit then through else Mark(before, o)
  }

  ghost predicate OriginKept(before: Db, after: Db, o: Origin) {
    EventsOf(after, o) == EventsOf(before, o) && Mark(after, o) == Mark(before, o)
  }

  /** Everything a cycle does not touch. */
  ghost predicate SameButLog(before: Db, after: Db) {
    && after.tables == before.tables && after.progress == before.progress && after.local == before.local
    && after.nodes == before.nodes && after.seeds == before.seeds && after.meta.epoch == before.meta.epoch
  }

  /** One GC cycle that found a current membership view. */
  ghost predicate IsCycle(before: Db, after: Db, limit: nat) {
    && !StaleView(before) && SameButLog(before, after)
    && forall o ::
         if Get(Watermark(before), o) > 0
         then OriginCollected(before, after, o, Get(Watermark(before), o), limit)
         else OriginKept(before, after, o)
  }

  datatype CycleResult = CycleResult(watermarks: Vector, deleted: nat, origins: nat)

  method Run(db: Database, batchLimit: int) returns (r: Result<CycleResult>)
    modifies db`log, db`meta
    ensures StaleView(old(db.View())) ==> r == Err(StaleMembership) && db.View() == old(db.View())
    ensures !StaleView(old(db.View())) ==>
              && r.Ok? && r.value.watermarks == Watermark(old(db.View()))
              && IsCycle(old(db.View()), db.View(), EffectiveLimit(batchLimit))
    ensures r.Err? <==> exists id :: id in old(db.nodes) && old(db.nodes)[id].epoch > old(db.meta.epoch)
    ensures r.Ok? && batchLimit > 0 ==> IsCycle(old(db.View()), db.View(), batchLimit)
    ensures r.Ok? && batchLimit <= 0 ==> IsCycle(old(db.View()), db.View(), 1000)
    ensures r.Ok? ==> forall o :: |Present(old(db.View()), o) - Present(db.View(), o)|
                                  <= if batchLimit > 0 then batchLimit else 1000
    ensures r.Ok? ==> |LogRows(db.View())| + r.value.deleted == |LogRows(old(db.View()))|
    ensures r.Ok? ==> r.value.origins == |set o | o in r.value.watermarks && r.value.watermarks[o] > 0|
  {
    hide Watermark, StaleView, CycleSoFar, AfterDelete, Below, LogRows;
    ghost var before := db.View();
    var computed := Watermarks(db);
    if computed.Err? {
      return Err(StaleMembership);
    }
    var wm := computed.value;
    var limit := EffectiveLimit(batchLimit);
    var deleted, origins := 0, 0;
    var todo := wm.Keys;
    CycleStarts(before, wm, limit);
    assert Positive(wm, todo) == {};
    while todo != {}
      invariant todo <= wm.Keys && CycleSoFar(before, db.View(), wm, todo, limit)
      invariant origins == |Positive(wm, todo)|
      invariant |LogRows(db.View())| + deleted == |LogRows(before)|
    {
      var o :| o in todo;
      if wm[o] == 0 {
        SkipOrigin(before, db.View(), wm, todo, o, limit);
        assert Positive(wm, todo - {o}) == Positive(wm, todo);
      } else {
        ghost var now := db.View();
        var n;
        ghost var victims;
        n, victims := DeleteThrough(db, o, wm[o], limit);
        CollectOneMore(before, now, db.View(), wm, todo, o, victims, limit);
        DeleteCounts(now, o, wm[o], victims, limit);
        assert Positive(wm, todo - {o}) == Positive(wm, todo) + {o};
        deleted := deleted + n;
        origins := origins + 1;
      }
      todo := todo - {o};
    }
    CycleEnds(before, db.View(), wm, limit);
    CycleRemovesAtMost(before, db.View(), limit);
    assert Positive(wm, {}) == set o | o in wm && wm[o] > 0;
    return Ok(CycleResult(wm, deleted, origins));
  }

  lemma CycleRemovesAtMost(before: Db, after: Db, limit: nat)
    requires IsCycle(before, after, limit)
    ensures forall o :: |Present(before, o) - Present(after, o)| <= limit
  {
    hide Watermark, StaleView;
    hide OriginCollected, OriginKept, Present;
    forall o
      ensures |Present(before, o) - Present(after, o)| <= limit
    {
      if Get(Watermark(before), o) > 0 {
        OriginLosesAtMost(before, after, o, Get(Watermark(before), o), limit);
      } else {
        KeptLosesNothing(before, after, o);
      }
    }
  }

  lemma OriginLosesAtMost(before: Db, after: Db, o: Origin, w: nat, limit: nat)
    requires OriginCollected(before, after, o, w, limit)
    ensures |Present(before, o) - Present(after, o)| <= limit
  {
    var victims :| IsPick(Below(before, o, w), limit, victims) && OriginLost(before, after, o, w, victims, limit);
    assert |victims| <= limit && victims <= Present(before, o);
    assert Present(after, o) == Present(before, o) - victims;
    TakenAway(Present(before, o), victims);
  }

  lemma TakenAway<T>(all: set<T>, part: set<T>)
    requires part <= all
    ensures all - (all - part) == part
  {
  }

  lemma KeptLosesNothing(before: Db, after: Db, o: Origin)
    requires OriginKept(before, after, o)
    ensures |Present(before, o) - Present(after, o)| == 0
  {
    assert Present(before, o) - Present(after, o) == {};
  }

  /** The origins already collected. */
  function Positive(wm: Vector, todo: set<Origin>): set<Origin> {
    set o | o in wm && wm[o] > 0 && o !in todo
  }

  /** The cycle has finished every origin but `todo`. */
  ghost predicate CycleSoFar(before: Db, now: Db, wm: Vector, todo: set<Origin>, limit: nat) {
    && SameButLog(before, now)
    && forall o ::
         if Get(wm, o) > 0 && o !in todo
         then OriginCollected(before, now, o, Get(wm, o), limit)
         else OriginKept(before, now, o)
  }

  lemma CycleStarts(before: Db, wm: Vector, limit: nat)
    ensures CycleSoFar(before, before, wm, wm.Keys, limit)
  {
  }

  lemma CycleEnds(before: Db, after: Db, wm: Vector, limit: nat)
    requires !StaleView(before) && wm == Watermark(before) && CycleSoFar(before, after, wm, {}, limit)
    ensures IsCycle(before, after, limit)
  {
  }

  lemma SkipOrigin(before: Db, now: Db, wm: Vector, todo: set<Origin>, o: Origin, limit: nat)
    requires CycleSoFar(before, now, wm, todo, limit) && Get(wm, o) == 0
    ensures CycleSoFar(before, now, wm, todo - {o}, limit)
  {
  }

  lemma CollectOneMore(before: Db, now: Db, after: Db, wm: Vector, todo: set<Origin>, o: Origin, victims: set<nat>,
                       limit: nat)
    requires CycleSoFar(before, now, wm, todo, limit) && o in todo && Get(wm, o) > 0
    requires IsPick(Below(now, o, Get(wm, o)), limit, victims)
    requires after == AfterDelete(now, o, Get(wm, o), victims, limit)
    ensures CycleSoFar(before, after, wm, todo - {o}, limit)
  {
    hide OriginCollected, OriginKept, AfterDelete, IsPick, Below;
    OneOriginDone(before, now, after, o, Get(wm, o), victims, limit);
    forall p
      ensures if Get(wm, p) > 0 && p !in todo - {o}
              then OriginCollected(before, after, p, Get(wm, p), limit) else OriginKept(before, after, p)
    {
      if p != o {
        OtherOriginSame(before, now, after, o, Get(wm, o), victims, limit, p, Get(wm, p));
      }
    }
  }

  lemma OneOriginDone(before: Db, now: Db, after: Db, o: Origin, through: nat, victims: set<nat>, limit: nat)
    requires OriginKept(before, now, o) && IsPick(Below(now, o, through), limit, victims)
    requires after == AfterDelete(now, o, through, victims, limit)
    ensures OriginCollected(before, after, o, through, limit) && SameButLog(now, after)
  {
    assert Below(before, o, through) == Below(now, o, through);
    assert OriginLost(before, after, o, through, victims, limit);
  }

  lemma OtherOriginSame(before: Db, now: Db, after: Db, o: Origin, through: nat, victims: set<nat>, limit: nat,
                        p: Origin, w: nat)
    requires after == AfterDelete(now, o, through, victims, limit) && p != o
    ensures OriginKept(before, now, p) ==> OriginKept(before, after, p)
    ensures OriginCollected(before, now, p, w, limit) ==> OriginCollected(before, after, p, w, limit)
  {
    assert EventsOf(after, p) == EventsOf(now, p) && Mark(after, p) == Mark(now, p);
    if OriginCollected(before, now, p, w, limit) {
      var gone :| IsPick(Below(before, p, w), limit, gone) && OriginLost(before, now, p, w, gone, limit);
      assert OriginLost(before, after, p, w, gone, limit);
    }
  }

  // ----- Safety of a cycle -----

  /** Whatever a cycle removes, every ACTIVE receiver on record has
      acknowledged, and every merged seed pin covers. */
  lemma CycleRemovesOnlyAcknowledged(before: Db, after: Db, limit: nat, o: Origin, n: nat)
    requires IsCycle(before, after, limit) && n in Present(before, o) && n !in Present(after, o)
    ensures Receivers(before) != {}
    ensures forall r :: r in Receivers(before) ==> n <= Get(before.progress[r], o)
    ensures StartedSeeds(before) != {} ==> n <= MergedPin(before, o)
  {
    hide Watermark, StaleView;
    WatermarkBounds(before, o);
    WatermarkDomain(before);
    var w := Get(Watermark(before), o);
    assert w > 0;
    var victims :| IsPick(Below(before, o, w), limit, victims) && OriginLost(before, after, o, w, victims, limit);
  }

  /** Exactly when history of an origin may go at all: there is a receiver on
      record, each has acknowledged something, and so has every merged pin. */
  lemma WatermarkPositiveIff(db: Db, o: Origin)
    ensures Get(Watermark(db), o) > 0 <==>
            && Receivers(db) != {}
            && (forall r :: r in Receivers(db) ==> Get(db.progress[r], o) > 0)
            && (StartedSeeds(db) != {} ==> MergedPin(db, o) > 0)
  {
    hide MergedPin, StartedSeeds, IsActive;
    WatermarkBounds(db, o);
    WatermarkDomain(db);
    if Receivers(db) != {} && forall r :: r in Receivers(db) ==> Get(db.progress[r], o) > 0 {
      var r :| r in Receivers(db);
      assert o in db.progress[r] && o in Known(db);
      WatermarkAt(db, o);
      if Watermark(db)[o] in AckValues(db, o) {
        var s :| s in Receivers(db) && Get(db.progress[s], o) == Watermark(db)[o];
      }
    }
  }

  /** A cycle changes an origin's log exactly when a row lies at or below its
      watermark. */
  lemma CycleCollectsIff(before: Db, after: Db, limit: nat, o: Origin)
    requires limit > 0 && IsCycle(before, after, limit)
    ensures EventsOf(after, o) != EventsOf(before, o) <==>
            Get(Watermark(before), o) > 0 && Below(before, o, Get(Watermark(before), o)) != {}
  {
    hide Watermark, StaleView;
    var w := Get(Watermark(before), o);
    if w > 0 {
      var victims :| IsPick(Below(before, o, w), limit, victims) && OriginLost(before, after, o, w, victims, limit);
      if Below(before, o, w) != {} {
        assert |Below(before, o, w)| > 0;
        var v :| v in victims;
        assert v in EventsOf(before, o) && v !in EventsOf(after, o);
      } else {
        assert EventsOf(before, o) - victims == EventsOf(before, o);
      }
    }
  }

  /** A node that is an ACTIVE receiver on its own record and has no cursor for
      its own log keeps that log through a cycle: every receiver must have
      acknowledged, and it never acknowledges to itself. */
  lemma OwnLogIsRetained(before: Db, after: Db, limit: nat)
    requires IsCycle(before, after, limit)
    requires before.local.self in Receivers(before) && Cursor(before, before.local.self) == 0
    ensures EventsOf(after, before.local.self) == EventsOf(before, before.local.self)
    ensures Mark(after, before.local.self) == Mark(before, before.local.self)
  {
    hide Watermark, StaleView, IsActive;
    WatermarkPositiveIff(before, before.local.self);
  }

  // ----- Many cycles -----

  /** A mark goes back exactly when a cycle that finishes the origin runs with a lower
      watermark, as after an ACTIVE receiver with an older record appears: the
      rows are gone, and requests for them are no longer refused. */
  lemma MarkLoweredIff(before: Db, after: Db, limit: nat, o: Origin)
    requires IsCycle(before, after, limit)
    ensures Mark(after, o) < Mark(before, o) <==>
            0 < Get(Watermark(before), o) < Mark(before, o) && |Below(before, o, Get(Watermark(before), o))| < limit
  {
    hide Watermark, StaleView;
    var w := Get(Watermark(before), o);
    if w > 0 {
      var victims :| IsPick(Below(before, o, w), limit, victims) && OriginLost(before, after, o, w, victims, limit);
    }
  }

  ghost predicate AreCycles(dbs: seq<Db>, limit: nat) {
    dbs != [] && forall i :: 0 <= i < |dbs| - 1 ==> IsCycle(dbs[i], dbs[i + 1], limit)
  }

  lemma CycleKeepsWatermark(before: Db, after: Db, limit: nat)
    requires IsCycle(before, after, limit)
    ensures Watermark(after) == Watermark(before)
  {
    assert Receivers(after) == Receivers(before);
    assert StartedSeeds(after) == StartedSeeds(before);
    forall o
      ensures FloorValues(after, o) == FloorValues(before, o)
    {
      assert PinValues(after, o) == PinValues(before, o);
      assert AckValues(after, o) == AckValues(before, o);
    }
    assert Known(after) == Known(before);
  }

  /** One cycle at one origin with a positive watermark. */
  lemma CycleShrinks(before: Db, after: Db, limit: nat, o: Origin)
    requires limit > 0 && IsCycle(before, after, limit) && Get(Watermark(before), o) > 0
    ensures var w := Get(Watermark(before), o);
            && Present(after, o) - Below(after, o, w) == Present(before, o) - Below(before, o, w)
            && |Below(after, o, w)| == (if |Below(before, o, w)| < limit then 0 else |Below(before, o, w)| - limit)
            && Mark(after, o) == (if |Below(before, o, w)| < limit then w else Mark(before, o))
  {
    hide Watermark, StaleView;
    var w := Get(Watermark(before), o);
    var victims :| IsPick(Below(before, o, w), limit, victims) && OriginLost(before, after, o, w, victims, limit);
    assert Below(after, o, w) == Below(before, o, w) - victims;
    assert |Below(before, o, w) - victims| == |Below(before, o, w)| - |victims|;
    assert Present(after, o) == Present(before, o) - victims;
  }

  /** With cursors, pins and membership unchanged, i cycles leave every row
      above the watermark, have deleted i full batches below it, and persist
      the mark exactly once the rows below are gone. */
  lemma {:induction false} CyclesProgress(dbs: seq<Db>, limit: nat, o: Origin, i: nat)
    requires limit > 0 && AreCycles(dbs, limit) && i < |dbs| && Get(Watermark(dbs[0]), o) > 0
    ensures Watermark(dbs[i]) == Watermark(dbs[0])
    ensures var w := Get(Watermark(dbs[0]), o);
            var rows := |Below(dbs[0], o, w)|;
            && Present(dbs[i], o) - Below(dbs[i], o, w) == Present(dbs[0], o) - Below(dbs[0], o, w)
            && |Below(dbs[i], o, w)| == (if rows < i * limit then 0 else rows - i * limit)
            && (i * limit <= rows ==> Mark(dbs[i], o) == Mark(dbs[0], o))
            && (i * limit > rows ==> Mark(dbs[i], o) == w)
  {
    hide Watermark, IsCycle, Below, Mark;
    if i > 0 {
      CyclesProgress(dbs, limit, o, i - 1);
      assert IsCycle(dbs[i - 1], dbs[i], limit);
      CycleShrinks(dbs[i - 1], dbs[i], limit, o);
      CycleKeepsWatermark(dbs[i - 1], dbs[i], limit);
      assert i * limit == (i - 1) * limit + limit;
    }
  }

  /** floor(rows / limit) + 1 cycles finish an origin: every row at or below
      the watermark is gone and the mark says so. */
  lemma CyclesFinish(dbs: seq<Db>, limit: nat, o: Origin, k: nat)
    requires limit > 0 && AreCycles(dbs, limit) && Get(Watermark(dbs[0]), o) > 0
    requires k == |Below(dbs[0], o, Get(Watermark(dbs[0]), o))| / limit + 1 && k < |dbs|
    ensures Below(dbs[k], o, Get(Watermark(dbs[0]), o)) == {}
    ensures Mark(dbs[k], o) == Get(Watermark(dbs[0]), o)
  {
    hide Watermark, AreCycles, Below, Mark;
    Exceeds(|Below(dbs[0], o, Get(Watermark(dbs[0]), o))|, limit);
    CyclesProgress(dbs, limit, o, k);
  }

  /** Repeating Run with one batch limit finishes an origin after the rows by
      that limit, or by 1000 without one, and once more. */
  lemma RepeatedRunsFinish(dbs: seq<Db>, batchLimit: int, o: Origin, k: nat)
    requires dbs != [] && Get(Watermark(dbs[0]), o) > 0 && k < |dbs|
    requires forall i :: 0 <= i < |dbs| - 1 ==>
                           && (batchLimit > 0 ==> IsCycle(dbs[i], dbs[i + 1], batchLimit))
                           && (batchLimit <= 0 ==> IsCycle(dbs[i], dbs[i + 1], 1000))
    requires var rows := |Below(dbs[0], o, Get(Watermark(dbs[0]), o))|;
             k == (if batchLimit > 0 then rows / batchLimit else rows / 1000) + 1
    ensures forall n :: n in Present(dbs[k], o) ==> n > Get(Watermark(dbs[0]), o)
    ensures Mark(dbs[k], o) == Get(Watermark(dbs[0]), o)
  {
    hide Watermark, IsCycle, Mark;
    CyclesFinish(dbs, if batchLimit > 0 then batchLimit else 1000, o, k);
    NothingBelow(dbs[k], o, Get(Watermark(dbs[0]), o));
  }

  lemma NothingBelow(db: Db, o: Origin, w: nat)
    ensures Below(db, o, w) == {} ==> forall n :: n in Present(db, o) ==> n > w
  {
    assert forall n :: n in Present(db, o) && n <= w ==> n in Below(db, o, w);
  }

  lemma Exceeds(rows: nat, limit: nat)
    requires limit > 0
    ensures (rows / limit + 1) * limit > rows
  {
    assert rows == rows / limit * limit + rows % limit;
    assert (rows / limit + 1) * limit == rows / limit * limit + limit;
  }

  // ----- Monotone watermarks -----

  /** Same receivers, seeds and pins; no cursor of a receiver went down. */
  ghost predicate CursorsRaised(a: Db, b: Db) {
    && Receivers(a) == Receivers(b) && a.seeds == b.seeds
    && forall r :: r in Receivers(a) ==> AtMost(a.progress[r], b.progress[r])
  }

  lemma RaisingCursorsNeverLowersWatermarks(a: Db, b: Db)
    requires CursorsRaised(a, b)
    ensures AtMost(Watermark(a), Watermark(b))
  {
    hide IsActive, MergedPin, Receivers;
    forall o
      ensures Get(Watermark(a), o) <= Get(Watermark(b), o)
    {
      if Get(Watermark(a), o) > 0 {
        WatermarkRises(a, b, o);
      }
    }
  }

  lemma WatermarkRises(a: Db, b: Db, o: Origin)
    requires CursorsRaised(a, b) && o in Watermark(a) && Watermark(a)[o] > 0
    ensures Watermark(a)[o] <= Get(Watermark(b), o)
  {
    hide IsActive, Watermark, MergedPin;
    WatermarkDomain(a);
    WatermarkDomain(b);
    WatermarkAt(a, o);
    assert MergedPin(a, o) == MergedPin(b, o) by { SamePins(a, b, o); }
    var r :| r in Receivers(a) && o in a.progress[r];
    assert Get(a.progress[r], o) in AckValues(a, o);
    assert o in b.progress[r] && o in Known(b);
    WatermarkAt(b, o);
    var m := Watermark(b)[o];
    if m in AckValues(b, o) {
      var s :| s in Receivers(b) && m == Get(b.progress[s], o);
      assert Get(a.progress[s], o) in AckValues(a, o);
    } else {
      assert MergedPin(a, o) in FloorValues(a, o);
    }
  }

  lemma SamePins(a: Db, b: Db, o: Origin)
    requires a.seeds == b.seeds
    ensures StartedSeeds(a) == StartedSeeds(b) && MergedPin(a, o) == MergedPin(b, o)
  {
    assert StartedSeeds(a) == StartedSeeds(b);
    assert PinValues(a, o) == PinValues(b, o);
  }

  // ----- Merged pins -----

  /** The least any started session needs, counting a missing row as 0. */
  ghost predicate PinsProtect(db: Db, o: Origin) {
    forall b :: b in StartedSeeds(db) ==> MergedPin(db, o) <= Get(PinsOf(db, b), o)
  }

  /** Merging pins per origin protects every joiner exactly when each started
      session has a row for the origin or the least recorded pin is 0. */
  lemma MergedPinsProtectIff(db: Db, o: Origin)
    ensures PinsProtect(db, o) <==>
            MergedPin(db, o) == 0 || forall b :: b in StartedSeeds(db) ==> o in PinsOf(db, b)
  {
    forall b | b in StartedSeeds(db) && o in PinsOf(db, b)
      ensures MergedPin(db, o) <= PinsOf(db, b)[o]
    {
      assert PinsOf(db, b)[o] in PinValues(db, o);
    }
  }

  /** In particular one session alone is always protected. */
  lemma SingleSeedIsProtected(db: Db, o: Origin)
    requires |StartedSeeds(db)| == 1
    ensures PinsProtect(db, o)
  {
    MergedPinsProtectIff(db, o);
    var b :| b in StartedSeeds(db);
    assert |StartedSeeds(db) - {b}| == 0;
    assert StartedSeeds(db) == {b};
    if o !in PinsOf(db, b) {
      assert PinValues(db, o) == {};
    }
  }
}
