/** When a session succeeds, in terms of what the two nodes held and knew when
    it began (internal/sync/sync.go). */
module SessionSuccess {
  import opened Hlc
  import opened Changelog
  import opened Store
  import opened Apply
  import opened Replica
  import opened Ranges
  import opened Session
  import opened SessionPair
  import opened SessionLiveness
  import opened SessionOutcome

  // ----- What the outcome depends on -----

  /** x takes y's greeting: the same protocol and schema version, a complete
      identity that is not its own, and no retirement on record. */
  predicate Welcomes(x: Half, y: Half) {
    var o, nodes := y.node.db.local.self, x.node.db.nodes;
    && x.env.protocol == y.env.protocol && x.env.schemaVersion == y.env.schemaVersion
    && o.nodeId != "" && o.incarnationId != "" && o != x.node.db.local.self
    && !(o.nodeId in nodes && nodes[o.nodeId].status == "RETIRED" && nodes[o.nodeId].incarnationId == o.incarnationId)
  }

  /** What somebody who has `have` lacks begins in collected history. */
  ghost predicate Gone(have: Vector, db: Db) {
    exists o :: Get(have, o) < Get(LocalVector(db), o) && o in db.meta.gcMarks && Get(have, o) < db.meta.gcMarks[o]
  }

  /** A row the log holds of what somebody who has `have` lacks. */
  ghost predicate Asked(have: Vector, db: Db, e: Event) {
    && Get(have, e.origin) < e.originSeq <= Get(LocalVector(db), e.origin)
    && e.originSeq in Present(db, e.origin) && e == EventAt(db, e.origin, e.originSeq)
  }

  ghost predicate AllAsked(have: Vector, db: Db, es: seq<Event>) {
    forall e :: e in es ==> Asked(have, db, e)
  }

  /** x can be brought up to y's vector: it takes the greeting, y still has the
      history, and x's transactions take every row y has for it. */
  ghost predicate CanFollow(x: Half, y: Half) {
    && Welcomes(x, y) && !Gone(LocalVector(x.node.db), y.node.db)
    && forall e :: Asked(LocalVector(x.node.db), y.node.db, e) ==> Acceptable(x.node.db.nodes, e)
  }

  // ----- Ranges and rows -----

  lemma TruncatedIff(db: Db, have: Vector, ranges: seq<Range>)
    requires IsMissing(have, LocalVector(db), ranges)
    ensures Truncated(db, ranges) <==> Gone(have, db)
  {
    hide LocalVector;
    if Truncated(db, ranges) {
      var i :| 0 <= i < |ranges| && Valid(ranges[i]) && Collected(db, ranges[i].origin, ranges[i].from);
      var o, from := ranges[i].origin, ranges[i].from;
      assert InRange(ranges[i], o, from);
      assert Requested(ranges, o, from);
      assert Get(have, o) < Get(LocalVector(db), o) && o in db.meta.gcMarks && Get(have, o) < db.meta.gcMarks[o];
    }
    if Gone(have, db) {
      var o :| Get(have, o) < Get(LocalVector(db), o) && o in db.meta.gcMarks && Get(have, o) < db.meta.gcMarks[o];
      assert Requested(ranges, o, Get(have, o) + 1);
      var i :| 0 <= i < |ranges| && InRange(ranges[i], o, Get(have, o) + 1);
      assert InRange(ranges[i], o, ranges[i].from) && Requested(ranges, o, ranges[i].from);
      assert ranges[i].from == Get(have, o) + 1;
    }
  }

  lemma {:induction false} WantedIff(db: Db, ranges: seq<Range>, e: Event)
    requires forall i :: 0 <= i < |ranges| ==> Valid(ranges[i])
    ensures e in Wanted(db, ranges) <==>
            Requested(ranges, e.origin, e.originSeq) && e.originSeq in Present(db, e.origin)
            && e == EventAt(db, e.origin, e.originSeq)
  {
    hide RowsIn;
    if ranges != [] {
      var init, r := ranges[..|ranges| - 1], ranges[|ranges| - 1];
      WantedIff(db, init, e);
      RangeIff(db, r, e);
      if Requested(init, e.origin, e.originSeq) {
        var i :| 0 <= i < |init| && InRange(init[i], e.origin, e.originSeq);
        assert InRange(ranges[i], e.origin, e.originSeq);
      }
      if InRange(r, e.origin, e.originSeq) {
        assert InRange(ranges[|ranges| - 1], e.origin, e.originSeq);
      }
      if Requested(ranges, e.origin, e.originSeq) && !InRange(r, e.origin, e.originSeq) {
        var i :| 0 <= i < |ranges| && InRange(ranges[i], e.origin, e.originSeq);
        assert InRange(init[i], e.origin, e.originSeq);
      }
    }
  }

  lemma RangeIff(db: Db, r: Range, e: Event)
    ensures e in RowsIn(db, r.origin, r.from, r.to) <==>
            InRange(r, e.origin, e.originSeq) && e.originSeq in Present(db, e.origin)
            && e == EventAt(db, e.origin, e.originSeq)
  {
    hide RowsIn;
    if e in RowsIn(db, r.origin, r.from, r.to) {
      RowsInComeFromLog(db, r.origin, r.from, r.to, e);
    }
    if e.originSeq in Present(db, e.origin) && InRange(r, e.origin, e.originSeq) {
      RowsInMembers(db, r.origin, r.from, r.to, e.originSeq);
    }
  }

  lemma PrefixIsAsked(db: Db, have: Vector, ranges: seq<Range>, i: nat, e: Event)
    requires IsMissing(have, LocalVector(db), ranges) && i <= |ranges|
    ensures e in Wanted(db, ranges[..i]) ==> Asked(have, db, e)
  {
    hide LocalVector, Wanted;
    WantedIff(db, ranges[..i], e);
    if Requested(ranges[..i], e.origin, e.originSeq) {
      var j :| 0 <= j < i && InRange(ranges[j], e.origin, e.originSeq);
      assert Requested(ranges, e.origin, e.originSeq);
    }
  }

  /** A Need gets exactly the rows asked for. */
  lemma WantedIsAsked(db: Db, have: Vector, ranges: seq<Range>)
    requires IsMissing(have, LocalVector(db), ranges)
    ensures forall e :: e in Wanted(db, ranges) <==> Asked(have, db, e)
    ensures forall i :: 0 <= i <= |ranges| ==> AllAsked(have, db, Wanted(db, ranges[..i]))
  {
    hide LocalVector, Wanted;
    forall e
      ensures e in Wanted(db, ranges) <==> Asked(have, db, e)
    {
      WantedIff(db, ranges, e);
    }
    hide Asked, IsMissing;
    forall i, e | 0 <= i <= |ranges|
      ensures e in Wanted(db, ranges[..i]) ==> Asked(have, db, e)
    {
      PrefixIsAsked(db, have, ranges, i, e);
    }
  }

  lemma {:induction false} InPayload(batches: seq<Ranges.Batch>, i: nat)
    requires i < |batches|
    ensures forall e :: e in batches[i].events ==> e in Payload(batches)
  {
    if i < |batches| - 1 {
      InPayload(batches[..|batches| - 1], i);
    }
  }

  // ----- One half, traced back to the beginning -----

  ghost predicate FailsAs(x0: Half, y0: Half, phase: Phase) {
    && (phase == Failed(Refused) ==> !Welcomes(x0, y0))
    && (phase == Failed(HistoryGone) ==> Gone(LocalVector(y0.node.db), x0.node.db))
    && (phase == Failed(ApplyFailed) ==>
          exists e :: Asked(LocalVector(x0.node.db), y0.node.db, e) && !Acceptable(x0.node.db.nodes, e))
    && phase != Failed(Interrupted)
  }

  ghost predicate SameNode(x0: Half, x: Half) {
    && x.env == x0.env && x.node.db.local.self == x0.node.db.local.self && x.node.db.nodes == x0.node.db.nodes
    && (x.read < 2 ==> x.node == x0.node)
    && (!x.phase.Start? ==> x.localVec == LocalVector(x0.node.db))
  }

  ghost predicate Traced(x0: Half, y0: Half, x: Half) {
    && SameNode(x0, x) && FailsAs(x0, y0, x.phase)
    && (x.need.Some? ==> IsMissing(LocalVector(x0.node.db), LocalVector(y0.node.db), x.need.value))
    && (x.peer.Some? ==> Welcomes(x0, y0))
    && (x.sentBatches ==>
          !Gone(LocalVector(y0.node.db), x0.node.db) && x.answer.Some? && x.answer.value.db == x0.node.db)
    && AllAsked(LocalVector(y0.node.db), x0.node.db, Payload(x.batches))
    && AllAsked(LocalVector(x0.node.db), y0.node.db, x.pending)
    && forall e :: e in x.applied ==> Acceptable(x0.node.db.nodes, e)
  }

  lemma OpeningTraced(env: Env, node: Node, y0: Half)
    ensures Traced(Opening(env, node), y0, Opening(env, node))
  {
    hide Asked;
  }

  lemma BeginTraced(x0: Half, y0: Half, x: Half)
    requires Traced(x0, y0, x) && x.phase.Start? && x.read == 0
    ensures Traced(x0, y0, Begun(x))
  {
    hide LocalVector, IsMissing, AllAsked, Asked, Gone, Welcomes, Acceptable, Payload;
  }

  lemma HelloTraced(x0: Half, y0: Half, x: Half, y: Half, g: Half)
    requires Inv(x, y) && Traced(x0, y0, x) && Traced(y0, x0, y) && x.phase.Await? && x.read < |y.out|
    requires Reads(x, y.out[x.read], g)
    ensures Traced(x0, y0, g)
  {
    hide LocalVector, IsMissing, AllAsked, Asked, Gone, Acceptable, Payload;
    ScriptAt(y, 0);
    GreetedHasBegun(y);
    assert Accepts(x, Own(y)) <==> Welcomes(x0, y0);
  }

  lemma GreetedHasBegun(y: Half)
    requires OwnInv(y) && y.out != []
    ensures Greeted(y) && !y.phase.Start?
  {
    ScriptSize(y);
  }

  lemma NeedTraced(x0: Half, y0: Half, x: Half, y: Half, g: Half)
    requires Inv(x, y) && Traced(x0, y0, x) && Traced(y0, x0, y) && x.phase.Looping? && x.read < |y.out|
    requires y.out[x.read].NeedFrame? && Reads(x, y.out[x.read], g)
    ensures Traced(x0, y0, g)
  {
    hide LocalVector, IsMissing, AllAsked, Asked, Gone, Acceptable, Payload, Wanted, Truncated, Inv, Welcomes;
    hide IsTransfer, CutShortAt, ReadsNeed;
    BeforeAnswer(x, y);
    var ranges, taken := y.need.value, x.(read := x.read + 1);
    TruncatedIff(x0.node.db, LocalVector(y0.node.db), ranges);
    WantedIsAsked(x0.node.db, LocalVector(y0.node.db), ranges);
    assert ranges[..|ranges|] == ranges;
    AnswerPayload(taken, ranges, g);
    AnswerKeeps(taken, ranges, g);
  }

  lemma AnswerKeeps(h: Half, ranges: seq<Range>, g: Half)
    requires ReadsNeed(h, ranges, g) && h.phase.Looping?
    ensures g.env == h.env && g.node == h.node && g.read == h.read && g.localVec == h.localVec && g.need == h.need
    ensures g.peer == h.peer && g.pending == h.pending && g.applied == h.applied
    ensures Truncated(h.node.db, ranges) ==>
              g.phase == Failed(HistoryGone) && g.sentBatches == h.sentBatches && g.answer == h.answer
    ensures !Truncated(h.node.db, ranges) ==> !g.phase.Failed? && !g.phase.Start?
  {
    hide Truncated, IsTransfer, CutShortAt;
    var sent :| if !Truncated(h.node.db, ranges)
      then IsTransfer(h.node.db, ranges, sent) && g == Transferred(h, ranges, sent)
      else (exists i :: 0 <= i < |ranges| && CutShortAt(h.node.db, ranges, sent, i)) && g == CutOff(h, sent);
  }

  lemma BatchTraced(x0: Half, y0: Half, x: Half, y: Half, g: Half)
    requires Inv(x, y) && Traced(x0, y0, x) && Traced(y0, x0, y) && x.phase.Looping? && x.read < |y.out|
    requires y.out[x.read].BatchFrame? && Reads(x, y.out[x.read], g)
    ensures Traced(x0, y0, g)
  {
    hide LocalVector, IsMissing, Asked, Gone, Acceptable, Payload, Inv, Welcomes, Applied, Next;
    BothViews(x, y);
    BatchPlace(x, y);
    var b := y.out[x.read].batch;
    InPayload(y.batches, x.read - 2);
    var es, taken := x.pending + b.events, x.(read := x.read + 1);
    if b.complete {
      var clock :| Applies(taken, es, clock, g);
      BatchCommitsIff(x.env.registry, x.node.db, es, clock);
      BatchKeepsMembers(x.env.registry, x.node, es, clock);
    }
  }

  lemma BatchKeepsMembers(reg: Registry, n: Node, es: seq<Event>, clock: HLC)
    ensures var after := Next(reg, n, Replica.Batch(es, clock));
            after.db.nodes == n.db.nodes && after.db.local.self == n.db.local.self
  {
    hide AdmitAll, Finish;
    BatchKeepsSelf(reg, n, es, clock);
    if es != [] && AdmitAll(reg, n.db, es).Ok? {
      AdmitAllOkIff(reg, n.db, es);
      FinishKeepsLog(AdmitAll(reg, n.db, es).value.db, es, clock);
    }
  }

  /** An acknowledgement changes a recorded vector, an error frame the phase. */
  lemma PlainKeeps(x: Half, f: Frame, g: Half)
    requires x.phase.Looping? && Reads(x, f, g) && !f.NeedFrame? && !f.BatchFrame?
    ensures g == x.(read := g.read, phase := g.phase, gotAck := g.gotAck, node := g.node) && g.read == x.read + 1
    ensures g.node.db.nodes == x.node.db.nodes && g.node.db.local.self == x.node.db.local.self
    ensures g.phase in {Looping, Done, Failed(PeerFailed), Failed(Unexpected)}
  {
    hide Applied, ReadsNeed, ReadsBatch, ReadsHello;
  }

  lemma PlainTraced(x0: Half, y0: Half, x: Half, y: Half, g: Half)
    requires Inv(x, y) && Traced(x0, y0, x) && x.phase.Looping? && x.read < |y.out|
    requires !y.out[x.read].NeedFrame? && !y.out[x.read].BatchFrame? && Reads(x, y.out[x.read], g)
    ensures Traced(x0, y0, g)
  {
    hide LocalVector, IsMissing, AllAsked, Asked, Gone, Acceptable, Payload, Welcomes, Reads, Inv;
    PlainKeeps(x, y.out[x.read], g);
    LoopingHasRead(x, y);
  }

  lemma LoopingHasRead(x: Half, y: Half)
    requires Inv(x, y) && x.phase.Looping? && x.read < |y.out|
    requires !y.out[x.read].NeedFrame? && !y.out[x.read].BatchFrame?
    ensures x.read >= 1 && (x.read == 1 ==> y.out[x.read].ErrorFrame?)
  {
    ScriptAt(y, x.read);
  }

  lemma ReadTraced(x0: Half, y0: Half, x: Half, y: Half, g: Half)
    requires Inv(x, y) && Traced(x0, y0, x) && Traced(y0, x0, y) && Moves(Read, x, y, g)
    ensures Traced(x0, y0, g)
  {
    hide Inv, Traced, Reads;
    ReadsWhileRunning(x, y.out[x.read], g);
    if x.phase.Await? {
      HelloTraced(x0, y0, x, y, g);
    } else if y.out[x.read].NeedFrame? {
      NeedTraced(x0, y0, x, y, g);
    } else if y.out[x.read].BatchFrame? {
      BatchTraced(x0, y0, x, y, g);
    } else {
      PlainTraced(x0, y0, x, y, g);
    }
  }

  lemma LostTraced(x0: Half, y0: Half, x: Half, g: Half)
    requires Traced(x0, y0, x) && g == x.(phase := Failed(PeerFailed)) && !x.phase.Start?
    ensures Traced(x0, y0, g)
  {
    hide LocalVector, IsMissing, AllAsked, Asked, Gone, Acceptable, Payload, Welcomes;
  }

  lemma MoveTraced(kind: Kind, x0: Half, y0: Half, x: Half, y: Half, g: Half)
    requires Inv(x, y) && Traced(x0, y0, x) && Traced(y0, x0, y) && Moves(kind, x, y, g)
    requires kind.Begin? || kind.Read? || kind.Lost?
    ensures Traced(x0, y0, g)
  {
    hide Traced, Reads, ReadInv;
    match kind
    case Begin => BeginTraced(x0, y0, x);
    case Read => ReadTraced(x0, y0, x, y, g);
    case Lost => LostTraced(x0, y0, x, g);
  }

  // ----- The session -----

  /** The two halves alone: no interruption, and nothing else at either node. */
  ghost predicate Undisturbed(run: seq<Pair>) {
    forall i :: 0 <= i < |run| - 1 ==> Progresses(run[i], run[i + 1])
  }

  lemma {:induction false} RunIsTraced(run: seq<Pair>, i: nat)
    requires IsSession(run) && Undisturbed(run) && i < |run|
    ensures Traced(run[0].a, run[0].b, run[i].a) && Traced(run[0].b, run[0].a, run[i].b)
  {
    hide Inv, Traced, Moves;
    var x0, y0 := run[0].a, run[0].b;
    if i == 0 {
      OpeningTraced(x0.env, x0.node, y0);
      OpeningTraced(y0.env, y0.node, x0);
    } else {
      RunIsTraced(run, i - 1);
      RunKeepsInv(run, i - 1);
      var s, t := run[i - 1], run[i];
      InvFlips(s.a, s.b);
      assert Progresses(s, t);
      var kind := if PairMoves(Begin, s, t) then Begin else if PairMoves(Read, s, t) then Read else Lost;
      if Moves(kind, s.a, s.b, t.a) && t.b == s.b {
        MoveTraced(kind, x0, y0, s.a, s.b, t.a);
      } else {
        MoveTraced(kind, y0, x0, s.b, s.a, t.b);
      }
    }
  }

  /** A side that finished could follow its peer from the beginning. */
  lemma FinishedCouldFollow(x0: Half, y0: Half, x: Half, y: Half)
    requires Inv(x, y) && OutcomeInv(x, y) && Traced(x0, y0, x) && Traced(y0, x0, y) && x.phase.Done?
    ensures CanFollow(x0, y0)
  {
    hide LocalVector, IsMissing, Asked, Gone, Acceptable, Payload, Welcomes, Wanted, OwnInv, ReadInv, CursorCovers,
      Ordered;
    HalfAllApplied(x, y);
    WantedIsAsked(y0.node.db, LocalVector(x0.node.db), x.need.value);
  }

  /** Without an interruption and with the nodes left alone, a session that has
      ended succeeded on both sides exactly when, at its beginning, each side
      would take the other's greeting, still had the history the other lacked,
      and would take every row the other had for it: each of them valid and of
      an origin not recorded as retired. */
  lemma SucceedsIff(run: seq<Pair>)
    requires IsSession(run) && Undisturbed(run) && Final(Last(run))
    ensures Last(run).a.phase.Done? && Last(run).b.phase.Done? <==>
            CanFollow(run[0].a, run[0].b) && CanFollow(run[0].b, run[0].a)
  {
    hide Inv, OutcomeInv, Traced, CanFollow;
    var n := |run| - 1;
    var x0, y0, x, y := run[0].a, run[0].b, run[n].a, run[n].b;
    RunIsTraced(run, n);
    RunKeepsInv(run, n);
    RunKeepsOutcome(run, n);
    InvFlips(x, y);
    SucceedsUnlessRootCause(run, n);
    if x.phase.Done? && y.phase.Done? {
      FinishedCouldFollow(x0, y0, x, y);
      FinishedCouldFollow(y0, x0, y, x);
    }
    if CanFollow(x0, y0) && CanFollow(y0, x0) {
      NoCause(x0, y0, x);
      NoCause(y0, x0, y);
    }
  }

  lemma NoCause(x0: Half, y0: Half, x: Half)
    requires Traced(x0, y0, x) && CanFollow(x0, y0) && CanFollow(y0, x0)
    ensures x.phase.Failed? ==> !IsRootCause(x.phase.cause)
  {
    hide LocalVector, IsMissing, AllAsked, Asked, Gone, Acceptable, Payload, Welcomes;
  }
}
