/** What a session achieves and why it can fail (internal/sync/sync.go). */
module SessionOutcome {
  import opened Hlc
  import opened Changelog
  import opened Store
  import opened Progress
  import opened Apply
  import opened Replica
  import opened Ranges
  import opened Session
  import opened SessionPair
  import opened SessionLiveness

  // ----- Why a session fails -----

  predicate IsRootCause(c: Cause) {
    c.Refused? || c.HistoryGone? || c.ApplyFailed? || c.Interrupted?
  }

  ghost predicate CauseInv(x: Half, y: Half) {
    && (x.phase.Failed? ==> IsRootCause(x.phase.cause) || x.phase.cause.PeerFailed?)
    && (x.phase == Failed(PeerFailed) ==> y.phase.Failed? && IsRootCause(y.phase.cause))
    && (x.erred ==> x.phase.Failed? && IsRootCause(x.phase.cause))
  }

  lemma ErrorFramesComeFromErrors(y: Half, i: nat)
    requires OwnInv(y) && i < |y.out| && y.out[i].ErrorFrame?
    ensures y.erred
  {
    ScriptAt(y, i);
    ScriptSize(y);
  }

  /** In the loop and in the handshake the frames come in the right order. */
  lemma NothingUnexpected(x: Half, y: Half)
    requires Inv(x, y) && x.read < |y.out|
    ensures x.phase.Await? ==> y.out[x.read].HelloFrame?
    ensures x.phase.Looping? ==> !y.out[x.read].HelloFrame?
  {
    ScriptAt(y, x.read);
  }

  /** How reading a frame of the right kind can fail. */
  ghost predicate FailsRightly(f: Frame, g: Half) {
    && (g.phase.Failed? ==> IsRootCause(g.phase.cause) || (f.ErrorFrame? && g.phase.cause.PeerFailed?))
    && (g.erred ==> g.phase.Failed? && IsRootCause(g.phase.cause))
  }

  lemma HelloFailure(h: Half, f: Frame, g: Half)
    requires ReadsHello(h, f, g) && !h.erred && f.HelloFrame?
    ensures FailsRightly(f, g)
  {
    hide IsMissing, Accepts;
  }

  lemma NeedFailure(h: Half, ranges: seq<Range>, g: Half)
    requires ReadsNeed(h, ranges, g) && !h.erred && h.phase.Looping?
    ensures FailsRightly(NeedFrame(ranges), g)
  {
    hide IsTransfer, Truncated, CutShortAt;
  }

  lemma BatchFailure(h: Half, b: Ranges.Batch, g: Half)
    requires ReadsBatch(h, b, g) && !h.erred && h.phase.Looping?
    ensures FailsRightly(BatchFrame(b), g)
  {
    hide Next, Applied, LocalVector;
  }

  lemma ReadFailure(x: Half, f: Frame, g: Half)
    requires Reads(x, f, g) && !x.erred
    requires (x.phase.Await? ==> f.HelloFrame?) && (x.phase.Looping? ==> !f.HelloFrame?)
    ensures FailsRightly(f, g)
  {
    hide ReadsHello, ReadsNeed, ReadsBatch, Next;
    var taken := x.(read := x.read + 1);
    if x.phase.Await? {
      HelloFailure(taken, f, g);
    } else if f.NeedFrame? {
      NeedFailure(taken, f.ranges, g);
    } else if f.BatchFrame? {
      BatchFailure(taken, f.batch, g);
    }
  }

  lemma ReadKeepsCause(x: Half, y: Half, g: Half)
    requires Inv(x, y) && Moves(Read, x, y, g) && CauseInv(x, y) && CauseInv(y, x)
    ensures CauseInv(g, y) && CauseInv(y, g)
  {
    hide Inv, Reads;
    NothingUnexpected(x, y);
    ReadsWhileRunning(x, y.out[x.read], g);
    ReadFailure(x, y.out[x.read], g);
    if y.out[x.read].ErrorFrame? {
      OwnOf(x, y);
      ErrorFramesComeFromErrors(y, x.read);
    }
  }

  lemma ReadsWhileRunning(x: Half, f: Frame, g: Half)
    requires Reads(x, f, g)
    ensures x.phase.Await? || x.phase.Looping?
  {
  }

  lemma OwnOf(x: Half, y: Half)
    requires Inv(x, y)
    ensures OwnInv(x) && OwnInv(y)
  {
  }

  lemma MoveKeepsCause(kind: Kind, s: Pair, x: Half, y: Half, g: Half)
    requires PairInv(s) && (s == Pair(x, y) || s == Pair(y, x))
    requires Moves(kind, x, y, g) && CauseInv(x, y) && CauseInv(y, x)
    ensures CauseInv(g, y) && CauseInv(y, g)
  {
    hide Inv, Reads, Elsewhere;
    match kind
    case Begin =>
    case Read =>
      InvFlips(s.a, s.b);
      ReadKeepsCause(x, y, g);
    case Lost => SomeoneCanMove(s);
    case Abort =>
    case Meanwhile =>
  }

  lemma {:induction false} RunKeepsCause(run: seq<Pair>, i: nat)
    requires IsSession(run) && i < |run|
    ensures CauseInv(run[i].a, run[i].b) && CauseInv(run[i].b, run[i].a)
  {
    hide PairMoves, CauseInv, PairInv;
    if i == 0 {
      assert CauseInv(run[0].a, run[0].b) && CauseInv(run[0].b, run[0].a) by { OpeningCause(run[0]); }
    } else {
      RunKeepsCause(run, i - 1);
      RunKeepsInv(run, i - 1);
      assert CanMove(run[i - 1], run[i]);
      PairMoveKeepsCause(run[i - 1], run[i]);
    }
  }

  lemma OpeningCause(s: Pair)
    requires s == Pair(Opening(s.a.env, s.a.node), Opening(s.b.env, s.b.node))
    ensures CauseInv(s.a, s.b) && CauseInv(s.b, s.a)
  {
  }

  lemma PairMoveKeepsCause(s: Pair, t: Pair)
    requires PairInv(s) && CanMove(s, t) && CauseInv(s.a, s.b) && CauseInv(s.b, s.a)
    ensures CauseInv(t.a, t.b) && CauseInv(t.b, t.a)
  {
    hide PairInv, Moves, CauseInv;
    var kind :| PairMoves(kind, s, t);
    if Moves(kind, s.a, s.b, t.a) && t.b == s.b {
      MoveKeepsCause(kind, s, s.a, s.b, t.a);
    } else {
      MoveKeepsCause(kind, s, s.b, s.a, t.b);
    }
  }

  /** A session that is over either succeeded on both sides, or some side
      refused the greeting, had collected the history asked for, failed to
      apply, or was interrupted. Nothing else goes wrong. */
  lemma SucceedsUnlessRootCause(run: seq<Pair>, i: nat)
    requires IsSession(run) && i < |run| && Final(run[i])
    ensures run[i].a.phase.Done? && run[i].b.phase.Done? <==>
            !(run[i].a.phase.Failed? && IsRootCause(run[i].a.phase.cause)) &&
            !(run[i].b.phase.Failed? && IsRootCause(run[i].b.phase.cause))
  {
    RunKeepsCause(run, i);
  }

  // ----- What both sides end up with -----

  /** Events of one origin come in sequence order. */
  ghost predicate Ordered(es: seq<Event>) {
    forall i, j :: 0 <= i < j < |es| && es[i].origin == es[j].origin ==> es[i].originSeq < es[j].originSeq
  }

  lemma RowsAreOrdered(db: Db, o: Origin, from: nat, to: nat)
    ensures Ordered(RowsIn(db, o, from, to))
    ensures forall e :: e in RowsIn(db, o, from, to) ==> e.origin == o
  {
    var ns := Ascending(SeqsIn(db, o, from, to));
    var es := RowsIn(db, o, from, to);
    assert forall i :: 0 <= i < |ns| ==> ns[i] in ns;
    assert forall i :: 0 <= i < |es| ==> es[i] == EventAt(db, o, ns[i]);
  }

  ghost predicate DistinctOrigins(ranges: seq<Range>) {
    forall i, j :: 0 <= i < j < |ranges| ==> ranges[i].origin != ranges[j].origin
  }

  lemma {:induction false} WantedIsOrdered(db: Db, ranges: seq<Range>)
    requires DistinctOrigins(ranges)
    ensures Ordered(Wanted(db, ranges))
    ensures forall e :: e in Wanted(db, ranges) ==> exists i :: 0 <= i < |ranges| && ranges[i].origin == e.origin
  {
    hide RowsIn;
    if ranges != [] {
      var init, r := ranges[..|ranges| - 1], ranges[|ranges| - 1];
      WantedIsOrdered(db, init);
      RowsAreOrdered(db, r.origin, r.from, r.to);
      var a, b := Wanted(db, init), if Valid(r) then RowsIn(db, r.origin, r.from, r.to) else [];
      forall e | e in a
        ensures e.origin != r.origin && exists i :: 0 <= i < |ranges| && ranges[i].origin == e.origin
      {
        var i :| 0 <= i < |init| && init[i].origin == e.origin;
        assert ranges[i].origin == e.origin;
      }
      forall i, j | 0 <= i < j < |a + b| && (a + b)[i].origin == (a + b)[j].origin
        ensures (a + b)[i].originSeq < (a + b)[j].originSeq
      {
        assert i < |a| ==> a[i] in a;
        assert j >= |a| ==> b[j - |a|] in b;
      }
    }
  }

  lemma {:induction false} WantedHas(db: Db, ranges: seq<Range>, o: Origin, k: nat)
    requires Requested(ranges, o, k) && k in Present(db, o) && forall i :: 0 <= i < |ranges| ==> Valid(ranges[i])
    ensures (o, k) in Identities(Wanted(db, ranges))
  {
    hide RowsIn;
    var init, r := ranges[..|ranges| - 1], ranges[|ranges| - 1];
    if InRange(r, o, k) {
      RowsInMembers(db, o, r.from, r.to, k);
      assert EventAt(db, o, k) in Wanted(db, ranges);
    } else {
      var i :| 0 <= i < |ranges| && InRange(ranges[i], o, k);
      assert InRange(init[i], o, k);
      WantedHas(db, init, o, k);
      var e :| e in Wanted(db, init) && (e.origin, e.originSeq) == (o, k);
      assert e in Wanted(db, ranges);
    }
  }

  /** An unbroken run of applied sequences after the greeting's cursor. */
  ghost predicate RunApplied(from: nat, n: nat, o: Origin, applied: seq<Event>) {
    from <= n && forall k: nat :: from < k <= n ==> (o, k) in Identities(applied)
  }

  ghost predicate CursorCovers(h: Half) {
    forall o, n: nat :: o != h.node.db.local.self && RunApplied(Get(h.localVec, o), n, o, h.applied) ==>
                          n <= Cursor(h.node.db, o)
  }

  /** When the run reaches past what was applied before, its rest came with
      the new events, because events arrive in sequence order. */
  lemma RestIsNew(from: nat, cursor: nat, n: nat, o: Origin, applied: seq<Event>, es: seq<Event>)
    requires Ordered(applied + es) && RunApplied(from, n, o, applied + es) && cursor < n
    requires forall m: nat :: RunApplied(from, m, o, applied) ==> m <= cursor
    requires from <= cursor
    ensures forall k :: cursor < k <= n ==> k in SeqsFrom(es, o)
  {
    var missing := set k: nat | from < k <= n && (o, k) !in Identities(applied);
    assert !RunApplied(from, n, o, applied);
    var gap: nat :| from < gap <= n && (o, gap) !in Identities(applied);
    assert gap in missing;
    var first := LeastOf(missing);
    forall k: nat | from < k <= first - 1
      ensures (o, k) in Identities(applied)
    {
      assert k !in missing;
    }
    assert RunApplied(from, first - 1, o, applied);
    var all := applied + es;
    assert (o, first) in Identities(all);
    var e :| e in all && (e.origin, e.originSeq) == (o, first);
    var j :| 0 <= j < |all| && all[j] == e;
    assert j >= |applied| by { assert e !in applied; }
    forall k | cursor < k <= n
      ensures k in SeqsFrom(es, o)
    {
      assert (o, k) in Identities(all);
      var x :| x in all && (x.origin, x.originSeq) == (o, k);
      var i :| 0 <= i < |all| && all[i] == x;
      assert i >= |applied| by { assert i < |applied| ==> i < j; }
      assert all[i] == es[i - |applied|];
    }
  }

  lemma FlushCovers(h: Half, g: Half, es: seq<Event>, clock: HLC)
    requires CursorCovers(h) && AtMost(h.localVec, LocalVector(h.node.db)) && Ordered(h.applied + es)
    requires Applied(h.env.registry, h.node.db, es, clock).Ok?
    requires g.node.db == Applied(h.env.registry, h.node.db, es, clock).value
    requires g.localVec == h.localVec && g.applied == h.applied + es
    ensures CursorCovers(g)
  {
    hide Applied, IsContiguousEnd, LocalVector, RunApplied, Ordered, Cursor, Present;
    forall o, n: nat | o != h.node.db.local.self && RunApplied(Get(h.localVec, o), n, o, g.applied)
      ensures n <= Cursor(g.node.db, o) && g.node.db.local.self == h.node.db.local.self
    {
      BatchCursors(h.env.registry, h.node.db, es, clock, o);
      var from, cursor := Get(h.localVec, o), Cursor(h.node.db, o);
      assert from <= cursor by { RemoteEntryOf(h.node.db, o); }
      if cursor < n {
        RestIsNew(from, cursor, n, o, h.applied, es);
        EndReaches(Present(g.node.db, o), cursor, Cursor(g.node.db, o), n, es, o);
      } else if o in Origins(es) {
        EndIsAhead(Present(g.node.db, o), cursor, Cursor(g.node.db, o));
      }
    }
    BatchCursors(h.env.registry, h.node.db, es, clock, h.node.db.local.self);
  }

  lemma RemoteEntryOf(db: Db, o: Origin)
    ensures o != db.local.self ==> Get(LocalVector(db), o) == Cursor(db, o)
  {
  }

  lemma EndIsAhead(present: set<nat>, cursor: nat, n: nat)
    requires IsContiguousEnd(present, cursor, n)
    ensures cursor <= n
  {
  }

  lemma EndReaches(present: set<nat>, cursor: nat, end: nat, n: nat, es: seq<Event>, o: Origin)
    requires cursor < n && (forall k :: cursor < k <= n ==> k in SeqsFrom(es, o)) && SeqsFrom(es, o) <= present
    requires o in Origins(es) ==> IsContiguousEnd(present, cursor, end)
    ensures n <= end
  {
    assert n in SeqsFrom(es, o);
    var e :| e in es && e.origin == o && e.originSeq == n;
    assert o in Origins(es);
    assert end < n ==> end + 1 in SeqsFrom(es, o);
  }

  // ----- The invariant behind the outcome -----

  predicate Running(h: Half) {
    !h.phase.Start? && !h.phase.Failed?
  }

  /** What x knows about its own cursors, and what y's answer was. */
  ghost predicate OutcomeInv(x: Half, y: Half) {
    && (Running(x) ==> AtMost(x.localVec, LocalVector(x.node.db)) && CursorCovers(x))
    && (x.need.Some? ==> x.peer.Some? && IsMissing(x.localVec, x.peer.value.vector, x.need.value))
    && Ordered(Payload(y.batches))
    && (y.sentBatches ==> Answered(x, y))
  }

  ghost predicate Answered(x: Half, y: Half) {
    && y.answer.Some? && x.need.Some? && y.answer.value.ranges == x.need.value
    && Payload(y.batches) == Wanted(y.answer.value.db, x.need.value)
  }

  lemma MissingIsDistinct(have: Vector, want: Vector, ranges: seq<Range>)
    requires IsMissing(have, want, ranges)
    ensures DistinctOrigins(ranges) && forall i :: 0 <= i <= |ranges| ==> DistinctOrigins(ranges[..i])
    ensures forall i :: 0 <= i < |ranges| ==> Valid(ranges[i])
  {
  }

  lemma AnswerIsOrdered(db: Db, have: Vector, want: Vector, ranges: seq<Range>, sent: seq<Ranges.Batch>)
    requires IsMissing(have, want, ranges)
    requires || Payload(sent) == Wanted(db, ranges)
             || exists i :: 0 <= i < |ranges| && Payload(sent) == Wanted(db, ranges[..i])
    ensures Ordered(Payload(sent))
  {
    hide IsMissing, Payload, Wanted;
    MissingIsDistinct(have, want, ranges);
    if Payload(sent) == Wanted(db, ranges) {
      WantedIsOrdered(db, ranges);
    } else {
      var i :| 0 <= i < |ranges| && Payload(sent) == Wanted(db, ranges[..i]);
      WantedIsOrdered(db, ranges[..i]);
    }
  }

  lemma OrderedPrefix(es: seq<Event>, k: nat)
    requires Ordered(es) && k <= |es|
    ensures Ordered(es[..k])
  {
  }

  /** Payload of the first batches is a prefix of the whole payload. */
  lemma {:induction false} PayloadPrefix(batches: seq<Ranges.Batch>, k: nat)
    requires k <= |batches|
    ensures Payload(batches[..k]) <= Payload(batches)
    decreases |batches|
  {
    if k < |batches| {
      assert batches[..|batches| - 1][..k] == batches[..k];
      PayloadPrefix(batches[..|batches| - 1], k);
    } else {
      assert batches[..k] == batches;
    }
  }

  /** Steps of the node outside the session only move cursors forward. */
  lemma GrowthKeepsCovers(h: Half, g: Half)
    requires CursorCovers(h) && g.localVec == h.localVec && g.applied == h.applied
    requires g.node.db.local.self == h.node.db.local.self
    requires AtMost(LocalVector(h.node.db), LocalVector(g.node.db))
    ensures CursorCovers(g)
  {
    hide RunApplied, LocalVector, Cursor;
    forall o, n: nat | o != g.node.db.local.self && RunApplied(Get(h.localVec, o), n, o, h.applied)
      ensures n <= Cursor(g.node.db, o)
    {
      RemoteEntryOf(h.node.db, o);
      RemoteEntryOf(g.node.db, o);
      assert Get(LocalVector(h.node.db), o) <= Get(LocalVector(g.node.db), o);
    }
  }

  lemma NodeStepKeepsOutcome(x: Half, y: Half, g: Half)
    requires OutcomeInv(x, y) && OutcomeInv(y, x)
    requires Keeps(x.node, g.node) && AtMost(LocalVector(x.node.db), LocalVector(g.node.db))
    requires g.localVec == x.localVec && g.applied == x.applied
    requires g.need == x.need && g.peer == x.peer && g.batches == x.batches && g.answer == x.answer
    requires g.sentBatches == x.sentBatches && (Running(g) ==> Running(x))
    ensures OutcomeInv(g, y) && OutcomeInv(y, g)
  {
    hide LocalVector, CursorCovers, IsMissing, Ordered, Payload, Wanted;
    if Running(x) {
      GrowthKeepsCovers(x, g);
    }
  }

  lemma BegunOutcome(x: Half, y: Half)
    requires OutcomeInv(x, y) && OutcomeInv(y, x) && OwnInv(x) && x.phase.Start?
    ensures OutcomeInv(Begun(x), y) && OutcomeInv(y, Begun(x))
  {
    hide LocalVector, IsMissing, Ordered, Payload, Wanted;
    var g := Begun(x);
    forall o, n: nat | o != g.node.db.local.self && RunApplied(Get(g.localVec, o), n, o, g.applied)
      ensures n <= Cursor(g.node.db, o)
    {
      RemoteEntryOf(x.node.db, o);
      assert g.applied == [] && n > Get(g.localVec, o) ==> (o, n) in Identities(g.applied);
    }
  }

  lemma SameNodeKeepsOutcome(x: Half, y: Half, g: Half)
    requires OutcomeInv(x, y) && OutcomeInv(y, x)
    requires g.node == x.node && g.localVec == x.localVec && g.applied == x.applied && (Running(g) ==> Running(x))
    requires g.need == x.need && g.peer == x.peer && g.batches == x.batches && g.answer == x.answer
    requires g.sentBatches == x.sentBatches
    ensures OutcomeInv(g, y) && OutcomeInv(y, g)
  {
    hide LocalVector, IsMissing, Ordered, Payload, Wanted, RunApplied, Cursor;
  }

  lemma HelloOutcome(x: Half, y: Half, g: Half)
    requires Inv(x, y) && Moves(Read, x, y, g) && x.phase.Await? && OutcomeInv(x, y) && OutcomeInv(y, x)
    ensures OutcomeInv(g, y) && OutcomeInv(y, g)
  {
    hide LocalVector, IsMissing, Ordered, Payload, Wanted, RunApplied, Cursor, Accepts;
  }

  lemma NeedOutcome(x: Half, y: Half, g: Half)
    requires Inv(x, y) && Moves(Read, x, y, g) && x.phase.Looping? && y.out[x.read].NeedFrame?
    requires OutcomeInv(x, y) && OutcomeInv(y, x)
    ensures OutcomeInv(g, y) && OutcomeInv(y, g)
  {
    hide LocalVector, IsMissing, Ordered, Payload, Wanted, RunApplied, Cursor, Truncated, Inv, CursorCovers;
    BeforeAnswer(x, y);
    var ranges := y.need.value;
    assert [] + g.batches == g.batches;
    AnswerPayload(x.(read := x.read + 1), ranges, g);
    AnswerIsOrdered(x.node.db, y.localVec, y.peer.value.vector, ranges, g.batches);
    GrowthKeepsCovers(x, g);
  }

  lemma AnswerPayload(h: Half, ranges: seq<Range>, g: Half)
    requires ReadsNeed(h, ranges, g) && h.batches == []
    ensures !Truncated(h.node.db, ranges) ==>
              Payload(g.batches) == Wanted(h.node.db, ranges) && g.answer == Some(Answer(h.node.db, ranges))
    ensures Truncated(h.node.db, ranges) ==> g.phase.Failed? && g.sentBatches == h.sentBatches
    ensures Truncated(h.node.db, ranges) ==>
              exists i :: 0 <= i < |ranges| && Payload(g.batches) == Wanted(h.node.db, ranges[..i])
  {
    hide Truncated, Payload, Wanted, IsTransfer, CutShortAt;
    var sent :| if !Truncated(h.node.db, ranges)
      then IsTransfer(h.node.db, ranges, sent) && g == Transferred(h, ranges, sent)
      else (exists i :: 0 <= i < |ranges| && CutShortAt(h.node.db, ranges, sent, i)) && g == CutOff(h, sent);
    assert h.batches + sent == sent;
    PayloadOfAnswer(h.node.db, ranges, sent);
  }

  lemma PayloadOfAnswer(db: Db, ranges: seq<Range>, sent: seq<Ranges.Batch>)
    ensures IsTransfer(db, ranges, sent) ==> Payload(sent) == Wanted(db, ranges)
    ensures (exists i :: 0 <= i < |ranges| && CutShortAt(db, ranges, sent, i)) ==>
              exists i :: 0 <= i < |ranges| && Payload(sent) == Wanted(db, ranges[..i])
  {
    hide Truncated, Payload, Wanted, IsTransfer, Serves;
    if IsTransfer(db, ranges, sent) {
      TransferShape(db, ranges, sent);
    }
    if i :| 0 <= i < |ranges| && CutShortAt(db, ranges, sent, i) {
      ServedBatches(db, ranges[..i], sent);
      assert Payload(sent) == Wanted(db, ranges[..i]);
    }
  }

  lemma BatchOutcome(x: Half, y: Half, g: Half)
    requires Inv(x, y) && Moves(Read, x, y, g) && x.phase.Looping? && y.out[x.read].BatchFrame?
    requires OutcomeInv(x, y) && OutcomeInv(y, x)
    ensures OutcomeInv(g, y) && OutcomeInv(y, g)
  {
    hide LocalVector, Inv, OutcomeInv, Applied, Next, Applies, ReadsHello, ReadsNeed;
    var b := y.out[x.read].batch;
    var taken := x.(read := x.read + 1);
    if b.complete && !g.phase.Failed? {
      var pending := x.pending + b.events;
      var clock :| Applies(taken, pending, clock, g);
      FlushedFields(taken, pending, clock, g);
      assert x.applied + pending == x.applied + x.pending + b.events;
      PayloadOrdered(x, y);
      FlushIsOrdered(x, y, b);
      FlushOutcome(x, y, g, pending, clock);
    } else {
      KeptFields(taken, b, g);
      SameNodeKeepsOutcome(x, y, g);
    }
  }

  lemma KeptFields(h: Half, b: Ranges.Batch, g: Half)
    requires ReadsBatch(h, b, g) && (!b.complete || g.phase.Failed?) && h.phase.Looping?
    ensures g == h.(phase := g.phase, pending := g.pending)
  {
    hide LocalVector, Applied, Next;
  }

  lemma FlushedFields(h: Half, es: seq<Event>, clock: HLC, g: Half)
    requires Applies(h, es, clock, g) && !g.phase.Failed?
    ensures Applied(h.env.registry, h.node.db, es, clock).Ok?
    ensures g.node == Next(h.env.registry, h.node, Replica.Batch(es, clock)) && g.applied == h.applied + es
    ensures g.localVec == h.localVec && g.need == h.need && g.peer == h.peer && g.batches == h.batches
    ensures g.answer == h.answer && g.sentBatches == h.sentBatches
  {
    hide LocalVector, Applied, Next;
  }

  lemma PayloadOrdered(x: Half, y: Half)
    requires OutcomeInv(x, y)
    ensures Ordered(Payload(y.batches))
  {
  }

  lemma FlushOutcome(x: Half, y: Half, g: Half, es: seq<Event>, clock: HLC)
    requires OutcomeInv(x, y) && OutcomeInv(y, x) && Running(x) && Ordered(x.applied + es)
    requires Applied(x.env.registry, x.node.db, es, clock).Ok?
    requires g.node == Next(x.env.registry, x.node, Replica.Batch(es, clock)) && g.applied == x.applied + es
    requires g.localVec == x.localVec && g.need == x.need && g.peer == x.peer && g.batches == x.batches
    requires g.answer == x.answer && g.sentBatches == x.sentBatches
    ensures OutcomeInv(g, y) && OutcomeInv(y, g)
  {
    hide LocalVector, IsMissing, Ordered, Wanted, CursorCovers, Applied, Next, Payload;
    NextApplies(x.env.registry, x.node, es, clock);
    FlushCovers(x, g, es, clock);
    StepAdvances(x.env.registry, x.node, Replica.Batch(es, clock));
  }

  lemma NextApplies(reg: Registry, n: Node, es: seq<Event>, clock: HLC)
    requires Applied(reg, n.db, es, clock).Ok?
    ensures Next(reg, n, Replica.Batch(es, clock)).db == Applied(reg, n.db, es, clock).value
  {
    hide Applied;
  }

  lemma FlushIsOrdered(x: Half, y: Half, b: Ranges.Batch)
    requires Inv(x, y) && x.phase.Looping? && x.read < |y.out| && y.out[x.read] == BatchFrame(b)
             && Ordered(Payload(y.batches))
    ensures Ordered(x.applied + x.pending + b.events)
  {
    hide Payload, Ordered, AnyComplete;
    ScriptAt(y, x.read);
    ScriptSize(y);
    var k := BatchesRead(x, y);
    PayloadStep(y.batches, k);
    PayloadPrefix(y.batches, k + 1);
    var some := Payload(y.batches[..k + 1]);
    assert x.applied + x.pending + b.events == some;
    assert Payload(y.batches)[..|some|] == some;
    OrderedPrefix(Payload(y.batches), |some|);
  }

  lemma ReadKeepsOutcome(x: Half, y: Half, g: Half)
    requires Inv(x, y) && Moves(Read, x, y, g) && OutcomeInv(x, y) && OutcomeInv(y, x)
    ensures OutcomeInv(g, y) && OutcomeInv(y, g)
  {
    hide OutcomeInv, Inv, ReadsHello, ReadsNeed, ReadsBatch, Next, LocalVector, Keeps;
    if x.phase.Await? {
      HelloOutcome(x, y, g);
    } else {
      match y.out[x.read]
      case NeedFrame(_) => NeedOutcome(x, y, g);
      case BatchFrame(_) => BatchOutcome(x, y, g);
      case AckFrame(v) =>
        StepAdvances(x.env.registry, x.node, Record(x.peer.value.origin, v));
        NodeStepKeepsOutcome(x, y, g);
      case ErrorFrame => SameNodeKeepsOutcome(x, y, g);
      case HelloFrame(_) => SameNodeKeepsOutcome(x, y, g);
    }
  }

  lemma MoveKeepsOutcome(kind: Kind, x: Half, y: Half, g: Half)
    requires Inv(x, y) && Moves(kind, x, y, g) && OutcomeInv(x, y) && OutcomeInv(y, x)
    ensures OutcomeInv(g, y) && OutcomeInv(y, g)
  {
    hide OutcomeInv, Inv, Reads, Next, Elsewhere, LocalVector, Keeps;
    match kind
    case Begin => BegunOutcome(x, y) by { OwnOf(x, y); }
    case Read => ReadKeepsOutcome(x, y, g);
    case Lost => SameNodeKeepsOutcome(x, y, g);
    case Abort => SameNodeKeepsOutcome(x, y, g);
    case Meanwhile =>
      ElsewhereAdvances(x.env.registry, x.node, g.node);
      NodeStepKeepsOutcome(x, y, g);
  }

  lemma PairMoveKeepsOutcome(s: Pair, t: Pair)
    requires PairInv(s) && CanMove(s, t) && OutcomeInv(s.a, s.b) && OutcomeInv(s.b, s.a)
    ensures OutcomeInv(t.a, t.b) && OutcomeInv(t.b, t.a)
  {
    hide Inv, Moves, OutcomeInv;
    var kind :| PairMoves(kind, s, t);
    if Moves(kind, s.a, s.b, t.a) && t.b == s.b {
      MoveKeepsOutcome(kind, s.a, s.b, t.a);
    } else {
      InvFlips(s.a, s.b);
      MoveKeepsOutcome(kind, s.b, s.a, t.b);
    }
  }

  lemma OpeningOutcome(s: Pair)
    requires s == Pair(Opening(s.a.env, s.a.node), Opening(s.b.env, s.b.node))
    ensures OutcomeInv(s.a, s.b) && OutcomeInv(s.b, s.a)
  {
  }

  lemma {:induction false} RunKeepsOutcome(run: seq<Pair>, i: nat)
    requires IsSession(run) && i < |run|
    ensures OutcomeInv(run[i].a, run[i].b) && OutcomeInv(run[i].b, run[i].a)
  {
    hide PairMoves, OutcomeInv, PairInv;
    if i == 0 {
      OpeningOutcome(run[0]);
    } else {
      RunKeepsOutcome(run, i - 1);
      RunKeepsInv(run, i - 1);
      assert CanMove(run[i - 1], run[i]);
      PairMoveKeepsOutcome(run[i - 1], run[i]);
    }
  }

  /** The peer's log held, when it answered, every row from the local cursor up
      to `n`. */
  ghost predicate HeldUpTo(x: Half, y: Half, o: Origin, n: nat) {
    && y.answer.Some?
    && Get(x.localVec, o) <= n <= Get(y.localVec, o)
    && forall k: nat :: Get(x.localVec, o) < k <= n ==> k in Present(y.answer.value.db, o)
  }

  lemma FinishedCatchesUp(x: Half, y: Half, o: Origin, n: nat)
    requires Inv(x, y) && OutcomeInv(x, y) && x.phase.Done? && o != x.node.db.local.self && HeldUpTo(x, y, o, n)
    ensures n <= Get(LocalVector(x.node.db), o)
  {
    hide LocalVector, IsMissing, Ordered, Wanted, Payload, Cursor, AnyComplete, Present, OwnInv, ReadInv;
    HalfAllApplied(x, y);
    var ranges := x.need.value;
    assert IsMissing(x.localVec, y.localVec, ranges);
    MissingIsDistinct(x.localVec, y.localVec, ranges);
    forall k: nat | Get(x.localVec, o) < k <= n
      ensures (o, k) in Identities(x.applied)
    {
      AsksFor(x.localVec, y.localVec, ranges, o, k);
      WantedHas(y.answer.value.db, ranges, o, k);
    }
    assert RunApplied(Get(x.localVec, o), n, o, x.applied);
    RemoteEntryOf(x.node.db, o);
  }

  lemma AsksFor(have: Vector, want: Vector, ranges: seq<Range>, o: Origin, k: nat)
    requires IsMissing(have, want, ranges) && Get(have, o) < k <= Get(want, o)
    ensures Requested(ranges, o, k)
  {
  }

  /** A side that finishes has, for every other origin, at least as much of the
      peer's greeting vector as the peer's log held without a gap, and has lost
      nothing. Local writes, other sessions and collections at both nodes may
      happen between any two steps; one answer is read from one log. */
  lemma SessionCatchesUp(run: seq<Pair>, i: nat, o: Origin, n: nat)
    requires IsSession(run) && i < |run|
    ensures run[i].a.phase.Done? && o != run[i].a.node.db.local.self && HeldUpTo(run[i].a, run[i].b, o, n) ==>
              n <= Get(LocalVector(run[i].a.node.db), o)
    ensures run[i].b.phase.Done? && o != run[i].b.node.db.local.self && HeldUpTo(run[i].b, run[i].a, o, n) ==>
              n <= Get(LocalVector(run[i].b.node.db), o)
    ensures run[i].a.phase.Done? ==> AtMost(run[i].a.localVec, LocalVector(run[i].a.node.db))
    ensures run[i].b.phase.Done? ==> AtMost(run[i].b.localVec, LocalVector(run[i].b.node.db))
  {
    hide LocalVector, Inv, HeldUpTo, CursorCovers, Answered, IsMissing, Ordered, Payload;
    RunKeepsInv(run, i);
    InvFlips(run[i].a, run[i].b);
    RunKeepsOutcome(run, i);
    if run[i].a.phase.Done? && o != run[i].a.node.db.local.self && HeldUpTo(run[i].a, run[i].b, o, n) {
      FinishedCatchesUp(run[i].a, run[i].b, o, n);
    }
    if run[i].b.phase.Done? && o != run[i].b.node.db.local.self && HeldUpTo(run[i].b, run[i].a, o, n) {
      FinishedCatchesUp(run[i].b, run[i].a, o, n);
    }
  }

  ghost predicate AppliedAnswer(x: Half, y: Half) {
    Answered(x, y) && x.applied == Wanted(y.answer.value.db, x.need.value)
  }

  /** What a finished side applied is exactly the log rows it asked for, as the
      peer held them when it answered, in request order. */
  lemma AppliedIsWhatWasHeld(run: seq<Pair>, i: nat)
    requires IsSession(run) && i < |run|
    ensures run[i].a.phase.Done? ==> AppliedAnswer(run[i].a, run[i].b)
    ensures run[i].b.phase.Done? ==> AppliedAnswer(run[i].b, run[i].a)
  {
    hide LocalVector, Inv, CursorCovers, IsMissing, Ordered, Payload, Wanted;
    DoneMeansAllApplied(run, i);
    RunKeepsOutcome(run, i);
  }

  /** The peer's log held every row of the ranges asked for. */
  ghost predicate HeldAllAsked(x: Half, y: Half) {
    && y.answer.Some? && x.need.Some?
    && forall o, k :: Requested(x.need.value, o, k) ==> k in Present(y.answer.value.db, o)
  }

  /** If both sides finish and each log held what was asked of it, each side
      has reached the vector the other greeted with. */
  lemma BothReachGreetings(run: seq<Pair>, i: nat)
    requires IsSession(run) && i < |run| && run[i].a.phase.Done? && run[i].b.phase.Done?
    requires HeldAllAsked(run[i].a, run[i].b) && HeldAllAsked(run[i].b, run[i].a)
    ensures forall o :: o != run[i].a.node.db.local.self ==>
                          Get(run[i].b.localVec, o) <= Get(LocalVector(run[i].a.node.db), o)
    ensures forall o :: o != run[i].b.node.db.local.self ==>
                          Get(run[i].a.localVec, o) <= Get(LocalVector(run[i].b.node.db), o)
  {
    hide LocalVector;
    forall o | o != run[i].a.node.db.local.self
      ensures Get(run[i].b.localVec, o) <= Get(LocalVector(run[i].a.node.db), o)
    {
      ReachesGreeting(run, i, run[i].a, run[i].b, o);
    }
    forall o | o != run[i].b.node.db.local.self
      ensures Get(run[i].a.localVec, o) <= Get(LocalVector(run[i].b.node.db), o)
    {
      ReachesGreeting(run, i, run[i].b, run[i].a, o);
    }
  }

  lemma ReachesGreeting(run: seq<Pair>, i: nat, x: Half, y: Half, o: Origin)
    requires IsSession(run) && i < |run| && (run[i] == Pair(x, y) || run[i] == Pair(y, x))
    requires x.phase.Done? && HeldAllAsked(x, y) && o != x.node.db.local.self
    ensures Get(y.localVec, o) <= Get(LocalVector(x.node.db), o)
  {
    hide LocalVector, Inv, CursorCovers, Answered, IsMissing, Ordered, Payload, Present, OutcomeInv;
    RunKeepsInv(run, i);
    InvFlips(run[i].a, run[i].b);
    RunKeepsOutcome(run, i);
    SessionCatchesUp(run, i, o, Get(y.localVec, o));
    assert AtMost(x.localVec, LocalVector(x.node.db));
    if Get(x.localVec, o) <= Get(y.localVec, o) {
      forall k: nat | Get(x.localVec, o) < k <= Get(y.localVec, o)
        ensures k in Present(y.answer.value.db, o)
      {
        NeedIsMissing(x, y);
        AsksFor(x.localVec, y.localVec, x.need.value, o, k);
      }
      assert HeldUpTo(x, y, o, Get(y.localVec, o));
    } else {
      assert Get(x.localVec, o) <= Get(LocalVector(x.node.db), o);
    }
  }

  lemma NeedIsMissing(x: Half, y: Half)
    requires Inv(x, y) && OutcomeInv(x, y) && x.phase.Done?
    ensures x.need.Some? && IsMissing(x.localVec, y.localVec, x.need.value)
  {
  }
}
