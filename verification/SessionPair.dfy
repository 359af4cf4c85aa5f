/** Two session halves over reliable unbounded FIFO streams
    (internal/sync/sync.go): stream grammar, progress and termination. */
module SessionPair {
  import opened Hlc
  import opened Changelog
  import opened Store
  import opened Apply
  import opened Replica
  import opened Ranges
  import opened Session

  // ----- What a half has written -----

  function AckFrames(acks: seq<Vector>): (fs: seq<Frame>)
    ensures |fs| == |acks| && forall i :: 0 <= i < |fs| ==> fs[i] == AckFrame(acks[i])
  {
    seq(|acks|, i requires 0 <= i < |acks| => AckFrame(acks[i]))
  }

  predicate Greeted(h: Half) {
    match h.phase
    case Start => false
    case Await => h.env.initiated
    case Looping => true
    case Done => true
    case Failed(_) => h.out != []
  }

  /** HELLO, Need, batches, acknowledgements, and an error frame when the half
      reported one. */
  function Script(h: Half): seq<Frame> {
    (if Greeted(h) then [HelloFrame(Own(h))] else []) +
    (if h.need.Some? then [NeedFrame(h.need.value)] else []) +
    Frames(h.batches) + AckFrames(h.acks) + (if h.erred then [ErrorFrame] else [])
  }

  /** The half's own bookkeeping. */
  ghost predicate OwnInv(h: Half) {
    && h.out == Script(h)
    && (h.need.Some? ==> Greeted(h))
    && (h.batches != [] ==> h.need.Some?)
    && (h.acks != [] ==> h.sentBatches)
    && (h.sentBatches ==> h.batches != [] && h.batches[|h.batches| - 1].complete)
    && (h.erred ==> h.phase.Failed? && Greeted(h))
    && (h.phase.Start? || h.phase.Await? ==> Untouched(h))
    && (h.phase.Looping? || h.phase.Done? ==>
          h.need.Some? && h.peer.Some? && h.peer.value.origin != h.node.db.local.self)
    && (h.phase.Looping? || h.phase.Done? ==>
          (h.gotComplete <==> h.acks != []) && (h.sentBatches <==> h.read >= 2) && h.read >= 1)
    && (h.phase.Looping? ==> !(h.gotComplete && h.gotAck && h.sentBatches))
    && (h.phase.Done? ==> h.gotComplete && h.gotAck && h.sentBatches)
    && (!h.phase.Failed? && !h.sentBatches ==> h.batches == [])
    && (h.batches != [] && !h.sentBatches ==> h.erred)
  }

  predicate Untouched(h: Half) {
    && h.need.None? && h.read == 0 && h.peer.None? && h.answer.None?
    && !h.gotComplete && !h.gotAck && !h.sentBatches
    && h.pending == [] && h.applied == []
  }

  /** The frame at each place of a script. */
  lemma ScriptAt(h: Half, i: nat)
    requires OwnInv(h) && i < |h.out|
    ensures i == 0 ==> Greeted(h) && h.out[0] == HelloFrame(Own(h))
    ensures i == 1 ==> h.out[1] == if h.need.Some? then NeedFrame(h.need.value) else ErrorFrame
    ensures 2 <= i < 2 + |h.batches| ==> h.need.Some? && h.out[i] == BatchFrame(h.batches[i - 2])
    ensures 2 + |h.batches| <= i < 2 + |h.batches| + |h.acks| ==>
              h.need.Some? && h.out[i] == AckFrame(h.acks[i - 2 - |h.batches|])
    ensures i >= 2 + |h.batches| + |h.acks| ==> h.out[i] == ErrorFrame && h.erred
  {
  }

  lemma ScriptSize(h: Half)
    requires OwnInv(h)
    ensures |h.out| == (if Greeted(h) then 1 else 0) + (if h.need.Some? then 1 else 0)
                       + |h.batches| + |h.acks| + (if h.erred then 1 else 0)
  {
  }

  // ----- What a half has read -----

  /** How many of the peer's batches were read. */
  function BatchesRead(x: Half, y: Half): nat {
    if x.read < 2 then 0 else if x.read - 2 < |y.batches| then x.read - 2 else |y.batches|
  }

  predicate AnyComplete(batches: seq<Ranges.Batch>) {
    exists i :: 0 <= i < |batches| && batches[i].complete
  }

  /** x's progress through what y wrote. */
  ghost predicate ReadInv(x: Half, y: Half) {
    && x.read <= |y.out|
    && (x.phase.Looping? || x.phase.Done? ==> ReadPart(x, y, BatchesRead(x, y)))
  }

  ghost predicate ReadPart(x: Half, y: Half, k: nat)
    requires k <= |y.batches|
  {
    && x.peer == Some(Own(y))
    && x.applied + x.pending == Payload(y.batches[..k])
    && (k > 0 && y.batches[k - 1].complete ==> x.pending == [])
    && (x.gotComplete <==> AnyComplete(y.batches[..k]))
    && (x.gotAck <==> x.read > 2 + |y.batches|)
    && (x.read >= 1 ==> Greeted(y)) && (x.read >= 2 ==> y.need.Some?)
    && x.read <= 2 + |y.batches| + |y.acks|
    && (x.sentBatches && x.answer.Some? ==> y.need.Some? && x.answer.value.ranges == y.need.value)
  }

  // ----- Moves -----

  /** Activity outside the session: any step of the node, and any change of
      membership, persisted marks, epoch or seed sessions. */
  ghost predicate Elsewhere(reg: Registry, n: Node, m: Node) {
    || (exists step :: m == Next(reg, n, step))
    || m == n.(db := n.db.(nodes := m.db.nodes, meta := m.db.meta, seeds := m.db.seeds))
  }

  lemma ElsewhereAdvances(reg: Registry, n: Node, m: Node)
    requires Elsewhere(reg, n, m)
    ensures Keeps(n, m) && AtMost(LocalVector(n.db), LocalVector(m.db))
  {
    hide Next;
    if step :| m == Next(reg, n, step) {
      StepAdvances(reg, n, step);
    }
  }

  datatype Kind = Begin | Read | Lost | Abort | Meanwhile

  /** One half moves while its peer stays put. `Lost`: the peer is gone and
      everything it wrote has been read. `Abort`: a local, transport or
      cancellation failure. `Meanwhile`: anything else the node does. */
  ghost predicate Moves(kind: Kind, x: Half, y: Half, g: Half) {
    match kind
    case Begin => x.phase.Start? && g == Begun(x)
    case Read => x.read < |y.out| && Reads(x, y.out[x.read], g)
    case Lost =>
      && (x.phase.Await? || x.phase.Looping?) && (y.phase.Done? || y.phase.Failed?)
      && x.read == |y.out| && g == x.(phase := Failed(PeerFailed))
    case Abort => !x.phase.Done? && !x.phase.Failed? && g == x.(phase := Failed(Interrupted))
    case Meanwhile => g == x.(node := g.node) && Elsewhere(x.env.registry, x.node, g.node)
  }

  datatype Pair = Pair(a: Half, b: Half)

  ghost predicate PairMoves(kind: Kind, s: Pair, t: Pair) {
    || (Moves(kind, s.a, s.b, t.a) && t.b == s.b)
    || (Moves(kind, s.b, s.a, t.b) && t.a == s.a)
  }

  ghost predicate CanMove(s: Pair, t: Pair) {
    exists kind :: PairMoves(kind, s, t)
  }

  /** Any interleaving of a session between an initiator and a responder. */
  ghost predicate IsSession(run: seq<Pair>) {
    && run != []
    && run[0] == Pair(Opening(run[0].a.env, run[0].a.node), Opening(run[0].b.env, run[0].b.node))
    && run[0].a.env.initiated && !run[0].b.env.initiated
    && forall i :: 0 <= i < |run| - 1 ==> CanMove(run[i], run[i + 1])
  }

  /** Besides the protocol's own moves, a half may be interrupted at any time
      before its end, and its node may take any step at any time. */
  lemma AnythingMayHappen(x: Half, y: Half, node: Node)
    ensures !x.phase.Done? && !x.phase.Failed? ==> Moves(Abort, x, y, x.(phase := Failed(Interrupted)))
    ensures Elsewhere(x.env.registry, x.node, node) ==> Moves(Meanwhile, x, y, x.(node := node))
    ensures forall step :: Elsewhere(x.env.registry, x.node, Next(x.env.registry, x.node, step))
  {
    hide Elsewhere, Next;
    forall step
      ensures Elsewhere(x.env.registry, x.node, Next(x.env.registry, x.node, step))
    {
      StepIsElsewhere(x.env.registry, x.node, step);
    }
  }

  lemma StepIsElsewhere(reg: Registry, n: Node, step: Replica.Step)
    ensures Elsewhere(reg, n, Next(reg, n, step))
  {
    hide Next;
  }

  // ----- The invariant is kept -----

  lemma PayloadStep(batches: seq<Ranges.Batch>, k: nat)
    requires k < |batches|
    ensures Payload(batches[..k + 1]) == Payload(batches[..k]) + batches[k].events
    ensures AnyComplete(batches[..k + 1]) <==> AnyComplete(batches[..k]) || batches[k].complete
  {
    assert batches[..k + 1] == batches[..k] + [batches[k]];
    PayloadSnoc(batches[..k], batches[k]);
    if AnyComplete(batches[..k]) {
      var i :| 0 <= i < k && batches[..k][i].complete;
      assert batches[..k + 1][i].complete;
    }
    if batches[k].complete {
      assert batches[..k + 1][k].complete;
    }
    if AnyComplete(batches[..k + 1]) && !batches[k].complete {
      var i :| 0 <= i < k + 1 && batches[..k + 1][i].complete;
      assert batches[..k][i].complete;
    }
  }

  lemma NothingRead()
    ensures Payload([]) == [] && !AnyComplete([])
  {
  }

  /** What every proof about a move of x starts from and ends in. */
  ghost predicate Inv(x: Half, y: Half) {
    OwnInv(x) && OwnInv(y) && ReadInv(x, y) && ReadInv(y, x)
  }

  lemma BothViews(x: Half, y: Half)
    requires Inv(x, y)
    ensures OwnInv(x) && OwnInv(y) && ReadInv(x, y) && ReadInv(y, x)
  {
  }

  lemma InvFrom(x: Half, y: Half)
    requires OwnInv(x) && OwnInv(y) && ReadInv(x, y) && ReadInv(y, x)
    ensures Inv(x, y)
  {
  }

  /** x wrote no more batches and took nothing back. */
  predicate Adds(x: Half, g: Half) {
    && g.batches == x.batches && |g.acks| >= |x.acks| && |g.out| >= |x.out|
    && Own(g) == Own(x) && (Greeted(x) ==> Greeted(g)) && (x.need.Some? ==> g.need == x.need)
  }

  /** What y read stays valid while x only adds to what it wrote. */
  lemma PeerStillReads(y: Half, x: Half, g: Half)
    requires ReadInv(y, x) && Adds(x, g)
    ensures ReadInv(y, g)
  {
    hide AnyComplete, Payload, Own, Greeted;
  }

  lemma BeginKeepsInv(x: Half, y: Half, g: Half)
    requires Inv(x, y) && Moves(Begin, x, y, g)
    ensures Inv(g, y)
  {
    hide LocalVector, Payload, AnyComplete;
  }

  /** Failing without a word. */
  lemma SilentFailureKeepsInv(x: Half, y: Half, g: Half, cause: Cause, read: nat, pending: seq<Event>)
    requires Inv(x, y) && !x.phase.Failed? && read <= |y.out|
    requires g == x.(phase := Failed(cause), read := read, pending := pending)
    ensures Inv(g, y)
  {
    hide Inv, ReadInv;
    BothViews(x, y);
    assert OwnInv(g) && Adds(x, g);
    PeerStillReads(y, x, g);
    assert ReadInv(g, y) by { FailedReads(g, y); }
    InvFrom(g, y);
  }

  lemma FailedReads(g: Half, y: Half)
    requires g.phase.Failed? && g.read <= |y.out|
    ensures ReadInv(g, y)
  {
  }

  /** Before the greeting is read nothing but a greeting was written. */
  lemma BeforeHello(x: Half, y: Half)
    requires OwnInv(x) && OwnInv(y) && x.phase.Await? && x.read < |y.out|
    ensures x.read == 0 && Greeted(y) && y.out[0] == HelloFrame(Own(y))
    ensures x.batches == [] && x.acks == [] && !x.erred && Untouched(x)
    ensures x.out == if x.env.initiated then [HelloFrame(Own(x))] else []
  {
    ScriptAt(y, x.read);
  }

  lemma HelloKeepsInv(x: Half, y: Half, g: Half)
    requires Inv(x, y) && Moves(Read, x, y, g) && x.phase.Await?
    ensures Inv(g, y)
  {
    hide Inv, OwnInv, ReadInv, Reads, Adds;
    BothViews(x, y);
    BeforeHello(x, y);
    HelloOwn(x, Own(y), g);
    FirstRead(g, y);
    PeerStillReads(y, x, g);
    InvFrom(g, y);
  }

  lemma HelloOwn(x: Half, hello: Greeting, g: Half)
    requires x.phase.Await? && x.read == 0 && Reads(x, HelloFrame(hello), g)
    requires x.batches == [] && x.acks == [] && !x.erred && Untouched(x)
    requires x.out == if x.env.initiated then [HelloFrame(Own(x))] else []
    ensures OwnInv(g) && Adds(x, g)
    ensures g.read == 1 && g.answer.None? && !g.gotComplete && !g.gotAck && g.pending == [] && g.applied == []
    ensures !g.phase.Done? && (g.phase.Looping? ==> g.peer == Some(hello))
  {
    hide IsMissing;
  }

  lemma FirstRead(g: Half, y: Half)
    requires g.read == 1 <= |y.out| && Greeted(y) && g.answer.None? && !g.gotComplete && !g.gotAck
    requires g.pending == [] && g.applied == [] && !g.phase.Done? && (g.phase.Looping? ==> g.peer == Some(Own(y)))
    ensures ReadInv(g, y)
  {
    assert y.batches[..0] == [];
    NothingRead();
  }

  /** Acknowledgements come after every batch. */
  lemma AckPlace(x: Half, y: Half)
    requires OwnInv(y) && x.read < |y.out| && y.out[x.read].AckFrame?
    ensures 2 + |y.batches| <= x.read < 2 + |y.batches| + |y.acks|
  {
    ScriptAt(y, x.read);
  }

  lemma AckKeepsInv(x: Half, y: Half, g: Half)
    requires Inv(x, y) && Moves(Read, x, y, g) && x.phase.Looping? && y.out[x.read].AckFrame?
    ensures Inv(g, y)
  {
    hide Inv, OwnInv, ReadInv, Adds, Next;
    BothViews(x, y);
    AckPlace(x, y);
    AckOwn(x, y.out[x.read].vector, g);
    AckView(x, y, y.out[x.read].vector, g);
    PeerStillReads(y, x, g);
    InvFrom(g, y);
  }

  lemma RecordKeepsSelf(reg: Registry, n: Node, peer: Origin, v: Vector)
    ensures Next(reg, n, Record(peer, v)).db.local == n.db.local
  {
  }

  lemma AckOwn(x: Half, v: Vector, g: Half)
    requires OwnInv(x) && x.phase.Looping? && x.read >= 2 && g == ReadAck(x.(read := x.read + 1), v)
    ensures OwnInv(g) && Adds(x, g)
  {
    hide Next;
    RecordKeepsSelf(x.env.registry, x.node, x.peer.value.origin, v);
  }

  lemma AckView(x: Half, y: Half, v: Vector, g: Half)
    requires ReadInv(x, y) && x.phase.Looping? && x.peer.Some?
    requires 2 + |y.batches| <= x.read < 2 + |y.batches| + |y.acks| && x.read < |y.out|
    requires g == ReadAck(x.(read := x.read + 1), v)
    ensures ReadInv(g, y)
  {
    hide AnyComplete, Payload, Next, Own, Greeted;
    assert BatchesRead(g, y) == BatchesRead(x, y) == |y.batches|;
  }

  /** A half that is about to answer has written HELLO and Need only. */
  lemma BeforeAnswer(x: Half, y: Half)
    requires Inv(x, y) && x.phase.Looping? && x.read < |y.out| && y.out[x.read].NeedFrame?
    ensures x.read == 1 && x.batches == [] && x.acks == [] && !x.sentBatches && !x.gotComplete && !x.gotAck && !x.erred
    ensures x.need.Some? && x.out == [HelloFrame(Own(x)), NeedFrame(x.need.value)]
    ensures y.need.Some? && y.out[1] == NeedFrame(y.need.value)
    ensures BatchesRead(x, y) == 0 && x.applied + x.pending == [] && x.peer == Some(Own(y)) && Greeted(y)
    ensures x.peer.value.origin != x.node.db.local.self
  {
    ScriptAt(y, x.read);
    ScriptSize(y);
    assert y.batches[..0] == [];
  }

  /** x answers the Need it just read. */
  lemma NeedKeepsInv(x: Half, y: Half, g: Half)
    requires Inv(x, y) && Moves(Read, x, y, g) && x.phase.Looping? && y.out[x.read].NeedFrame?
    ensures Inv(g, y)
  {
    hide AnyComplete, Truncated, CutShortAt, IsTransfer, Inv;
    BeforeAnswer(x, y);
    var sent :| if !Truncated(x.node.db, y.need.value)
      then IsTransfer(x.node.db, y.need.value, sent) &&
           g == x.(read := 2, sentBatches := true, batches := [] + sent, out := x.out + Frames(sent),
           answer := Some(Answer(x.node.db, y.need.value)))
      else g == x.(read := 2, phase := Failed(HistoryGone), batches := [] + sent, erred := true,
                out := x.out + Frames(sent) + [ErrorFrame]);
    assert [] + sent == sent;
    if !Truncated(x.node.db, y.need.value) {
      TransferShape(x.node.db, y.need.value, sent);
    }
    AnsweredKeepsInv(x, y, g, sent);
  }

  lemma AnsweredKeepsInv(x: Half, y: Half, g: Half, sent: seq<Ranges.Batch>)
    requires Inv(x, y) && x.phase.Looping? && x.read < |y.out| && y.out[x.read].NeedFrame? && y.need.Some?
    requires
      || (sent != [] && sent[|sent| - 1].complete &&
          g == x.(read := 2, sentBatches := true, batches := sent, out := x.out + Frames(sent),
          answer := Some(Answer(x.node.db, y.need.value))))
      || g == x.(read := 2, phase := Failed(HistoryGone), batches := sent, erred := true,
              out := x.out + Frames(sent) + [ErrorFrame])
    ensures Inv(g, y)
  {
    hide AnyComplete, Payload;
    BeforeAnswer(x, y);
    assert OwnInv(g) by { hide ReadInv; AnsweredOwn(x, g, sent); }
    assert ReadInv(g, y) by { assert y.batches[..0] == []; }
    NothingReadYet(y, x, g);
  }

  lemma AnsweredOwn(x: Half, g: Half, sent: seq<Ranges.Batch>)
    requires OwnInv(x) && x.phase.Looping? && x.read == 1 && x.batches == [] && x.acks == [] && !x.erred && x.need.Some?
    requires !x.sentBatches && !x.gotComplete
    requires x.out == [HelloFrame(Own(x)), NeedFrame(x.need.value)]
    requires
      || (sent != [] && sent[|sent| - 1].complete &&
          exists answer ::
            g == x.(read := 2, sentBatches := true, batches := sent, out := x.out + Frames(sent), answer := answer))
      || g == x.(read := 2, phase := Failed(HistoryGone), batches := sent, erred := true,
              out := x.out + Frames(sent) + [ErrorFrame])
    ensures OwnInv(g)
  {
    assert g.out == Script(g);
  }

  /** The peer has read at most HELLO and Need so far. */
  lemma NothingReadYet(y: Half, x: Half, g: Half)
    requires ReadInv(y, x) && OwnInv(x) && x.batches == [] && x.acks == [] && !x.erred && x.need.Some? && Greeted(x)
    requires g.need == x.need && Own(g) == Own(x) && Greeted(g) && g.acks == [] && |g.out| >= |x.out|
    ensures ReadInv(y, g)
  {
    ScriptSize(x);
    assert BatchesRead(y, g) == 0;
    assert g.batches[..0] == x.batches[..0];
  }

  /** The frame read is the next batch of y. */
  lemma BatchPlace(x: Half, y: Half)
    requires OwnInv(y) && x.read < |y.out| && y.out[x.read].BatchFrame?
    ensures 2 <= x.read < 2 + |y.batches| && BatchesRead(x, y) == x.read - 2
    ensures y.out[x.read].batch == y.batches[x.read - 2]
  {
    ScriptAt(y, x.read);
  }

  lemma BatchKeepsInv(x: Half, y: Half, g: Half)
    requires Inv(x, y) && Moves(Read, x, y, g) && x.phase.Looping? && y.out[x.read].BatchFrame?
    ensures Inv(g, y)
  {
    hide Inv, OwnInv, ReadInv, Adds, ReadsBatch, AnyComplete;
    BothViews(x, y);
    BatchPlace(x, y);
    var k, b := x.read - 2, y.batches[x.read - 2];
    PayloadStep(y.batches, k);
    if g.phase.Failed? {
      BatchFails(x, b, g);
      SilentFailureKeepsInv(x, y, g, g.phase.cause, g.read, g.pending);
    } else {
      BatchOwn(x, b, g);
      BatchView(x, y, g);
      PeerStillReads(y, x, g);
      InvFrom(g, y);
    }
  }

  lemma BatchFails(x: Half, b: Ranges.Batch, g: Half)
    requires x.phase.Looping? && ReadsBatch(x.(read := x.read + 1), b, g) && g.phase.Failed?
    ensures g == x.(phase := g.phase, read := x.read + 1, pending := g.pending)
  {
    hide Applied, Next, LocalVector;
  }

  lemma BatchKeepsSelf(reg: Registry, n: Node, es: seq<Event>, clock: HLC)
    ensures Next(reg, n, Replica.Batch(es, clock)).db.local.self == n.db.local.self
  {
    hide Next;
    StepAdvances(reg, n, Replica.Batch(es, clock));
  }

  lemma BatchOwn(x: Half, b: Ranges.Batch, g: Half)
    requires OwnInv(x) && x.phase.Looping? && x.read >= 2
    requires ReadsBatch(x.(read := x.read + 1), b, g) && !g.phase.Failed?
    ensures OwnInv(g) && Adds(x, g)
  {
    hide Applied, Next, LocalVector;
    if b.complete {
      var pending := x.pending + b.events;
      var clock :| Applies(x.(read := x.read + 1), pending, clock, g);
      BatchKeepsSelf(x.env.registry, x.node, pending, clock);
      assert g.out == Script(g);
    }
  }

  lemma BatchView(x: Half, y: Half, g: Half)
    requires ReadInv(x, y) && x.phase.Looping? && 2 <= x.read < 2 + |y.batches| && x.read < |y.out|
    requires ReadsBatch(x.(read := x.read + 1), y.batches[x.read - 2], g) && !g.phase.Failed?
    requires var k := x.read - 2;
             && Payload(y.batches[..k + 1]) == Payload(y.batches[..k]) + y.batches[k].events
             && (AnyComplete(y.batches[..k + 1]) <==> AnyComplete(y.batches[..k]) || y.batches[k].complete)
    ensures ReadInv(g, y)
  {
    hide AnyComplete, Payload, Next, LocalVector, Applied, Own, Greeted;
    var k := x.read - 2;
    assert BatchesRead(x, y) == k && BatchesRead(g, y) == k + 1;
    assert g.applied + g.pending == x.applied + x.pending + y.batches[k].events;
  }

  lemma MeanwhileKeepsInv(x: Half, y: Half, g: Half)
    requires Inv(x, y) && Moves(Meanwhile, x, y, g)
    ensures Inv(g, y)
  {
    hide Elsewhere, Inv, OwnInv, ReadInv, Adds, LocalVector;
    ElsewhereAdvances(x.env.registry, x.node, g.node);
    BothViews(x, y);
    MeanwhileOwn(x, g);
    MeanwhileView(x, y, g);
    PeerStillReads(y, x, g);
    InvFrom(g, y);
  }

  lemma MeanwhileOwn(x: Half, g: Half)
    requires OwnInv(x) && g == x.(node := g.node) && g.node.db.local.self == x.node.db.local.self
    ensures OwnInv(g) && Adds(x, g)
  {
    assert Script(g) == Script(x);
  }

  lemma MeanwhileView(x: Half, y: Half, g: Half)
    requires ReadInv(x, y) && g == x.(node := g.node)
    ensures ReadInv(g, y)
  {
  }

  lemma MoveKeepsInv(kind: Kind, x: Half, y: Half, g: Half)
    requires Inv(x, y) && Moves(kind, x, y, g)
    ensures Inv(g, y) && g.env == x.env
  {
    hide Inv, Reads, Elsewhere;
    match kind
    case Begin => BeginKeepsInv(x, y, g);
    case Read => ReadKeepsInv(x, y, g);
    case Lost => SilentFailureKeepsInv(x, y, g, PeerFailed, x.read, x.pending) by { assert x.read <= |y.out|; }
    case Abort => SilentFailureKeepsInv(x, y, g, Interrupted, x.read, x.pending) by { ReadWithin(x, y); }
    case Meanwhile => MeanwhileKeepsInv(x, y, g);
  }

  lemma ReadWithin(x: Half, y: Half)
    requires Inv(x, y)
    ensures x.read <= |y.out|
  {
  }

  lemma ReadKeepsInv(x: Half, y: Half, g: Half)
    requires Inv(x, y) && Moves(Read, x, y, g)
    ensures Inv(g, y) && g.env == x.env
  {
    hide Inv, Reads;
    var f := y.out[x.read];
    ReadKeepsEnv(x, f, g);
    PlainFailures(x, f, g);
    if x.phase.Await? {
      HelloKeepsInv(x, y, g);
    } else if f.NeedFrame? {
      NeedKeepsInv(x, y, g);
    } else if f.BatchFrame? {
      BatchKeepsInv(x, y, g);
    } else if f.AckFrame? {
      AckKeepsInv(x, y, g);
    } else {
      SilentFailureKeepsInv(x, y, g, g.phase.cause, x.read + 1, x.pending);
    }
  }

  lemma PlainFailures(x: Half, f: Frame, g: Half)
    requires Reads(x, f, g)
    ensures x.phase.Await? || x.phase.Looping?
    ensures x.phase.Looping? && (f.ErrorFrame? || f.HelloFrame?) ==>
              g.phase.Failed? && g == x.(phase := g.phase, read := x.read + 1)
  {
    hide ReadsHello, ReadsNeed, ReadsBatch, Next;
  }

  lemma ReadKeepsEnv(x: Half, f: Frame, g: Half)
    requires Reads(x, f, g)
    ensures g.env == x.env
  {
    hide ReadsHello, ReadsNeed, ReadsBatch, Next;
    var taken := x.(read := x.read + 1);
    if x.phase.Await? {
      HelloKeepsEnv(taken, f, g);
    } else if f.NeedFrame? {
      NeedKeepsEnv(taken, f.ranges, g);
    } else if f.BatchFrame? {
      BatchKeepsEnv(taken, f.batch, g);
    }
  }

  lemma HelloKeepsEnv(h: Half, f: Frame, g: Half)
    requires ReadsHello(h, f, g)
    ensures g.env == h.env
  {
    hide IsMissing, Accepts;
  }

  lemma NeedKeepsEnv(h: Half, ranges: seq<Range>, g: Half)
    requires ReadsNeed(h, ranges, g)
    ensures g.env == h.env
  {
    hide IsTransfer, Truncated, CutShortAt;
  }

  lemma BatchKeepsEnv(h: Half, b: Ranges.Batch, g: Half)
    requires ReadsBatch(h, b, g)
    ensures g.env == h.env
  {
    hide Applied, LocalVector, Next;
  }

  // ----- Over whole runs -----

  ghost predicate PairInv(s: Pair) {
    Inv(s.a, s.b) && s.a.env.initiated && !s.b.env.initiated
  }

  lemma InvFlips(x: Half, y: Half)
    requires Inv(x, y)
    ensures Inv(y, x)
  {
  }

  lemma OpeningInv(s: Pair)
    requires s == Pair(Opening(s.a.env, s.a.node), Opening(s.b.env, s.b.node))
    ensures Inv(s.a, s.b)
  {
  }

  lemma PairMoveKeepsInv(kind: Kind, s: Pair, t: Pair)
    requires PairInv(s) && PairMoves(kind, s, t)
    ensures PairInv(t)
  {
    hide Inv, Moves;
    if Moves(kind, s.a, s.b, t.a) && t.b == s.b {
      MoveKeepsInv(kind, s.a, s.b, t.a);
    } else {
      InvFlips(s.a, s.b);
      MoveKeepsInv(kind, s.b, s.a, t.b);
      InvFlips(t.b, t.a);
    }
  }

  lemma {:induction false} RunKeepsInv(run: seq<Pair>, i: nat)
    requires IsSession(run) && i < |run|
    ensures PairInv(run[i])
  {
    hide Inv, PairMoves;
    assert i > 0 ==> CanMove(run[i - 1], run[i]);
    if i == 0 {
      OpeningInv(run[0]);
    } else {
      RunKeepsInv(run, i - 1);
      var kind :| PairMoves(kind, run[i - 1], run[i]);
      PairMoveKeepsInv(kind, run[i - 1], run[i]);
    }
  }

  // ----- Grammar -----

  /** HELLO, Need, one or more batches of which the last is Complete, one or
      more acknowledgements. */
  ghost predicate IsFullStream(out: seq<Frame>) {
    exists m: nat :: m < |out| && m >= 3 && IsStreamUpTo(out, m, |out|)
  }

  /** A prefix of such a stream, maybe cut off by an error frame. */
  ghost predicate IsStreamPrefix(out: seq<Frame>) {
    exists m: nat, n: nat :: m <= n <= |out| <= n + 1 && IsStreamUpTo(out, m, n)
  }

  /** Batches end at m, acknowledgements at n; an error frame may follow. */
  ghost predicate IsStreamUpTo(out: seq<Frame>, m: nat, n: nat)
    requires m <= n <= |out|
  {
    && (n > 0 ==> out[0].HelloFrame?) && (n > 1 ==> m >= 2 && out[1].NeedFrame?) && (n < 2 ==> m == n)
    && (forall j :: 2 <= j < m ==> out[j].BatchFrame?)
    && (forall j :: m <= j < n ==> out[j].AckFrame?)
    && (forall j :: n <= j < |out| ==> out[j].ErrorFrame?)
    && (n > m ==> m > 2 && out[m - 1].BatchFrame? && out[m - 1].batch.complete)
  }

  /** Whatever the interleaving, failures included, each side's stream follows
      the grammar; a side that finished wrote all of it. */
  lemma StreamsFollowGrammar(run: seq<Pair>, i: nat)
    requires IsSession(run) && i < |run|
    ensures IsStreamPrefix(run[i].a.out) && IsStreamPrefix(run[i].b.out)
    ensures run[i].a.phase.Done? ==> IsFullStream(run[i].a.out)
    ensures run[i].b.phase.Done? ==> IsFullStream(run[i].b.out)
  {
    hide IsStreamPrefix, IsFullStream;
    RunKeepsInv(run, i);
    HalfFollowsGrammar(run[i].a);
    HalfFollowsGrammar(run[i].b);
  }

  lemma HalfFollowsGrammar(h: Half)
    requires OwnInv(h)
    ensures IsStreamPrefix(h.out)
    ensures h.phase.Done? ==> IsFullStream(h.out)
  {
    ScriptSize(h);
    var n := |h.out| - if h.erred then 1 else 0;
    var m := if n < 2 then n else 2 + |h.batches|;
    assert n < 2 ==> h.batches == [] && h.acks == [];
    forall j | 0 <= j < |h.out|
      ensures j == 0 && n > 0 ==> h.out[j].HelloFrame?
      ensures j == 1 && n > 1 ==> h.out[j].NeedFrame?
      ensures 2 <= j < m ==> h.out[j] == BatchFrame(h.batches[j - 2])
      ensures m <= j < n ==> h.out[j].AckFrame?
      ensures n <= j ==> h.out[j].ErrorFrame?
    {
      ScriptAt(h, j);
    }
    assert IsStreamUpTo(h.out, m, n) by {
      assert n > m ==> h.acks != [] && m > 2 && h.out[m - 1] == BatchFrame(h.batches[m - 3]);
    }
  }

  // ----- What a finished side has done -----

  /** A side leaves the loop without error only after it read every batch the
      peer wrote for its own Need, however many were Complete, handed every
      event in them to ApplyBatch in order, and left nothing pending. */
  lemma DoneMeansAllApplied(run: seq<Pair>, i: nat)
    requires IsSession(run) && i < |run|
    ensures run[i].a.phase.Done? ==> AllApplied(run[i].a, run[i].b)
    ensures run[i].b.phase.Done? ==> AllApplied(run[i].b, run[i].a)
  {
    RunKeepsInv(run, i);
    HalfAllApplied(run[i].a, run[i].b);
    HalfAllApplied(run[i].b, run[i].a);
  }

  ghost predicate AllApplied(x: Half, y: Half) {
    && x.pending == [] && x.applied == Payload(y.batches) && x.peer == Some(Own(y))
    && x.read > 2 + |y.batches|
    && y.sentBatches && y.batches != [] && x.sentBatches && x.gotComplete && x.gotAck
  }

  lemma HalfAllApplied(x: Half, y: Half)
    requires Inv(x, y)
    ensures x.phase.Done? ==> AllApplied(x, y)
  {
    hide AnyComplete, Payload;
    if x.phase.Done? {
      ScriptSize(y);
      assert BatchesRead(x, y) == |y.batches|;
      assert y.batches[..|y.batches|] == y.batches;
      assert y.acks != [] && y.sentBatches;
    }
  }
}
