/** A session never deadlocks and always ends (internal/sync/sync.go). */
module SessionLiveness {
  import opened Hlc
  import opened Changelog
  import opened Store
  import opened Apply
  import opened Replica
  import opened Ranges
  import opened Session
  import opened SessionPair

  // ----- No deadlock -----

  predicate Final(s: Pair) {
    (s.a.phase.Done? || s.a.phase.Failed?) && (s.b.phase.Done? || s.b.phase.Failed?)
  }

  /** A move of the protocol itself. */
  ghost predicate Progresses(s: Pair, t: Pair) {
    PairMoves(Begin, s, t) || PairMoves(Read, s, t) || PairMoves(Lost, s, t)
  }

  /** Everything written has been read and nobody can tell the peer is gone. */
  ghost predicate Idle(x: Half, y: Half) {
    && (x.phase.Await? || x.phase.Looping?) && x.read == |y.out|
  }

  lemma SomeoneCanMove(s: Pair)
    requires PairInv(s) && !Final(s)
    ensures !(Idle(s.a, s.b) && Idle(s.b, s.a))
    ensures s.a.phase.Done? ==> !Idle(s.b, s.a)
    ensures s.b.phase.Done? ==> !Idle(s.a, s.b)
  {
    hide Payload;
    ScriptSize(s.a);
    ScriptSize(s.b);
    CompleteAll(s.a.batches);
    CompleteAll(s.b.batches);
  }

  lemma CompleteAll(batches: seq<Ranges.Batch>)
    ensures batches[..|batches|] == batches
    ensures batches != [] && batches[|batches| - 1].complete ==> AnyComplete(batches)
  {
  }

  /** Every frame can be dealt with in the loop and in the handshake. */
  lemma ReadIsTotal(h: Half, f: Frame)
    requires h.phase.Await? || (h.phase.Looping? && h.peer.Some?)
    ensures exists g :: Reads(h, f, g)
  {
    hide Truncated, IsTransfer, CutShortAt, IsMissing, Applied, LocalVector, Next, Accepts;
    var taken := h.(read := h.read + 1);
    if h.phase.Await? {
      HelloIsTotal(taken, f);
      var g :| ReadsHello(taken, f, g);
      assert Reads(h, f, g);
    } else {
      match f
      case NeedFrame(ranges) =>
        NeedIsTotal(taken, ranges);
        var g :| ReadsNeed(taken, ranges, g);
        assert Reads(h, f, g);
      case BatchFrame(b) =>
        BatchIsTotal(taken, b);
        var g :| ReadsBatch(taken, b, g);
        assert Reads(h, f, g);
      case AckFrame(v) => assert Reads(h, f, ReadAck(taken, v));
      case ErrorFrame => assert Reads(h, f, taken.(phase := Failed(PeerFailed)));
      case HelloFrame(_) => assert Reads(h, f, taken.(phase := Failed(Unexpected)));
    }
  }

  lemma HelloIsTotal(h: Half, f: Frame)
    ensures exists g :: ReadsHello(h, f, g)
  {
    hide IsMissing, Accepts;
    var greeted := if h.env.initiated then h.out else h.out + [HelloFrame(Own(h))];
    match f
    case HelloFrame(hello) =>
      if Accepts(h, hello) {
        var ranges := MissingExists(h.localVec, hello.vector);
        var g := h.(phase := Looping, peer := Some(hello), need := Some(ranges), out := greeted + [NeedFrame(ranges)]);
        assert ReadsHello(h, f, g);
      } else {
        assert ReadsHello(h, f, h.(phase := Failed(Refused), erred := true, out := greeted + [ErrorFrame]));
      }
    case ErrorFrame => assert ReadsHello(h, f, h.(phase := Failed(PeerFailed)));
    case NeedFrame(_) => assert ReadsHello(h, f, h.(phase := Failed(Unexpected)));
    case BatchFrame(_) => assert ReadsHello(h, f, h.(phase := Failed(Unexpected)));
    case AckFrame(_) => assert ReadsHello(h, f, h.(phase := Failed(Unexpected)));
  }

  lemma NeedIsTotal(h: Half, ranges: seq<Range>)
    ensures exists g :: ReadsNeed(h, ranges, g)
  {
    hide Truncated, IsTransfer, CutShortAt;
    var sent := AnswerExists(h.node.db, ranges);
    var g := if !Truncated(h.node.db, ranges) then Transferred(h, ranges, sent) else CutOff(h, sent);
    assert ReadsNeed(h, ranges, g);
  }

  lemma BatchIsTotal(h: Half, b: Ranges.Batch)
    ensures exists g :: ReadsBatch(h, b, g)
  {
    hide Applied, LocalVector, Next;
    var pending, clock := h.pending + b.events, HLC(0, 0);
    if !b.complete {
      assert ReadsBatch(h, b, h.(pending := pending));
    } else {
      var g := match Applied(h.env.registry, h.node.db, pending, clock)
        case Err(_) => h.(phase := Failed(ApplyFailed), pending := pending)
        case Ok(after) => Flushed(h, pending, clock, LocalVector(after));
      assert Applies(h, pending, clock, g);
      assert ReadsBatch(h, b, g);
    }
  }

  lemma HalfCanMove(x: Half, y: Half)
    requires Inv(x, y) && !x.phase.Done? && !x.phase.Failed?
    requires x.read == |y.out| ==> x.phase.Start? || y.phase.Failed?
    ensures exists g :: Moves(Begin, x, y, g) || Moves(Read, x, y, g) || Moves(Lost, x, y, g)
  {
    hide Reads;
    if x.phase.Start? {
      assert Moves(Begin, x, y, Begun(x));
    } else if x.read == |y.out| {
      assert Moves(Lost, x, y, x.(phase := Failed(PeerFailed)));
    } else {
      ReadIsTotal(x, y.out[x.read]);
      var g :| Reads(x, y.out[x.read], g);
      assert Moves(Read, x, y, g);
    }
  }

  /** No deadlock: until both sides have ended, the protocol can move. */
  lemma NeverStuck(run: seq<Pair>, i: nat)
    requires IsSession(run) && i < |run| && !Final(run[i])
    ensures exists t :: Progresses(run[i], t)
  {
    hide Inv, Moves;
    var s := run[i];
    RunKeepsInv(run, i);
    SomeoneCanMove(s);
    ReadWithin(s.a, s.b);
    InvFlips(s.a, s.b);
    if !s.a.phase.Done? && !s.a.phase.Failed? && (s.a.read == |s.b.out| ==> s.a.phase.Start? || s.b.phase.Failed?) {
      HalfCanMove(s.a, s.b);
      var g :| Moves(Begin, s.a, s.b, g) || Moves(Read, s.a, s.b, g) || Moves(Lost, s.a, s.b, g);
      assert Progresses(s, Pair(g, s.b));
    } else {
      HalfCanMove(s.b, s.a);
      var g :| Moves(Begin, s.b, s.a, g) || Moves(Read, s.b, s.a, g) || Moves(Lost, s.b, s.a, g);
      assert Progresses(s, Pair(s.a, g));
    }
  }

  // ----- Termination -----

  function Rank(h: Half): nat {
    match h.phase
    case Start => 5
    case Await => 4
    case Looping => if h.sentBatches then 2 else 3
    case Done => 0
    case Failed(_) => 0
  }

  function Ranks(s: Pair): nat {
    Rank(s.a) + Rank(s.b)
  }

  function BatchesToRead(s: Pair): nat {
    |s.b.batches| - BatchesRead(s.a, s.b) + |s.a.batches| - BatchesRead(s.b, s.a)
  }

  ghost function FramesToRead(s: Pair): nat
    requires PairInv(s)
  {
    |s.b.out| - s.a.read + |s.a.out| - s.b.read
  }

  /** Lexicographically smaller: phases, unread batches, unread frames. */
  ghost predicate Smaller(t: Pair, s: Pair)
    requires PairInv(s) && PairInv(t)
  {
    || Ranks(t) < Ranks(s)
    || (Ranks(t) == Ranks(s) && BatchesToRead(t) < BatchesToRead(s))
    || (Ranks(t) == Ranks(s) && BatchesToRead(t) == BatchesToRead(s) && FramesToRead(t) < FramesToRead(s))
  }

  /** x is no higher, and on the same level only reads on. */
  predicate ReadsOn(x: Half, y: Half, g: Half) {
    || Rank(g) < Rank(x)
    || (Rank(g) == Rank(x) && g.batches == x.batches && BatchesRead(g, y) > BatchesRead(x, y))
    || (Rank(g) == Rank(x) && g.batches == x.batches && BatchesRead(g, y) == BatchesRead(x, y)
        && g.out == x.out && g.read == x.read + 1)
  }

  lemma ReadShrinks(x: Half, y: Half, g: Half)
    requires Inv(x, y) && Moves(Read, x, y, g)
    ensures ReadsOn(x, y, g)
  {
    hide Reads, Inv, ReadsOn;
    var f := y.out[x.read];
    ReadKinds(x, f, g);
    if x.phase.Await? {
      HelloReadsOn(x, y, f, g);
    } else if f.BatchFrame? {
      BatchReadsOn(x, y, g);
    } else if f.NeedFrame? {
      NeedReadsOn(x, y, g);
    } else {
      PlainReadsOn(x, y, f, g);
    }
  }

  lemma ReadKinds(x: Half, f: Frame, g: Half)
    requires Reads(x, f, g)
    ensures x.phase.Await? ==> ReadsHello(x.(read := x.read + 1), f, g)
    ensures x.phase.Looping? && f.BatchFrame? ==> ReadsBatch(x.(read := x.read + 1), f.batch, g)
    ensures x.phase.Looping? && f.NeedFrame? ==> ReadsNeed(x.(read := x.read + 1), f.ranges, g)
    ensures x.phase.Await? || x.phase.Looping?
  {
    hide ReadsHello, ReadsNeed, ReadsBatch, Next;
  }

  lemma HelloReadsOn(x: Half, y: Half, f: Frame, g: Half)
    requires x.phase.Await? && ReadsHello(x.(read := x.read + 1), f, g)
    ensures ReadsOn(x, y, g)
  {
    hide ReadsHello, BatchesRead;
    HelloShrinks(x.(read := x.read + 1), f, g);
  }

  lemma BatchReadsOn(x: Half, y: Half, g: Half)
    requires Inv(x, y) && x.phase.Looping? && x.read < |y.out| && y.out[x.read].BatchFrame?
    requires ReadsBatch(x.(read := x.read + 1), y.out[x.read].batch, g)
    ensures ReadsOn(x, y, g)
  {
    hide ReadsBatch, Inv;
    BatchIsCounted(x, y);
    BatchShrinks(x.(read := x.read + 1), y.out[x.read].batch, g);
  }

  lemma NeedReadsOn(x: Half, y: Half, g: Half)
    requires Inv(x, y) && x.phase.Looping? && x.read < |y.out| && y.out[x.read].NeedFrame?
    requires ReadsNeed(x.(read := x.read + 1), y.out[x.read].ranges, g)
    ensures ReadsOn(x, y, g)
  {
    hide ReadsNeed, Inv, BatchesRead;
    BeforeAnswer(x, y);
    NeedShrinks(x.(read := x.read + 1), y.out[x.read].ranges, g);
  }

  lemma PlainReadsOn(x: Half, y: Half, f: Frame, g: Half)
    requires Reads(x, f, g) && x.phase.Looping? && !f.BatchFrame? && !f.NeedFrame?
    ensures ReadsOn(x, y, g)
  {
    hide ReadsHello, ReadsNeed, ReadsBatch, Next;
  }

  lemma HelloShrinks(h: Half, f: Frame, g: Half)
    requires h.phase.Await? && ReadsHello(h, f, g)
    ensures Rank(g) < Rank(h)
  {
    hide IsMissing, Accepts;
  }

  lemma BatchIsCounted(x: Half, y: Half)
    requires Inv(x, y) && x.read < |y.out| && y.out[x.read].BatchFrame?
    ensures 2 <= x.read < 2 + |y.batches|
  {
    ScriptAt(y, x.read);
  }

  lemma BatchShrinks(h: Half, b: Ranges.Batch, g: Half)
    requires h.phase.Looping? && ReadsBatch(h, b, g)
    ensures Rank(g) <= Rank(h) && g.read == h.read && (Rank(g) == Rank(h) ==> g.batches == h.batches)
  {
    hide LocalVector, Applied, Next;
  }

  lemma NeedShrinks(h: Half, ranges: seq<Range>, g: Half)
    requires h.phase.Looping? && !h.sentBatches && ReadsNeed(h, ranges, g)
    ensures Rank(g) < Rank(h)
  {
    hide Truncated, IsTransfer, CutShortAt;
  }

  lemma PairShrinks(x: Half, y: Half, g: Half)
    requires Inv(x, y)
    requires Moves(Begin, x, y, g) || Moves(Read, x, y, g) || Moves(Lost, x, y, g)
    ensures ReadsOn(x, y, g)
  {
    hide Inv, Reads;
    if Moves(Read, x, y, g) {
      ReadShrinks(x, y, g);
    }
  }

  /** Every move of the protocol makes the pair strictly smaller. */
  lemma ProgressShrinks(s: Pair, t: Pair)
    requires PairInv(s) && Progresses(s, t)
    ensures PairInv(t) && Smaller(t, s)
  {
    hide Inv, Moves, BatchesRead;
    var kind := if PairMoves(Begin, s, t) then Begin else if PairMoves(Read, s, t) then Read else Lost;
    PairMoveKeepsInv(kind, s, t);
    if Moves(kind, s.a, s.b, t.a) && t.b == s.b {
      PairShrinks(s.a, s.b, t.a);
      assert BatchesRead(t.b, t.a) == BatchesRead(s.b, s.a) || t.a.batches != s.a.batches
      by { SameBatchesRead(s.b, s.a, t.a); }
    } else {
      InvFlips(s.a, s.b);
      InvFlips(t.a, t.b);
      PairShrinks(s.b, s.a, t.b);
      assert BatchesRead(t.a, t.b) == BatchesRead(s.a, s.b) || t.b.batches != s.b.batches
      by { SameBatchesRead(s.a, s.b, t.b); }
    }
  }

  lemma SameBatchesRead(x: Half, y: Half, z: Half)
    ensures y.batches == z.batches ==> BatchesRead(x, y) == BatchesRead(x, z)
  {
  }

  function Last(run: seq<Pair>): Pair
    requires run != []
  {
    run[|run| - 1]
  }

  ghost predicate Unfinished(run: seq<Pair>) {
    run != [] && PairInv(Last(run)) && !Final(Last(run))
  }

  /** A scheduler that sees the whole run and always picks a possible move. */
  ghost predicate Picks(schedule: seq<Pair> -> Pair) {
    forall run :: Unfinished(run) ==> Progresses(Last(run), schedule(run))
  }

  /** Each pair from place `from` on is the scheduler's move in the run before. */
  ghost predicate Follows(run: seq<Pair>, schedule: seq<Pair> -> Pair, from: nat) {
    forall i :: from <= i < |run| ==> Unfinished(run[..i]) && run[i] == schedule(run[..i])
  }

  /** Whatever a scheduler picks among the possible moves, the run it continues
      reaches a pair in which each side has finished or failed. */
  lemma {:induction false} Play(past: seq<Pair>, schedule: seq<Pair> -> Pair) returns (run: seq<Pair>)
    requires past != [] && PairInv(Last(past)) && Picks(schedule)
    ensures past <= run && Follows(run, schedule, |past|)
    ensures Final(Last(run)) && PairInv(Last(run))
    decreases Ranks(Last(past)), BatchesToRead(Last(past)), FramesToRead(Last(past))
  {
    hide PairInv, Progresses, Final, Ranks, BatchesToRead, FramesToRead;
    if Final(Last(past)) {
      run := past;
    } else {
      assert Unfinished(past);
      var next := schedule(past);
      ProgressShrinks(Last(past), next);
      assert Last(past + [next]) == next;
      run := Play(past + [next], schedule);
      assert run[..|past|] == past && run[|past|] == next;
    }
  }

  // ----- Every run -----

  /** Activity outside the session leaves the measure alone; an interruption
      lowers it. */
  lemma OtherMovesDoNotGrow(kind: Kind, s: Pair, t: Pair)
    requires PairInv(s) && PairInv(t) && PairMoves(kind, s, t)
    ensures kind.Meanwhile? ==>
              Ranks(t) == Ranks(s) && BatchesToRead(t) == BatchesToRead(s) && FramesToRead(t) == FramesToRead(s)
    ensures kind.Abort? ==> Ranks(t) < Ranks(s)
  {
    hide Inv, Reads, Elsewhere;
  }

  /** Moves of the protocol among the steps of a run. */
  ghost function ProtocolMoves(run: seq<Pair>): nat {
    if |run| < 2 then 0
    else
      var n := |run| - 1;
      ProtocolMoves(run[..n]) + if Progresses(run[n - 1], run[n]) then 1 else 0
  }

  /** Frames read, plus one for having begun and one for having failed. */
  function Spent(h: Half): nat {
    h.read + (if h.phase.Start? then 0 else 1) + if h.phase.Failed? then 1 else 0
  }

  lemma ReadSpends(x: Half, f: Frame, g: Half)
    requires Reads(x, f, g)
    ensures Spent(g) >= Spent(x) + 1
  {
    hide ReadsHello, ReadsNeed, ReadsBatch, Next;
    var taken := x.(read := x.read + 1);
    if x.phase.Await? {
      HelloSpends(taken, f, g);
    } else if f.NeedFrame? {
      NeedSpends(taken, f.ranges, g);
    } else if f.BatchFrame? {
      BatchSpends(taken, f.batch, g);
    }
  }

  lemma HelloSpends(h: Half, f: Frame, g: Half)
    requires h.phase.Await? && ReadsHello(h, f, g)
    ensures Spent(g) >= Spent(h) && g.acks == h.acks
  {
    hide IsMissing, Accepts;
  }

  lemma NeedSpends(h: Half, ranges: seq<Range>, g: Half)
    requires h.phase.Looping? && ReadsNeed(h, ranges, g)
    ensures Spent(g) >= Spent(h) && g.acks == h.acks
  {
    hide Truncated, IsTransfer, CutShortAt;
  }

  lemma BatchSpends(h: Half, b: Ranges.Batch, g: Half)
    requires h.phase.Looping? && ReadsBatch(h, b, g)
    ensures Spent(g) >= Spent(h) && |g.acks| <= |h.acks| + 1
  {
    hide LocalVector, Applied, Next;
  }

  lemma MoveSpends(kind: Kind, x: Half, y: Half, g: Half)
    requires Moves(kind, x, y, g)
    ensures Spent(g) >= Spent(x) + if kind.Begin? || kind.Read? || kind.Lost? then 1 else 0
  {
    hide Reads, Elsewhere;
    if kind.Read? {
      ReadSpends(x, y.out[x.read], g);
    }
  }

  lemma PairSpends(s: Pair, t: Pair)
    requires CanMove(s, t)
    ensures Spent(t.a) + Spent(t.b) >= Spent(s.a) + Spent(s.b) + if Progresses(s, t) then 1 else 0
  {
    hide Moves, Spent;
    var kind :| PairMoves(kind, s, t);
    var chosen := if PairMoves(Begin, s, t) then Begin
    else if PairMoves(Read, s, t) then Read
    else if PairMoves(Lost, s, t) then Lost else kind;
    assert PairMoves(chosen, s, t);
    if Moves(chosen, s.a, s.b, t.a) && t.b == s.b {
      MoveSpends(chosen, s.a, s.b, t.a);
    } else {
      MoveSpends(chosen, s.b, s.a, t.b);
    }
  }

  lemma {:induction false} RunSpends(run: seq<Pair>)
    requires IsSession(run)
    ensures ProtocolMoves(run) <= Spent(run[|run| - 1].a) + Spent(run[|run| - 1].b)
  {
    hide CanMove, Spent, Progresses;
    var n := |run| - 1;
    if n > 0 {
      assert IsSession(run[..n]) by { ShorterSession(run); }
      RunSpends(run[..n]);
      assert CanMove(run[n - 1], run[n]);
      PairSpends(run[n - 1], run[n]);
    }
  }

  lemma ShorterSession(run: seq<Pair>)
    requires IsSession(run) && |run| > 1
    ensures IsSession(run[..|run| - 1])
  {
    hide CanMove;
    var init := run[..|run| - 1];
    forall i | 0 <= i < |init| - 1
      ensures CanMove(init[i], init[i + 1])
    {
      assert CanMove(run[i], run[i + 1]);
    }
  }

  /** At most one acknowledgement per batch read. */
  ghost predicate AckInv(x: Half, y: Half) {
    |x.acks| <= BatchesRead(x, y)
  }

  lemma ReadKeepsAcks(x: Half, y: Half, g: Half)
    requires Inv(x, y) && Moves(Read, x, y, g) && AckInv(x, y)
    ensures AckInv(g, y) && g.read == x.read + 1
  {
    hide Inv, ReadsHello, ReadsNeed, ReadsBatch, Next;
    var f, taken := y.out[x.read], x.(read := x.read + 1);
    if x.phase.Await? {
      HelloSpends(taken, f, g);
      HelloRead(taken, f, g);
    } else if f.NeedFrame? {
      NeedSpends(taken, f.ranges, g);
      NeedRead(taken, f.ranges, g);
    } else if f.BatchFrame? {
      BatchIsCounted(x, y);
      BatchSpends(taken, f.batch, g);
      BatchShrinks(taken, f.batch, g);
    }
  }

  lemma HelloRead(h: Half, f: Frame, g: Half)
    requires ReadsHello(h, f, g)
    ensures g.read == h.read && g.batches == h.batches
  {
    hide IsMissing, Accepts;
  }

  lemma NeedRead(h: Half, ranges: seq<Range>, g: Half)
    requires ReadsNeed(h, ranges, g)
    ensures g.read == h.read
  {
    hide Truncated, IsTransfer, CutShortAt;
  }

  /** Batches once written stay; before they are, the peer has read none. */
  lemma PeerAcksStay(x: Half, y: Half, g: Half)
    requires Inv(x, y) && Inv(g, y) && Moves(Read, x, y, g) && AckInv(y, x)
    ensures AckInv(y, g)
  {
    hide Reads, Inv, Own, Greeted, Payload;
    BatchesStay(x, y, g);
  }

  lemma BatchesStay(x: Half, y: Half, g: Half)
    requires Inv(x, y) && Moves(Read, x, y, g)
    ensures g.batches == x.batches || BatchesRead(y, x) == 0
  {
    hide Inv, ReadsHello, ReadsNeed, ReadsBatch, Next;
    var f, taken := y.out[x.read], x.(read := x.read + 1);
    if x.phase.Await? {
      HelloRead(taken, f, g);
    } else if f.NeedFrame? {
      BeforeAnswer(x, y);
    } else if f.BatchFrame? {
      BatchKeepsWritten(taken, f.batch, g);
    }
  }

  lemma BatchKeepsWritten(h: Half, b: Ranges.Batch, g: Half)
    requires ReadsBatch(h, b, g)
    ensures g.batches == h.batches
  {
    hide LocalVector, Applied, Next;
  }

  lemma MoveKeepsAcks(kind: Kind, x: Half, y: Half, g: Half)
    requires Inv(x, y) && Inv(g, y) && Moves(kind, x, y, g) && AckInv(x, y) && AckInv(y, x)
    ensures AckInv(g, y) && AckInv(y, g)
  {
    hide Inv, Reads, Elsewhere;
    if kind.Read? {
      ReadKeepsAcks(x, y, g);
      PeerAcksStay(x, y, g);
    }
  }

  lemma PairMoveKeepsAcks(s: Pair, t: Pair)
    requires PairInv(s) && PairInv(t) && CanMove(s, t) && AckInv(s.a, s.b) && AckInv(s.b, s.a)
    ensures AckInv(t.a, t.b) && AckInv(t.b, t.a)
  {
    hide Inv, Moves, AckInv;
    var kind :| PairMoves(kind, s, t);
    if Moves(kind, s.a, s.b, t.a) && t.b == s.b {
      MoveKeepsAcks(kind, s.a, s.b, t.a);
    } else {
      InvFlips(s.a, s.b);
      InvFlips(t.a, t.b);
      MoveKeepsAcks(kind, s.b, s.a, t.b);
    }
  }

  lemma {:induction false} RunKeepsAcks(run: seq<Pair>, i: nat)
    requires IsSession(run) && i < |run|
    ensures AckInv(run[i].a, run[i].b) && AckInv(run[i].b, run[i].a)
  {
    hide PairInv, CanMove;
    if i > 0 {
      RunKeepsAcks(run, i - 1);
      RunKeepsInv(run, i - 1);
      RunKeepsInv(run, i);
      assert CanMove(run[i - 1], run[i]);
      PairMoveKeepsAcks(run[i - 1], run[i]);
    }
  }

  lemma SpentIsBounded(x: Half, y: Half)
    requires Inv(x, y) && AckInv(y, x)
    ensures Spent(x) <= 5 + |y.batches| + |x.batches|
  {
    hide Payload, AnyComplete;
    ScriptSize(y);
  }

  /** Whatever happens in between, for however long, a run contains at most
      this many moves of the protocol; each side writes its batches once. */
  lemma ProtocolMovesAreBounded(run: seq<Pair>)
    requires IsSession(run)
    ensures ProtocolMoves(run) <= 10 + 2 * (|run[|run| - 1].a.batches| + |run[|run| - 1].b.batches|)
  {
    hide Inv, Spent, AckInv, CanMove;
    var last := |run| - 1;
    RunSpends(run);
    RunKeepsInv(run, last);
    RunKeepsAcks(run, last);
    SpentIsBounded(run[last].a, run[last].b);
    InvFlips(run[last].a, run[last].b);
    SpentIsBounded(run[last].b, run[last].a);
  }
}
