/** What a session leaves on record, and whom it talks to, over every
    interleaving of its two halves (internal/sync/sync.go). */
module SessionRecords {
  import opened Changelog
  import opened Store
  import opened Apply
  import opened Replica
  import opened Session
  import opened SessionPair
  import opened SessionOutcome

  // ----- Acknowledgements -----

  /** Every acknowledgement x has read from y is on x's record of y. */
  ghost predicate AcksKept(x: Half, y: Half) {
    forall j :: 0 <= j < x.read && j < |y.out| && y.out[j].AckFrame? ==>
                  && y.node.db.local.self != x.node.db.local.self
                  && AtMost(y.out[j].vector, ProgressOf(x.node.db, y.node.db.local.self))
  }

  lemma Transitive(a: Vector, b: Vector, c: Vector)
    requires AtMost(a, b) && AtMost(b, c)
    ensures AtMost(a, c)
  {
    forall o
      ensures Get(a, o) <= Get(c, o)
    {
      assert Get(a, o) <= Get(b, o);
    }
  }

  /** Any step of the node keeps or raises what it has recorded of a peer. */
  lemma StepRaises(reg: Registry, n: Node, step: Replica.Step, r: Origin)
    requires r != n.db.local.self
    ensures AtMost(ProgressOf(n.db, r), ProgressOf(Next(reg, n, step).db, r))
  {
    hide Next;
    if step.Record? {
      RecordRaises(reg, n, step.peer, step.vector, r);
    } else {
      StepKeepsRecords(reg, n, step, r);
    }
  }

  lemma RecordRaises(reg: Registry, n: Node, peer: Origin, v: Vector, r: Origin)
    ensures AtMost(ProgressOf(n.db, r), ProgressOf(Next(reg, n, Record(peer, v)).db, r))
  {
  }

  lemma ElsewhereRaises(reg: Registry, n: Node, m: Node, r: Origin)
    requires Elsewhere(reg, n, m) && r != n.db.local.self
    ensures AtMost(ProgressOf(n.db, r), ProgressOf(m.db, r))
  {
    hide Next;
    if step :| m == Next(reg, n, step) {
      StepRaises(reg, n, step, r);
    } else {
      assert ProgressOf(m.db, r) == ProgressOf(n.db, r);
    }
  }

  /** What the record of y is about, once x has read past the handshake. */
  lemma PeerIsOther(x: Half, y: Half)
    requires Inv(x, y) && (x.phase.Looping? || x.phase.Done?)
    ensures x.peer == Some(Own(y)) && y.node.db.local.self != x.node.db.local.self
  {
  }

  lemma ReadKeepsAcks(x: Half, y: Half, g: Half)
    requires Inv(x, y) && AcksKept(x, y) && x.read < |y.out| && Reads(x, y.out[x.read], g)
    ensures AcksKept(g, y) && g.read == x.read + 1
  {
    hide Inv, Reads, ProgressOf;
    ReadsWhileRunning(x, y.out[x.read], g);
    if x.phase.Looping? {
      PeerIsOther(x, y);
      ReadRecords(x, y.out[x.read], g);
      var p := y.node.db.local.self;
      forall j | 0 <= j < g.read && j < |y.out| && y.out[j].AckFrame?
        ensures p != g.node.db.local.self && AtMost(y.out[j].vector, ProgressOf(g.node.db, p))
      {
        if j < x.read {
          Transitive(y.out[j].vector, ProgressOf(x.node.db, p), ProgressOf(g.node.db, p));
        }
      }
    } else {
      NothingReadInHandshake(x, y);
      WaitingReads(x, y.out[x.read], g);
    }
  }

  lemma WaitingReads(x: Half, f: Frame, g: Half)
    requires x.phase.Await? && Reads(x, f, g)
    ensures g.node == x.node && g.read == x.read + 1 && x.out <= g.out
  {
    hide ReadsHello, ReadsNeed, ReadsBatch, ReadAck;
    HelloSuits(x.(read := x.read + 1), f, g);
  }

  lemma NothingReadInHandshake(x: Half, y: Half)
    requires Inv(x, y) && x.phase.Await? && x.read < |y.out|
    ensures x.read == 0 && !y.out[0].AckFrame?
  {
    ScriptAt(y, 0);
  }

  /** What y does meanwhile adds frames x has not read. */
  lemma PeerKeepsAcks(x: Half, y: Half, g: Half)
    requires AcksKept(x, y) && x.read <= |y.out| && y.out <= g.out && g.node.db.local.self == y.node.db.local.self
    ensures AcksKept(x, g)
  {
  }

  lemma MovesAppend(kind: Kind, x: Half, y: Half, g: Half)
    requires Moves(kind, x, y, g) && Inv(x, y)
    ensures x.out <= g.out && g.node.db.local.self == x.node.db.local.self
  {
    hide Reads, Inv, LocalVector, Elsewhere;
    match kind
    case Begin =>
    case Read =>
      ReadsWhileRunning(x, y.out[x.read], g);
      if x.phase.Looping? {
        PeerIsOther(x, y);
        ReadRecords(x, y.out[x.read], g);
      } else {
        WaitingReads(x, y.out[x.read], g);
      }
    case Lost =>
    case Abort =>
    case Meanwhile => ElsewhereAdvances(x.env.registry, x.node, g.node);
  }

  lemma MoveKeepsAcks(kind: Kind, x: Half, y: Half, g: Half)
    requires Inv(x, y) && Inv(y, x) && Moves(kind, x, y, g) && AcksKept(x, y) && AcksKept(y, x)
    ensures AcksKept(g, y) && AcksKept(y, g)
  {
    hide Inv, Reads, Elsewhere, ProgressOf, AcksKept;
    MovesAppend(kind, x, y, g);
    ReadWithin(y, x);
    PeerKeepsAcks(y, x, g);
    match kind
    case Begin => SameRecords(x, y, g);
    case Read => ReadKeepsAcks(x, y, g);
    case Lost => SameRecords(x, y, g);
    case Abort => SameRecords(x, y, g);
    case Meanwhile => MeanwhileKeepsAcks(x, y, g);
  }

  lemma ReadWithin(x: Half, y: Half)
    requires Inv(x, y)
    ensures x.read <= |y.out|
  {
  }

  lemma SameRecords(x: Half, y: Half, g: Half)
    requires AcksKept(x, y) && g.read == x.read && g.node == x.node
    ensures AcksKept(g, y)
  {
  }

  lemma MeanwhileKeepsAcks(x: Half, y: Half, g: Half)
    requires Inv(x, y) && AcksKept(x, y) && g.read == x.read && Elsewhere(x.env.registry, x.node, g.node)
    ensures AcksKept(g, y)
  {
    hide Inv, Elsewhere, ProgressOf;
    ElsewhereAdvances(x.env.registry, x.node, g.node);
    var p := y.node.db.local.self;
    forall j | 0 <= j < g.read && j < |y.out| && y.out[j].AckFrame?
      ensures p != g.node.db.local.self && AtMost(y.out[j].vector, ProgressOf(g.node.db, p))
    {
      ElsewhereRaises(x.env.registry, x.node, g.node, p);
      Transitive(y.out[j].vector, ProgressOf(x.node.db, p), ProgressOf(g.node.db, p));
    }
  }

  // ----- Whom a half talks to -----

  function Side(s: Pair, first: bool): Half {
    if first then s.a else s.b
  }

  /** When the half took the greeting, it suited: same protocol and schema, a
      complete foreign identity, no retirement on record. */
  ghost predicate WasAdmitted(run: seq<Pair>, i: nat, first: bool)
    requires i < |run|
  {
    var peer := Own(Side(run[i], !first));
    exists k :: 0 <= k < i && AdmitsAt(run, k, first, peer)
  }

  ghost predicate AdmitsAt(run: seq<Pair>, k: nat, first: bool, peer: Greeting)
    requires k < |run|
  {
    Side(run[k], first).phase.Await? && Suits(Side(run[k], first), peer)
  }

  predicate Talking(h: Half) {
    h.phase.Looping? || h.phase.Done?
  }

  lemma OwnStays(kind: Kind, x: Half, y: Half, g: Half)
    requires Inv(x, y) && Moves(kind, x, y, g) && !x.phase.Start?
    ensures Own(g) == Own(x) && !g.phase.Start?
  {
    hide Reads, Elsewhere, LocalVector;
    match kind
    case Begin =>
    case Read => ReadKeepsOwn(x, y.out[x.read], g, y);
    case Lost =>
    case Abort =>
    case Meanwhile => ElsewhereAdvances(x.env.registry, x.node, g.node);
  }

  lemma ReadKeepsOwn(x: Half, f: Frame, g: Half, y: Half)
    requires Inv(x, y) && Reads(x, f, g)
    ensures Own(g) == Own(x) && !g.phase.Start?
  {
    hide Inv, Reads;
    ReadsWhileRunning(x, f, g);
    if x.phase.Looping? {
      PeerIsOther(x, y);
      ReadRecords(x, f, g);
    } else {
      WaitKeepsVector(x, f, g);
      WaitingReads(x, f, g);
    }
  }

  lemma WaitKeepsVector(x: Half, f: Frame, g: Half)
    requires x.phase.Await? && Reads(x, f, g)
    ensures g.localVec == x.localVec && g.env == x.env && (g.phase.Looping? || g.phase.Failed?)
    ensures g.phase.Looping? ==> f.HelloFrame? && Suits(x, f.hello)
  {
    hide IsMissing, Suits, ReadsNeed, ReadsBatch, ReadAck;
    var taken := x.(read := x.read + 1);
    HelloSuits(taken, f, g);
    if f.HelloFrame? {
      SameSuits(x, taken, f.hello);
    }
  }

  /** A half talks because it did before, or because it just took the peer's
      greeting. */
  lemma TalkingSince(kind: Kind, x: Half, y: Half, g: Half)
    requires Inv(x, y) && Moves(kind, x, y, g) && Talking(g)
    ensures !y.phase.Start?
    ensures Talking(x) || (x.phase.Await? && Suits(x, Own(y)))
  {
    hide Reads, Elsewhere, LocalVector, Suits;
    if kind.Read? {
      ReadsWhileRunning(x, y.out[x.read], g);
      if x.phase.Await? {
        WaitKeepsVector(x, y.out[x.read], g);
        NothingReadInHandshake(x, y);
        ScriptAt(y, 0);
      }
    }
  }

  lemma {:induction false} AdmittedPeer(run: seq<Pair>, i: nat, first: bool)
    requires IsSession(run) && i < |run|
    ensures Talking(Side(run[i], first)) ==> WasAdmitted(run, i, first)
  {
    hide Inv, Moves, Suits;
    if i > 0 && Talking(Side(run[i], first)) {
      AdmittedPeer(run, i - 1, first);
      RunKeepsInv(run, i - 1);
      var s, t := run[i - 1], run[i];
      InvFlips(s.a, s.b);
      assert CanMove(s, t);
      var kind :| PairMoves(kind, s, t);
      StepAdmits(kind, run, i, first);
    }
  }

  lemma AdmittedAt(run: seq<Pair>, k: nat, i: nat, first: bool)
    requires k < i < |run| && AdmitsAt(run, k, first, Own(Side(run[i], !first)))
    ensures WasAdmitted(run, i, first)
  {
  }

  lemma StepAdmits(kind: Kind, run: seq<Pair>, i: nat, first: bool)
    requires 0 < i < |run| && PairMoves(kind, run[i - 1], run[i])
    requires Inv(run[i - 1].a, run[i - 1].b) && Inv(run[i - 1].b, run[i - 1].a)
    requires Talking(Side(run[i - 1], first)) ==> WasAdmitted(run, i - 1, first)
    ensures Talking(Side(run[i], first)) ==> WasAdmitted(run, i, first)
  {
    hide Inv, Moves, Suits;
    var x, y := Side(run[i - 1], first), Side(run[i - 1], !first);
    var g, z := Side(run[i], first), Side(run[i], !first);
    if Talking(g) {
      if Moves(kind, x, y, g) && z == y {
        TalkingSince(kind, x, y, g);
        if Talking(x) {
          var k :| 0 <= k < i - 1 && AdmitsAt(run, k, first, Own(y));
          AdmittedAt(run, k, i, first);
        } else {
          AdmittedAt(run, i - 1, i, first);
        }
      } else {
        assert Moves(kind, y, x, z) && g == x;
        TalkingPeer(x, y);
        OwnStays(kind, y, x, z);
        var k :| 0 <= k < i - 1 && AdmitsAt(run, k, first, Own(y));
        AdmittedAt(run, k, i, first);
      }
    }
  }

  lemma TalkingPeer(x: Half, y: Half)
    requires Inv(x, y) && Talking(x)
    ensures !y.phase.Start?
  {
  }

  /** Over any run: a half in the loop, or done, has the protocol and schema
      version of its peer, whose identity is complete and not its own and was
      not recorded RETIRED when the half took the greeting. */
  lemma TalksToItsKind(run: seq<Pair>, i: nat, first: bool)
    requires IsSession(run) && i < |run| && Talking(Side(run[i], first))
    ensures var x, y := Side(run[i], first), Side(run[i], !first);
            && x.env.protocol == y.env.protocol && x.env.schemaVersion == y.env.schemaVersion
            && y.node.db.local.self.nodeId != "" && y.node.db.local.self.incarnationId != ""
            && x.node.db.local.self != y.node.db.local.self
            && exists k :: 0 <= k < i && KnewNoRetirement(run, k, first, y.node.db.local.self)
  {
    hide PairMoves;
    AdmittedPeer(run, i, first);
    var y := Side(run[i], !first);
    var k :| 0 <= k < i && AdmitsAt(run, k, first, Own(y));
    AdmittedSuits(run, k, first, y);
    SameEnv(run, k, i, first);
  }

  lemma AdmittedSuits(run: seq<Pair>, k: nat, first: bool, y: Half)
    requires k < |run| && AdmitsAt(run, k, first, Own(y))
    ensures KnewNoRetirement(run, k, first, y.node.db.local.self)
    ensures var x := Side(run[k], first);
            && x.env.protocol == y.env.protocol && x.env.schemaVersion == y.env.schemaVersion
            && y.node.db.local.self.nodeId != "" && y.node.db.local.self.incarnationId != ""
            && x.node.db.local.self != y.node.db.local.self
  {
  }

  /** At place k the half was waiting for a greeting and had not recorded the
      origin as RETIRED. */
  ghost predicate KnewNoRetirement(run: seq<Pair>, k: nat, first: bool, o: Origin)
    requires k < |run|
  {
    var nodes := Side(run[k], first).node.db.nodes;
    && Side(run[k], first).phase.Await?
    && !(o.nodeId in nodes && nodes[o.nodeId].status == "RETIRED" && nodes[o.nodeId].incarnationId == o.incarnationId)
  }

  lemma {:induction false} SameEnv(run: seq<Pair>, k: nat, i: nat, first: bool)
    requires IsSession(run) && k <= i < |run|
    ensures Side(run[i], first).env == Side(run[k], first).env
    ensures Side(run[i], first).node.db.local.self == Side(run[k], first).node.db.local.self
    decreases i
  {
    hide Inv, Moves;
    if k < i {
      SameEnv(run, k, i - 1, first);
      RunKeepsInv(run, i - 1);
      var s, t := run[i - 1], run[i];
      InvFlips(s.a, s.b);
      assert CanMove(s, t);
      var kind :| PairMoves(kind, s, t);
      var x, y, g := Side(s, first), Side(s, !first), Side(t, first);
      if Moves(kind, x, y, g) {
        MovesAppend(kind, x, y, g);
        EnvStays(kind, x, y, g);
      }
    }
  }

  lemma EnvStays(kind: Kind, x: Half, y: Half, g: Half)
    requires Inv(x, y) && Moves(kind, x, y, g)
    ensures g.env == x.env
  {
    hide Inv, Reads, Elsewhere;
    if kind.Read? {
      ReadKeepsInv(x, y, g);
    }
  }

  // ----- The whole session -----

  lemma {:induction false} RunKeepsRecords(run: seq<Pair>, i: nat)
    requires IsSession(run) && i < |run|
    ensures AcksKept(run[i].a, run[i].b) && AcksKept(run[i].b, run[i].a)
  {
    hide Inv, Moves, AcksKept;
    if i == 0 {
      NothingReadAtFirst(run[0].a, run[0].b);
      NothingReadAtFirst(run[0].b, run[0].a);
    } else {
      RunKeepsRecords(run, i - 1);
      RunKeepsInv(run, i - 1);
      var s, t := run[i - 1], run[i];
      InvFlips(s.a, s.b);
      assert CanMove(s, t);
      var kind :| PairMoves(kind, s, t);
      if Moves(kind, s.a, s.b, t.a) && t.b == s.b {
        MoveKeepsAcks(kind, s.a, s.b, t.a);
      } else {
        MoveKeepsAcks(kind, s.b, s.a, t.b);
      }
    }
  }

  lemma NothingReadAtFirst(x: Half, y: Half)
    requires x.read == 0
    ensures AcksKept(x, y)
  {
  }

  /** A finished half has read an acknowledgement at least, and every one it has
      read is on its record of the peer: the peer counts for collection from
      then on, as far as it acknowledged. */
  lemma FinishedHasRecorded(run: seq<Pair>, i: nat, first: bool)
    requires IsSession(run) && i < |run| && Side(run[i], first).phase.Done?
    ensures var x, y := Side(run[i], first), Side(run[i], !first);
            && y.acks != [] && AtMost(y.acks[0], ProgressOf(x.node.db, y.node.db.local.self))
            && forall j :: 0 <= j < |y.acks| && 2 + |y.batches| + j < x.read ==>
                             AtMost(y.acks[j], ProgressOf(x.node.db, y.node.db.local.self))
  {
    hide Inv, AcksKept, AtMost;
    RunKeepsInv(run, i);
    InvFlips(run[i].a, run[i].b);
    RunKeepsRecords(run, i);
    var x, y := Side(run[i], first), Side(run[i], !first);
    HalfAllApplied(x, y);
    AcksAreRead(x, y);
  }

  lemma AcksAreRead(x: Half, y: Half)
    requires Inv(x, y) && AcksKept(x, y) && AllApplied(x, y) && x.phase.Done?
    ensures y.acks != []
    ensures forall j :: 0 <= j < |y.acks| && 2 + |y.batches| + j < x.read ==>
                          AtMost(y.acks[j], ProgressOf(x.node.db, y.node.db.local.self))
    ensures AtMost(y.acks[0], ProgressOf(x.node.db, y.node.db.local.self))
  {
    hide AtMost;
    forall j: nat | j < |y.acks|
      ensures 2 + |y.batches| + j < |y.out| && y.out[2 + |y.batches| + j] == AckFrame(y.acks[j])
    {
      ScriptSize(y);
      ScriptAt(y, 2 + |y.batches| + j);
    }
  }
}
