/** One half of a sync session (internal/sync/sync.go): what each frame read
    does to it, and the loop that reads them. */
module Session {
  import opened Hlc
  import opened Changelog
  import opened Store
  import opened Apply
  import opened Replica
  import opened Ranges

  datatype Greeting = Greeting(protocol: int, origin: Origin, schemaVersion: nat, vector: Vector)

  datatype Frame =
    | HelloFrame(hello: Greeting)
    | NeedFrame(ranges: seq<Range>)
    | BatchFrame(batch: Ranges.Batch)
    | AckFrame(vector: Vector)
    | ErrorFrame

  datatype Cause = Refused | HistoryGone | ApplyFailed | PeerFailed | Unexpected | Interrupted

  datatype Phase = Start | Await | Looping | Done | Failed(cause: Cause)

  datatype Env = Env(registry: Registry, protocol: int, schemaVersion: nat, initiated: bool)

  /** The answer to the peer's Need, and the database it was read from. */
  datatype Answer = Answer(db: Db, ranges: seq<Range>)

  /** One running session. `read` counts the frames taken from the peer and
      `out` lists the frames written. The rest below `node` is history:
      the Need and the batches and acknowledgements written, whether an error
      frame was, the answer given, and the events handed to ApplyBatch. */
  datatype Half = Half(
    env: Env, phase: Phase, localVec: Vector, peer: Option<Greeting>,
    pending: seq<Event>, gotComplete: bool, gotAck: bool, sentBatches: bool,
    read: nat, out: seq<Frame>, node: Node,
    need: Option<seq<Range>>, batches: seq<Ranges.Batch>, acks: seq<Vector>, erred: bool,
    answer: Option<Answer>, applied: seq<Event>)

  function Opening(env: Env, node: Node): Half {
    Half(env, Start, map[], None, [], false, false, false, 0, [], node, None, [], [], false, None, [])
  }

  function Own(h: Half): Greeting {
    Greeting(h.env.protocol, h.node.db.local.self, h.env.schemaVersion, h.localVec)
  }

  /** validateHello, then CheckPeer. */
  predicate Accepts(h: Half, peer: Greeting) {
    && peer.protocol == h.env.protocol
    && peer.schemaVersion == h.env.schemaVersion
    && peer.origin.nodeId != "" && peer.origin.incarnationId != ""
    && peer.origin != h.node.db.local.self
    && !IsRetired(h.node.db.nodes, peer.origin)
  }

  function Frames(batches: seq<Ranges.Batch>): (fs: seq<Frame>)
    ensures |fs| == |batches| && forall i :: 0 <= i < |fs| ==> fs[i] == BatchFrame(batches[i])
  {
    seq(|batches|, i requires 0 <= i < |batches| => BatchFrame(batches[i]))
  }

  /** The loop ends as soon as all three flags are set. */
  function Settle(h: Half): Half {
    if h.gotComplete && h.gotAck && h.sentBatches then h.(phase := Done) else h
  }

  /** The vector is read before anything else; the initiator greets first. */
  function Begun(h: Half): Half {
    var g := h.(phase := Await, localVec := LocalVector(h.node.db));
    if h.env.initiated then g.(out := g.out + [HelloFrame(Own(g))]) else g
  }

  ghost predicate ReadsHello(h: Half, f: Frame, g: Half) {
    var greeted := if h.env.initiated then h.out else h.out + [HelloFrame(Own(h))];
    match f
    case HelloFrame(hello) =>
      if Accepts(h, hello)
      then g.need.Some? && IsMissing(h.localVec, hello.vector, g.need.value) &&
           g == h.(phase := Looping, peer := Some(hello), need := g.need, out := greeted + [NeedFrame(g.need.value)])
      else g == h.(phase := Failed(Refused), erred := true, out := greeted + [ErrorFrame])
    case ErrorFrame => g == h.(phase := Failed(PeerFailed))
    case _ => g == h.(phase := Failed(Unexpected))
  }

  function Transferred(h: Half, ranges: seq<Range>, sent: seq<Ranges.Batch>): Half {
    Settle(h.(sentBatches := true, batches := h.batches + sent, out := h.out + Frames(sent),
           answer := Some(Answer(h.node.db, ranges))))
  }

  function CutOff(h: Half, sent: seq<Ranges.Batch>): Half {
    h.(phase := Failed(HistoryGone), batches := h.batches + sent, erred := true,
    out := h.out + Frames(sent) + [ErrorFrame])
  }

  ghost predicate ReadsNeed(h: Half, ranges: seq<Range>, g: Half) {
    exists sent ::
      if !Truncated(h.node.db, ranges)
      then IsTransfer(h.node.db, ranges, sent) && g == Transferred(h, ranges, sent)
      else (exists i :: 0 <= i < |ranges| && CutShortAt(h.node.db, ranges, sent, i)) && g == CutOff(h, sent)
  }

  /** The half after its pending events were committed. */
  function Flushed(h: Half, es: seq<Event>, clock: HLC, vector: Vector): Half {
    Settle(h.(node := Next(h.env.registry, h.node, Replica.Batch(es, clock)), pending := [], applied := h.applied + es,
           gotComplete := true, acks := h.acks + [vector], out := h.out + [AckFrame(vector)]))
  }

  /** What ApplyBatch on the pending events leads to. */
  ghost predicate Applies(h: Half, es: seq<Event>, clock: HLC, g: Half) {
    match Applied(h.env.registry, h.node.db, es, clock)
    case Err(_) => g == h.(phase := Failed(ApplyFailed), pending := es)
    case Ok(after) => g == Flushed(h, es, clock, LocalVector(after))
  }

  /** Events are collected until a Complete batch, then applied in one
      transaction and acknowledged with the vector it committed. */
  ghost predicate ReadsBatch(h: Half, b: Ranges.Batch, g: Half) {
    var pending := h.pending + b.events;
    if b.complete then exists clock :: Applies(h, pending, clock, g) else g == h.(pending := pending)
  }

  function ReadAck(h: Half, v: Vector): Half
    requires h.peer.Some?
  {
    Settle(h.(gotAck := true, node := Next(h.env.registry, h.node, Record(h.peer.value.origin, v))))
  }

  /** What reading one frame does. */
  ghost predicate Reads(h: Half, f: Frame, g: Half) {
    var taken := h.(read := h.read + 1);
    match h.phase
    case Await => ReadsHello(taken, f, g)
    case Looping =>
      (match f
       case NeedFrame(ranges) => ReadsNeed(taken, ranges, g)
       case BatchFrame(b) => ReadsBatch(taken, b, g)
       case AckFrame(v) => h.peer.Some? && g == ReadAck(taken, v)
       case ErrorFrame => g == taken.(phase := Failed(PeerFailed))
       case HelloFrame(_) => g == taken.(phase := Failed(Unexpected)))
    case _ => false
  }

  // ----- The loop -----

  /** The halves a session goes through on the frames it reads. */
  ghost predicate IsTrace(halves: seq<Half>, frames: seq<Frame>) {
    && |halves| == |frames| + 1
    && forall i :: 0 <= i < |frames| ==> Reads(halves[i], frames[i], halves[i + 1])
  }

  lemma TraceGrows(halves: seq<Half>, frames: seq<Frame>, f: Frame, g: Half)
    requires IsTrace(halves, frames) && Reads(halves[|frames|], f, g)
    ensures IsTrace(halves + [g], frames + [f])
  {
    hide Reads;
    forall i | 0 <= i < |frames| + 1
      ensures Reads((halves + [g])[i], (frames + [f])[i], (halves + [g])[i + 1])
    {
      assert i < |frames| ==> Reads(halves[i], frames[i], halves[i + 1]);
    }
  }

  /** A trace that ends where the session stopped. */
  ghost predicate Ends(halves: seq<Half>, start: Half, incoming: seq<Frame>, n: nat, r: Result<()>, sent: seq<Frame>,
                       db: Db) {
    && n <= |incoming| && IsTrace(halves, incoming[..n])
    && halves[0] == Begun(start)
    && halves[n].out == sent && halves[n].node.db == db
    && (r.Ok? <==> halves[n].phase.Done?)
    && (r.Err? && halves[n].phase.Failed? ==> Reports(r.error, halves[n].phase.cause))
    && (r.Err? && !halves[n].phase.Failed? ==> n == |incoming| && r.error == Disconnected)
  }

  // ----- What a session leaves on record -----

  /** What a half asks of its peer's greeting: the same protocol and schema, a
      complete identity that is not its own, and no retirement on record. */
  predicate Suits(h: Half, peer: Greeting) {
    && peer.protocol == h.env.protocol && peer.schemaVersion == h.env.schemaVersion
    && peer.origin.nodeId != "" && peer.origin.incarnationId != "" && peer.origin != h.node.db.local.self
    && !(peer.origin.nodeId in h.node.db.nodes && h.node.db.nodes[peer.origin.nodeId].status == "RETIRED"
         && h.node.db.nodes[peer.origin.nodeId].incarnationId == peer.origin.incarnationId)
  }

  lemma SuitsIff(h: Half, peer: Greeting)
    ensures Accepts(h, peer) <==> Suits(h, peer)
  {
  }

  /** Every acknowledgement among the frames is on record for the peer. */
  ghost predicate AcksOnRecord(frames: seq<Frame>, peer: Origin, db: Db) {
    forall j :: 0 <= j < |frames| && frames[j].AckFrame? ==> AtMost(frames[j].vector, ProgressOf(db, peer))
  }

  ghost predicate StillPeer(h: Half, g: Half) {
    g.peer == h.peer && g.node.db.local.self == h.node.db.local.self && g.env == h.env && g.localVec == h.localVec
  }

  lemma BatchKeepsPeer(h: Half, b: Ranges.Batch, g: Half)
    requires ReadsBatch(h, b, g) && h.peer.Some? && h.peer.value.origin != h.node.db.local.self
    ensures var p := h.peer.value.origin;
            StillPeer(h, g) && ProgressOf(g.node.db, p) == ProgressOf(h.node.db, p)
    ensures g.read == h.read && h.out <= g.out
    ensures g.phase == h.phase || g.phase.Done? || g.phase.Failed?
  {
    hide Applied, LocalVector, Next, ProgressOf;
    if b.complete {
      var es := h.pending + b.events;
      var clock :| Applies(h, es, clock, g);
      if Applied(h.env.registry, h.node.db, es, clock).Ok? {
        AppliedKeepsSelf(h.env.registry, h.node, es, clock);
        BatchRecords(h.env.registry, h.node.db, es, clock, h.peer.value.origin);
      }
    }
  }

  lemma NeedKeepsPeer(h: Half, ranges: seq<Range>, g: Half)
    requires ReadsNeed(h, ranges, g)
    ensures StillPeer(h, g) && g.node == h.node && g.read == h.read && h.out <= g.out
    ensures g.phase == h.phase || g.phase.Done? || g.phase.Failed?
  {
    hide IsTransfer, Truncated, CutShortAt;
    var sent :| if !Truncated(h.node.db, ranges)
      then IsTransfer(h.node.db, ranges, sent) && g == Transferred(h, ranges, sent)
      else (exists i :: 0 <= i < |ranges| && CutShortAt(h.node.db, ranges, sent, i)) && g == CutOff(h, sent);
  }

  lemma AckRecords(h: Half, v: Vector)
    requires h.peer.Some? && h.peer.value.origin != h.node.db.local.self
    ensures var p, g := h.peer.value.origin, ReadAck(h, v);
            && StillPeer(h, g) && AtMost(ProgressOf(h.node.db, p), ProgressOf(g.node.db, p))
            && AtMost(v, ProgressOf(g.node.db, p)) && (g.phase == h.phase || g.phase.Done?)
            && g.read == h.read && g.out == h.out
  {
    RecordIs(h.node.db, h.peer.value.origin, v);
  }

  /** Reading a frame never lowers what is on record for the peer, and puts an
      acknowledgement on record. */
  lemma ReadRecords(h: Half, f: Frame, g: Half)
    requires h.phase.Looping? && Reads(h, f, g) && h.peer.Some? && h.peer.value.origin != h.node.db.local.self
    ensures var p := h.peer.value.origin;
            && StillPeer(h, g) && AtMost(ProgressOf(h.node.db, p), ProgressOf(g.node.db, p))
            && (f.AckFrame? ==> AtMost(f.vector, ProgressOf(g.node.db, p)))
    ensures g.phase.Looping? || g.phase.Done? || g.phase.Failed?
    ensures g.read == h.read + 1 && h.out <= g.out
  {
    hide ReadsNeed, ReadsBatch, ReadAck, ProgressOf;
    var taken := h.(read := h.read + 1);
    match f
    case NeedFrame(ranges) => NeedKeepsPeer(taken, ranges, g);
    case BatchFrame(b) => BatchKeepsPeer(taken, b, g);
    case AckFrame(v) => AckRecords(taken, v);
    case ErrorFrame =>
    case HelloFrame(_) =>
  }

  /** In the loop the peer is the one that greeted, its greeting suited, and
      whatever it acknowledged so far is on record. */
  lemma {:induction false} TraceRecords(halves: seq<Half>, start: Half, frames: seq<Frame>)
    requires IsTrace(halves, frames) && halves[0] == Begun(start) && frames != []
    requires halves[|frames|].phase.Looping? || halves[|frames|].phase.Done?
    ensures var last := halves[|frames|];
            && frames[0].HelloFrame? && Suits(start, frames[0].hello) && last.peer == Some(frames[0].hello)
            && last.node.db.local.self == start.node.db.local.self
            && AcksOnRecord(frames, frames[0].hello.origin, last.node.db)
  {
    hide Reads, LocalVector, Suits;
    var n := |frames| - 1;
    assert Reads(halves[n], frames[n], halves[n + 1]);
    if n == 0 {
      FirstFrame(start, frames[0], halves[1]);
    } else {
      ShorterTrace(halves, frames);
      TraceRuns(halves[..n + 1], start, frames[..n]);
      StillReading(halves[n], frames[n], halves[n + 1]);
      TraceRecords(halves[..n + 1], start, frames[..n]);
      SuitsOther(start, frames[0].hello);
      ReadRecords(halves[n], frames[n], halves[n + 1]);
      var p := frames[0].hello.origin;
      forall j | 0 <= j < |frames| && frames[j].AckFrame?
        ensures AtMost(frames[j].vector, ProgressOf(halves[n + 1].node.db, p))
      {
        assert j < n ==> frames[..n][j] == frames[j];
      }
    }
  }

  lemma StillReading(h: Half, f: Frame, g: Half)
    requires Reads(h, f, g)
    ensures h.phase.Await? || h.phase.Looping?
  {
    hide ReadsNeed, ReadsBatch, ReadAck, ReadsHello;
  }

  /** Once a frame was read the handshake is over, one way or the other. */
  lemma {:induction false} TraceRuns(halves: seq<Half>, start: Half, frames: seq<Frame>)
    requires IsTrace(halves, frames) && halves[0] == Begun(start) && frames != []
    ensures var last := halves[|frames|];
            && !last.phase.Await?
            && (last.phase.Looping? ==>
                  frames[0].HelloFrame? && Suits(start, frames[0].hello) && last.peer == Some(frames[0].hello)
                  && last.node.db.local.self == start.node.db.local.self)
  {
    hide Reads, LocalVector, Suits;
    var n := |frames| - 1;
    assert Reads(halves[n], frames[n], halves[n + 1]);
    if n == 0 {
      FirstFrame(start, frames[0], halves[1]);
    } else {
      ShorterTrace(halves, frames);
      TraceRuns(halves[..n + 1], start, frames[..n]);
      StillReading(halves[n], frames[n], halves[n + 1]);
      SuitsOther(start, frames[0].hello);
      ReadRecords(halves[n], frames[n], halves[n + 1]);
    }
  }

  lemma ShorterTrace(halves: seq<Half>, frames: seq<Frame>)
    requires IsTrace(halves, frames) && frames != []
    ensures IsTrace(halves[..|frames|], frames[..|frames| - 1])
  {
    hide Reads;
    forall i | 0 <= i < |frames| - 1
      ensures Reads(halves[..|frames|][i], frames[..|frames| - 1][i], halves[..|frames|][i + 1])
    {
      assert Reads(halves[i], frames[i], halves[i + 1]);
    }
  }

  lemma SuitsOther(h: Half, peer: Greeting)
    requires Suits(h, peer)
    ensures peer.origin != h.node.db.local.self
  {
  }

  lemma FirstFrame(start: Half, f: Frame, g: Half)
    requires Reads(Begun(start), f, g)
    ensures g.phase.Looping? || g.phase.Failed?
    ensures g.phase.Looping? ==>
              && f.HelloFrame? && Suits(start, f.hello) && g.peer == Some(f.hello) && g.node == start.node
  {
    hide ReadsNeed, ReadsBatch, ReadAck, ReadsHello, Suits;
    var taken := Begun(start).(read := Begun(start).read + 1);
    HelloSuits(taken, f, g);
    if f.HelloFrame? {
      SameSuits(start, taken, f.hello);
    }
  }

  lemma SameSuits(h: Half, g: Half, peer: Greeting)
    requires g.node == h.node && g.env == h.env
    ensures Suits(g, peer) == Suits(h, peer)
  {
  }

  lemma HelloSuits(h: Half, f: Frame, g: Half)
    requires ReadsHello(h, f, g)
    ensures g.phase.Looping? || g.phase.Failed?
    ensures g.node == h.node && g.env == h.env && g.read == h.read && h.out <= g.out
    ensures g.phase.Looping? ==> f.HelloFrame? && Suits(h, f.hello) && g.peer == Some(f.hello) && g.node == h.node
  {
    hide IsMissing, Accepts, Suits;
    if f.HelloFrame? {
      SuitsIff(h, f.hello);
    }
  }

  /** The error a failed session returns. */
  predicate Reports(e: Error, cause: Cause) {
    match cause
    case Refused => e == PeerRejected
    case HistoryGone => e == HistoryTruncated
    case ApplyFailed => e == InvalidEvent || e == RetiredIncarnation
    case PeerFailed => e == Disconnected
    case Unexpected => e == UnexpectedMessage
    case Interrupted => false
  }

  class Sync {
    const db: Database
    const applier: Applier
    const env: Env
    const limits: Limits

    constructor (db: Database, applier: Applier, env: Env, limits: Limits)
      ensures this.db == db && this.applier == applier && this.env == env && this.limits == limits
    {
      this.db, this.applier, this.env, this.limits := db, applier, env, limits;
    }

    ghost predicate Wired()
      reads db
    {
      && applier.db == db && applier.registry == env.registry && applier.self == db.local.self
      && WellFormedRegistry(env.registry)
    }

    /** The half as the running loop holds it. */
    ghost predicate Stands(h: Half, localVec: Vector, sent: seq<Frame>)
      reads db
    {
      && h.node.db == db.View() && h.env == env && h.out == sent && h.localVec == localVec
      && applier.db == db && applier.registry == env.registry && applier.self == db.local.self
    }

    /** What is written on a greeting: the own one unless it went first, then
        a Need for exactly what is missing, or an error frame. */
    ghost predicate Greets(env: Env, h: Half, sent: seq<Frame>, hello: Greeting, last: Frame, out: seq<Frame>) {
      && out == (if env.initiated then sent else sent + [HelloFrame(Own(h))]) + [last]
      && if Accepts(h, hello) then last.NeedFrame? && IsMissing(h.localVec, hello.vector, last.ranges)
         else last.ErrorFrame?
    }

    /** What is written on a Need: a whole transfer, or the rows before the
        first truncated range and an error frame. */
    ghost predicate Answers(v: Db, ranges: seq<Range>, sent: seq<Frame>, batches: seq<Ranges.Batch>, out: seq<Frame>) {
      if !Truncated(v, ranges) then IsTransfer(v, ranges, batches) && out == sent + Frames(batches)
      else
        && (exists i :: 0 <= i < |ranges| && CutShortAt(v, ranges, batches, i))
        && out == sent + Frames(batches) + [ErrorFrame]
    }

    method ValidateHello(peer: Greeting, ghost h: Half) returns (ok: bool)
      requires h.node.db == db.View() && h.env == env
      ensures ok <==> Accepts(h, peer)
      ensures ok <==>
              && peer.protocol == env.protocol && peer.schemaVersion == env.schemaVersion
              && peer.origin.nodeId != "" && peer.origin.incarnationId != "" && peer.origin != db.local.self
              && !(peer.origin.nodeId in db.nodes && db.nodes[peer.origin.nodeId].status == "RETIRED"
                   && db.nodes[peer.origin.nodeId].incarnationId == peer.origin.incarnationId)
    {
      if peer.protocol != env.protocol || peer.schemaVersion != env.schemaVersion {
        return false;
      }
      if peer.origin.nodeId == "" || peer.origin.incarnationId == "" || peer.origin == db.local.self {
        return false;
      }
      var refused := db.CheckIncarnation(peer.origin);
      return !refused;
    }

    /** The handshake: the frame must be an acceptable HELLO. */
    method OnHello(f: Frame, localVec: Vector, sent: seq<Frame>, ghost h: Half)
      returns (peer: Result<Greeting>, out: seq<Frame>, ghost g: Half)
      requires h.phase.Await? && Stands(h, localVec, sent)
      ensures Reads(h, f, g) && Stands(g, localVec, out)
      ensures peer.Ok? <==> f.HelloFrame? && Accepts(h, f.hello)
      ensures peer.Ok? <==>
              && f.HelloFrame? && f.hello.protocol == env.protocol && f.hello.schemaVersion == env.schemaVersion
              && f.hello.origin.nodeId != "" && f.hello.origin.incarnationId != "" && f.hello.origin != db.local.self
              && !(f.hello.origin.nodeId in db.nodes && db.nodes[f.hello.origin.nodeId].status == "RETIRED"
                   && db.nodes[f.hello.origin.nodeId].incarnationId == f.hello.origin.incarnationId)
      ensures peer.Ok? ==> peer.value == f.hello
      ensures peer.Err? ==>
                peer.error == if f.HelloFrame? then PeerRejected else if f.ErrorFrame? then Disconnected
                else UnexpectedMessage
      ensures f.HelloFrame? ==>
                |out| == |sent| + (if env.initiated then 1 else 2) && sent <= out
                && (!env.initiated ==>
                      out[|sent|] == HelloFrame(Greeting(env.protocol, db.local.self, env.schemaVersion, localVec)))
                && if peer.Err? then out[|out| - 1] == ErrorFrame
                else out[|out| - 1].NeedFrame? && IsMissing(localVec, f.hello.vector, out[|out| - 1].ranges)
      ensures f.HelloFrame? ==> exists last :: Greets(env, h, sent, f.hello, last, out)
      ensures !f.HelloFrame? ==> out == sent
      ensures peer.Ok? ==> g.phase.Looping? && g.peer == Some(peer.value) && peer.value.origin != db.local.self
      ensures peer.Err? ==> g.phase.Failed? && Reports(peer.error, g.phase.cause)
      ensures g.pending == h.pending && g.gotComplete == h.gotComplete && g.gotAck == h.gotAck
              && g.sentBatches == h.sentBatches
    {
      hide IsMissing, LocalVector, Accepts, ReadsNeed, ReadsBatch, ReadAck;
      ghost var taken := h.(read := h.read + 1);
      var mine := Greeting(env.protocol, db.local.self, env.schemaVersion, localVec);
      if f.ErrorFrame? {
        return Err(Disconnected), sent, taken.(phase := Failed(PeerFailed));
      }
      if !f.HelloFrame? {
        return Err(UnexpectedMessage), sent, taken.(phase := Failed(Unexpected));
      }
      out := if env.initiated then sent else sent + [HelloFrame(mine)];
      SameNodeAccepts(h, taken, f.hello);
      var ok := ValidateHello(f.hello, taken);
      if !ok {
        assert Greets(env, h, sent, f.hello, ErrorFrame, out + [ErrorFrame]);
        out := out + [ErrorFrame];
        return Err(PeerRejected), out, taken.(phase := Failed(Refused), erred := true, out := out);
      }
      var ranges := Missing(localVec, f.hello.vector);
      assert Greets(env, h, sent, f.hello, NeedFrame(ranges), out + [NeedFrame(ranges)]);
      out := out + [NeedFrame(ranges)];
      g := taken.(phase := Looping, peer := Some(f.hello), need := Some(ranges), out := out);
      return Ok(f.hello), out, g;
    }

    method OnNeed(ranges: seq<Range>, localVec: Vector, sent: seq<Frame>, ghost h: Half)
      returns (r: Result<()>, out: seq<Frame>, ghost g: Half)
      requires h.phase.Looping? && Stands(h, localVec, sent)
      ensures Reads(h, NeedFrame(ranges), g) && Stands(g, localVec, out)
      ensures r.Ok? <==> !Truncated(db.View(), ranges)
      ensures exists batches :: Answers(db.View(), ranges, sent, batches, out)
      ensures r.Err? <==> exists i :: 0 <= i < |ranges| && ReachesBelow(db.meta.gcMarks, ranges[i])
      ensures sent <= out
      ensures r.Err? ==> r.error == HistoryTruncated && out != [] && out[|out| - 1] == ErrorFrame
      ensures r.Ok? ==> exists batches: seq<Ranges.Batch> ::
                  && out == sent + Frames(batches) && Payload(batches) == Wanted(db.View(), ranges)
                  && (forall j :: 0 <= j < |batches| ==> IsBounded(limits, batches[j].events)) && batches != []
                  && batches[|batches| - 1].complete
      ensures r.Ok? ==> g.phase == Settle(h.(sentBatches := true)).phase && g.sentBatches && g.peer == h.peer
      ensures r.Ok? ==> g.pending == h.pending && g.gotComplete == h.gotComplete && g.gotAck == h.gotAck
      ensures r.Err? ==> g.phase.Failed? && Reports(r.error, g.phase.cause)
    {
      hide Truncated, IsTransfer, CutShortAt, Reads;
      ghost var taken := h.(read := h.read + 1);
      var batches;
      batches, r := SendRanges(db, ranges, limits);
      out := sent + Frames(batches);
      if r.Err? {
        out := out + [ErrorFrame];
        g := CutOff(taken, batches);
        NeedCutOff(h, ranges, batches);
        assert Answers(db.View(), ranges, sent, batches, out);
        return r, out, g;
      }
      g := Transferred(taken, ranges, batches);
      TransferShape(db.View(), ranges, batches);
      NeedAnswered(h, ranges, batches);
      assert Answers(db.View(), ranges, sent, batches, out);
      return r, out, g;
    }

    method OnBatch(b: Ranges.Batch, pending: seq<Event>, localVec: Vector, sent: seq<Frame>, ghost h: Half)
      returns (r: Result<()>, rest: seq<Event>, out: seq<Frame>, ghost g: Half)
      requires h.phase.Looping? && Stands(h, localVec, sent) && h.pending == pending
      requires !(h.gotComplete && h.gotAck && h.sentBatches)
      requires WellFormedRegistry(env.registry)
      modifies db, applier.clock
      ensures Reads(h, BatchFrame(b), g) && Stands(g, localVec, out)
      ensures r.Ok? ==> g.phase == Settle(h.(gotComplete := h.gotComplete || b.complete)).phase && g.peer == h.peer
      ensures r.Ok? ==> g.pending == rest && g.gotComplete == (h.gotComplete || b.complete)
      ensures r.Ok? ==> g.gotAck == h.gotAck && g.sentBatches == h.sentBatches
      ensures r.Err? ==> g.phase.Failed? && Reports(r.error, g.phase.cause)
      ensures !b.complete ==> r.Ok? && rest == pending + b.events && out == sent && db.View() == old(db.View())
      ensures b.complete ==> (r.Ok? <==> forall e :: e in pending + b.events ==> Acceptable(old(db.nodes), e))
      ensures b.complete && r.Ok? ==> rest == [] && out == sent + [AckFrame(LocalVector(db.View()))]
      ensures b.complete && r.Ok? ==>
                exists clock :: Applied(env.registry, old(db.View()), pending + b.events, clock) == Ok(db.View())
      ensures sent <= out && (r.Err? ==> db.View() == old(db.View()) && out == sent)
      ensures r.Err? ==> exists i :: 0 <= i < |pending + b.events| && FirstRefused(old(db.nodes), pending + b.events, i)
                                     && r.error == Refusal((pending + b.events)[i])
    {
      hide Acceptable, Refusal, FirstRefused;
      hide Applied, LocalVector, Reads, Next, AdmitAll, PastNewEvents, WellFormedRegistry;
      ghost var taken := h.(read := h.read + 1);
      var all := pending + b.events;
      if !b.complete {
        BatchKept(h, b);
        return Ok(()), all, sent, taken.(pending := all);
      }
      var res := applier.ApplyBatch(all);
      ghost var clock := applier.clock.Load();
      BatchCommitsIff(env.registry, h.node.db, all, clock);
      if res.Err? {
        AppliedErrors(env.registry, h.node.db, all, clock);
        BatchRejected(h, b, clock);
        return Err(res.error), all, sent, taken.(phase := Failed(ApplyFailed), pending := all);
      }
      out := sent + [AckFrame(res.value.vector)];
      AppliedKeepsSelf(env.registry, h.node, all, clock);
      g := Flushed(taken, all, clock, res.value.vector);
      BatchApplied(h, b, clock);
      return Ok(()), [], out, g;
    }

    method OnAck(v: Vector, peer: Greeting, localVec: Vector, sent: seq<Frame>, ghost h: Half) returns (ghost g: Half)
      requires h.phase.Looping? && Stands(h, localVec, sent) && h.peer == Some(peer) && peer.origin != db.local.self
      modifies db`progress
      ensures Reads(h, AckFrame(v), g) && Stands(g, localVec, sent)
      ensures g.phase == Settle(h.(gotAck := true)).phase && g.peer == h.peer
      ensures g.pending == h.pending && g.gotComplete == h.gotComplete && g.gotAck && g.sentBatches == h.sentBatches
      ensures v != map[] ==> peer.origin in db.progress
      ensures forall o ::
                Get(ProgressOf(db.View(), peer.origin), o) ==
                if Get(v, o) > Get(ProgressOf(old(db.View()), peer.origin), o) then Get(v, o)
                else Get(ProgressOf(old(db.View()), peer.origin), o)
      ensures forall r :: r != peer.origin ==>
                            && (r in db.progress <==> r in old(db.progress))
                            && (r in db.progress ==> db.progress[r] == old(db.progress)[r])
      ensures db.View() == old(db.View()).(progress := db.progress)
    {
      RecordIs(db.View(), peer.origin, v);
      db.SetProgressMany(peer.origin, v);
      g := ReadAck(h.(read := h.read + 1), v);
    }

    /** One turn of the loop. */
    method OnFrame(f: Frame, peer: Greeting, pending: seq<Event>, localVec: Vector, sent: seq<Frame>, ghost h: Half)
      returns (r: Result<()>, rest: seq<Event>, out: seq<Frame>, ghost g: Half)
      requires h.phase.Looping? && Stands(h, localVec, sent) && h.peer == Some(peer) && h.pending == pending
      requires !(h.gotComplete && h.gotAck && h.sentBatches)
      requires peer.origin != db.local.self && WellFormedRegistry(env.registry)
      modifies db, applier.clock
      ensures Reads(h, f, g) && Stands(g, localVec, out) && sent <= out
      ensures r.Ok? ==> g.peer == h.peer && g.pending == rest
      ensures r.Ok? ==> g.sentBatches == (h.sentBatches || f.NeedFrame?) && g.gotAck == (h.gotAck || f.AckFrame?)
      ensures r.Ok? ==> g.gotComplete == (h.gotComplete || (f.BatchFrame? && f.batch.complete))
      ensures r.Ok? ==> g.phase == if g.gotComplete && g.gotAck && g.sentBatches then Done else Looping
      ensures r.Err? ==> g.phase.Failed? && Reports(r.error, g.phase.cause)
      ensures f.ErrorFrame? ==> r == Err(Disconnected) && out == sent && db.View() == old(db.View())
      ensures f.HelloFrame? ==> r == Err(UnexpectedMessage) && out == sent && db.View() == old(db.View())
      ensures f.AckFrame? ==> r == Ok(()) && out == sent && rest == pending
    {
      hide Reads, LocalVector, Accepts;
      r, rest, out := Ok(()), pending, sent;
      match f {
        case NeedFrame(ranges) => r, out, g := OnNeed(ranges, localVec, sent, h);
        case BatchFrame(b) => r, rest, out, g := OnBatch(b, pending, localVec, sent, h);
        case AckFrame(v) => g := OnAck(v, peer, localVec, sent, h);
        case ErrorFrame =>
          r, g := Err(Disconnected), h.(read := h.read + 1, phase := Failed(PeerFailed));
          assert Reads(h, f, g) by { PeerErrs(h, g); }
        case HelloFrame(hello) =>
          r, g := Err(UnexpectedMessage), h.(read := h.read + 1, phase := Failed(Unexpected));
          assert Reads(h, f, g) by { HelloAgain(h, hello, g); }
      }
    }

    /** The whole session over the frames the peer sends. Running out of frames
        is a lost connection. */
    method Run(incoming: seq<Frame>, ghost node: Node)
      returns (r: Result<()>, sent: seq<Frame>, ghost halves: seq<Half>)
      requires Wired() && node.db == db.View()
      modifies db, applier.clock
      ensures exists n: nat :: Ends(halves, Opening(env, node), incoming, n, r, sent, db.View())
      ensures env.initiated ==>
                sent != [] && sent[0] == HelloFrame(Greeting(env.protocol, old(db.local.self), env.schemaVersion,
                                                             LocalVector(old(db.View()))))
      ensures r.Ok? ==> incoming != [] && incoming[0].HelloFrame? && Suits(Opening(env, node), incoming[0].hello)
      ensures r.Ok? ==> exists n: nat ::
                  && Ends(halves, Opening(env, node), incoming, n, r, sent, db.View())
                  && AcksOnRecord(incoming[..n], incoming[0].hello.origin, db.View())
    {
      hide Reads, LocalVector, IsTrace, Accepts, Suits, AcksOnRecord;
      var localVec := db.ReadLocalVector();
      sent := if env.initiated then [HelloFrame(Greeting(env.protocol, db.local.self, env.schemaVersion, localVec))]
      else [];
      ghost var start := Opening(env, node);
      ghost var h := Begun(start);
      halves := [h];
      NoFrames(halves, incoming);
      if |incoming| == 0 {
        assert Ends(halves, start, incoming, 0, Err(Disconnected), sent, db.View());
        return Err(Disconnected), sent, halves;
      }
      var peer;
      ghost var g;
      peer, sent, g := OnHello(incoming[0], localVec, sent, h);
      OneMoreFrame(halves, incoming, 0, g);
      halves, h := halves + [g], g;
      if peer.Err? {
        assert Ends(halves, start, incoming, 1, Err(peer.error), sent, db.View());
        return Err(peer.error), sent, halves;
      }
      r, sent, halves := Loop(incoming, peer.value, localVec, sent, halves, start);
      if r.Ok? {
        ghost var n: nat :| Ends(halves, start, incoming, n, r, sent, db.View());
        EndRecords(halves, start, incoming, n, r, sent, db.View());
      }
    }

    method Loop(incoming: seq<Frame>, peer: Greeting, localVec: Vector, written: seq<Frame>,
                ghost before: seq<Half>, ghost start: Half)
      returns (r: Result<()>, sent: seq<Frame>, ghost halves: seq<Half>)
      requires |incoming| >= 1 && |before| == 2 && before[0] == Begun(start) && IsTrace(before, incoming[..1])
      requires before[1].phase.Looping? && Stands(before[1], localVec, written) && before[1].peer == Some(peer)
      requires before[1].pending == [] && !before[1].gotComplete && !before[1].gotAck && !before[1].sentBatches
      requires peer.origin != db.local.self && WellFormedRegistry(env.registry)
      modifies db, applier.clock
      ensures exists n: nat :: Ends(halves, start, incoming, n, r, sent, db.View())
      ensures written <= sent
    {
      hide Reads, LocalVector, IsTrace, Accepts;
      var pending: seq<Event> := [];
      var gotComplete, gotAck, sentBatches := false, false, false;
      var i := 1;
      sent, halves := written, before;
      ghost var h := before[1];
      while !(gotComplete && gotAck && sentBatches)
        invariant 1 <= i <= |incoming| && |halves| == i + 1 && halves[i] == h && halves[0] == Begun(start)
        invariant IsTrace(halves, incoming[..i]) && Stands(h, localVec, sent) && written <= sent
        invariant h.peer == Some(peer) && peer.origin != db.local.self
        invariant h.phase == if gotComplete && gotAck && sentBatches then Done else Looping
        invariant h.pending == pending && h.gotComplete == gotComplete && h.gotAck == gotAck
                  && h.sentBatches == sentBatches
        decreases |incoming| - i
      {
        if i == |incoming| {
          assert Ends(halves, start, incoming, i, Err(Disconnected), sent, db.View());
          return Err(Disconnected), sent, halves;
        }
        var f := incoming[i];
        ghost var g;
        r, pending, sent, g := OnFrame(f, peer, pending, localVec, sent, h);
        OneMoreFrame(halves, incoming, i, g);
        halves, h, i := halves + [g], g, i + 1;
        if r.Err? {
          assert Ends(halves, start, incoming, i, r, sent, db.View());
          return r, sent, halves;
        }
        sentBatches := sentBatches || f.NeedFrame?;
        gotComplete := gotComplete || (f.BatchFrame? && f.batch.complete);
        gotAck := gotAck || f.AckFrame?;
      }
      assert Ends(halves, start, incoming, i, Ok(()), sent, db.View());
      return Ok(()), sent, halves;
    }
  }

  lemma SameNodeAccepts(h: Half, g: Half, peer: Greeting)
    requires g.node == h.node && g.env == h.env
    ensures Accepts(g, peer) == Accepts(h, peer)
  {
  }

  /** The recorded vector is the greater of the two at every origin. */
  lemma RecordIs(db: Db, peer: Origin, v: Vector)
    ensures var after := WithProgressMany(db, peer, v);
            && (forall o :: Get(ProgressOf(after, peer), o) ==
                            if Get(v, o) > Get(ProgressOf(db, peer), o) then Get(v, o)
                            else Get(ProgressOf(db, peer), o))
            && (forall r :: r != peer ==> (r in after.progress <==> r in db.progress)
                                          && (r in db.progress ==> after.progress[r] == db.progress[r]))
  {
  }

  lemma EndRecords(halves: seq<Half>, start: Half, incoming: seq<Frame>, n: nat, r: Result<()>, sent: seq<Frame>,
                   db: Db)
    requires Ends(halves, start, incoming, n, r, sent, db) && r.Ok?
    ensures incoming != [] && incoming[0].HelloFrame? && Suits(start, incoming[0].hello)
    ensures AcksOnRecord(incoming[..n], incoming[0].hello.origin, db)
  {
    hide IsTrace, LocalVector, Suits, AcksOnRecord;
    assert n > 0;
    TraceRecords(halves, start, incoming[..n]);
  }

  lemma OneMoreFrame(halves: seq<Half>, incoming: seq<Frame>, i: nat, g: Half)
    requires i < |incoming| && IsTrace(halves, incoming[..i]) && Reads(halves[i], incoming[i], g)
    ensures IsTrace(halves + [g], incoming[..i + 1])
  {
    hide Reads;
    TraceGrows(halves, incoming[..i], incoming[i], g);
    assert incoming[..i] + [incoming[i]] == incoming[..i + 1];
  }

  lemma NoFrames(halves: seq<Half>, incoming: seq<Frame>)
    requires |halves| == 1
    ensures IsTrace(halves, incoming[..0])
  {
  }

  lemma NeedAnswered(h: Half, ranges: seq<Range>, sent: seq<Ranges.Batch>)
    requires h.phase.Looping? && !Truncated(h.node.db, ranges) && IsTransfer(h.node.db, ranges, sent)
    ensures Reads(h, NeedFrame(ranges), Transferred(h.(read := h.read + 1), ranges, sent))
  {
    hide Truncated, IsTransfer, CutShortAt;
    assert ReadsNeed(h.(read := h.read + 1), ranges, Transferred(h.(read := h.read + 1), ranges, sent));
  }

  lemma NeedCutOff(h: Half, ranges: seq<Range>, sent: seq<Ranges.Batch>)
    requires h.phase.Looping? && Truncated(h.node.db, ranges)
    requires exists i :: 0 <= i < |ranges| && CutShortAt(h.node.db, ranges, sent, i)
    ensures Reads(h, NeedFrame(ranges), CutOff(h.(read := h.read + 1), sent))
  {
    hide Truncated, IsTransfer, CutShortAt;
    assert ReadsNeed(h.(read := h.read + 1), ranges, CutOff(h.(read := h.read + 1), sent));
  }

  lemma BatchKept(h: Half, b: Ranges.Batch)
    requires h.phase.Looping? && !b.complete
    ensures Reads(h, BatchFrame(b), h.(read := h.read + 1, pending := h.pending + b.events))
  {
  }

  lemma BatchRejected(h: Half, b: Ranges.Batch, clock: HLC)
    requires h.phase.Looping? && b.complete && Applied(h.env.registry, h.node.db, h.pending + b.events, clock).Err?
    ensures Reads(h, BatchFrame(b),
                  h.(read := h.read + 1, phase := Failed(ApplyFailed), pending := h.pending + b.events))
  {
    hide Applied, LocalVector, Next;
    var es, taken := h.pending + b.events, h.(read := h.read + 1);
    assert Applies(taken, es, clock, taken.(phase := Failed(ApplyFailed), pending := es));
  }

  lemma BatchApplied(h: Half, b: Ranges.Batch, clock: HLC)
    requires h.phase.Looping? && b.complete && Applied(h.env.registry, h.node.db, h.pending + b.events, clock).Ok?
    ensures var es := h.pending + b.events;
            var vector := LocalVector(Applied(h.env.registry, h.node.db, es, clock).value);
            Reads(h, BatchFrame(b), Flushed(h.(read := h.read + 1), es, clock, vector))
  {
    hide Applied, LocalVector, Next;
    var es, taken := h.pending + b.events, h.(read := h.read + 1);
    var vector := LocalVector(Applied(h.env.registry, h.node.db, es, clock).value);
    assert Applies(taken, es, clock, Flushed(taken, es, clock, vector));
  }

  lemma PeerErrs(h: Half, g: Half)
    requires h.phase.Looping? && g == h.(read := h.read + 1, phase := Failed(PeerFailed))
    ensures Reads(h, ErrorFrame, g)
  {
  }

  lemma HelloAgain(h: Half, hello: Greeting, g: Half)
    requires h.phase.Looping? && g == h.(read := h.read + 1, phase := Failed(Unexpected))
    ensures Reads(h, HelloFrame(hello), g)
  {
  }

  lemma AppliedKeepsSelf(reg: Registry, n: Node, es: seq<Event>, clock: HLC)
    requires Applied(reg, n.db, es, clock).Ok?
    ensures Applied(reg, n.db, es, clock).value.local.self == n.db.local.self
    ensures Next(reg, n, Replica.Batch(es, clock)).db == Applied(reg, n.db, es, clock).value
  {
    hide Applied;
    BatchCursors(reg, n.db, es, clock, n.db.local.self);
  }

  lemma {:induction false} AdmitAllErrors(reg: Registry, db: Db, es: seq<Event>)
    ensures AdmitAll(reg, db, es).Err? ==> AdmitAll(reg, db, es).error in {InvalidEvent, RetiredIncarnation}
  {
    hide ResolveInto, WritesInto, ValidEvent, IsRetired;
    if es != [] {
      AdmitAllErrors(reg, db, es[..|es| - 1]);
    }
  }

  /** A batch is refused for an invalid event or a retired origin only. */
  lemma AppliedErrors(reg: Registry, db: Db, es: seq<Event>, clock: HLC)
    ensures Applied(reg, db, es, clock).Err? ==> Applied(reg, db, es, clock).error in {InvalidEvent, RetiredIncarnation}
  {
    AdmitAllErrors(reg, db, es);
  }
}
