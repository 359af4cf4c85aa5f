/** Small inputs on which the code falls short of what its documentation
    suggests. The exact conditions are proved next to each operation. */
module Counterexamples {
  import opened Hlc
  import opened Conflict
  import opened Changelog
  import opened Store
  import opened Resolver
  import opened RowHistory
  import opened Apply
  import opened Capture
  import opened Gc
  import opened Collection
  import opened Membership
  import opened LocalWrites
  import opened Ranges
  import opened Replay
  import opened Seed
  import opened SeedTarget
  import opened Reflection
  import opened SeededWrites
  import opened SeedGap

  const NODE := Origin("n", "i")
  const PEER := Origin("p", "i")
  const SPEC := TableSpec("t", {"c"}, map[])

  /** The first own event of NODE. */
  const OWN := Event(NODE, 1, "", "t", "r", Insert, HLC(1, 0), map["c" := Scalar("x")])

  function Of(origin: Origin, seqno: nat, time: nat, op: Operation, payload: map<string, Value>): Event {
    Event(origin, seqno, "", "t", "r", op, HLC(time, 0), payload)
  }

  // ----- Delivery order -----

  /** PEER inserts a row and deletes it; NODE, which has seen the insert only,
      updates it later. */
  const MADE := Of(PEER, 1, 1, Insert, map["c" := Scalar("x")])
  const GONE := Of(PEER, 2, 2, Delete, map[])
  const NEWER := Of(NODE, 1, 3, Update, map["c" := Scalar("z")])

  lemma RunOfThree(spec: TableSpec, a: Event, b: Event, c: Event)
    ensures Resolver.Run(spec, [a, b, c]) == Resolve(spec, Resolve(spec, Resolve(spec, NOTHING, a), b), c)
  {
    hide Resolve;
    assert [a, b, c][..2] == [a, b] && [a, b][..1] == [a] && [a][..0] == [];
    assert Resolver.Run(spec, [a]) == Resolve(spec, NOTHING, a);
    assert Resolver.Run(spec, [a, b]) == Resolve(spec, Resolve(spec, NOTHING, a), b);
  }

  lemma AfterMade()
    ensures Resolve(SPEC, NOTHING, MADE) == RowState(Some(MADE.payload), map["c" := VersionOf(MADE)], None)
  {
    assert Winners(SPEC, map[], MADE) == MADE.payload;
    assert Blank(SPEC) + MADE.payload == MADE.payload;
  }

  lemma AfterGone(spec: TableSpec, rs: RowState)
    requires rs.tomb == None
    ensures Resolve(spec, rs, GONE) == RowState(None, rs.vers, Some(VersionOf(GONE)))
  {
  }

  lemma AfterNewer()
    ensures Resolve(SPEC, RowState(None, map["c" := VersionOf(MADE)], Some(VersionOf(GONE))), NEWER).row
         == Some(NEWER.payload)
    ensures Resolve(SPEC, RowState(Some(MADE.payload), map["c" := VersionOf(MADE)], None), NEWER).tomb == None
  {
    assert Winners(SPEC, map["c" := VersionOf(MADE)], NEWER) == NEWER.payload;
    assert Blank(SPEC) + NEWER.payload == NEWER.payload;
  }

  lemma TwoOrders()
    ensures Resolver.Run(SPEC, [MADE, GONE, NEWER]).row == Some(map["c" := Scalar("z")])
    ensures Resolver.Run(SPEC, [MADE, NEWER, GONE]).row == None
  {
    hide Resolve, Resolver.Run;
    RunOfThree(SPEC, MADE, GONE, NEWER);
    RunOfThree(SPEC, MADE, NEWER, GONE);
    AfterMade();
    AfterNewer();
    AfterGone(SPEC, Resolve(SPEC, NOTHING, MADE));
    AfterGone(SPEC, Resolve(SPEC, Resolve(SPEC, NOTHING, MADE), NEWER));
  }

  /** The older delete, arriving last, removes the newer write: a DELETE is
      compared with the tombstone only (see OrderIndependentIff). */
  lemma DeleteRace()
    ensures Wins(VersionOf(NEWER), VersionOf(GONE))
    ensures Resolver.Run(SPEC, [MADE, GONE, NEWER]).row == Some(map["c" := Scalar("z")])
    ensures Resolver.Run(SPEC, [MADE, NEWER, GONE]).row == None
    ensures !OrderIndependent(SPEC, [MADE, GONE, NEWER])
  {
    hide Resolver.Run;
    TwoOrders();
    assert multiset([MADE, GONE, NEWER]) == multiset([MADE, NEWER, GONE]);
    assert SameEvents([MADE, NEWER, GONE], [MADE, GONE, NEWER]);
  }

  const WIDE := TableSpec("t", {"c", "d"}, map[])
  const WIDER := Of(PEER, 1, 1, Insert, map["c" := Scalar("x"), "d" := Scalar("y")])
  const WIDER_VERSIONS := map["c" := VersionOf(WIDER), "d" := VersionOf(WIDER)]

  lemma AfterWider()
    ensures Resolve(WIDE, NOTHING, WIDER).vers == WIDER_VERSIONS && Resolve(WIDE, NOTHING, WIDER).tomb == None
  {
    assert Winners(WIDE, map[], WIDER) == WIDER.payload;
  }

  lemma AfterAgain()
    ensures var rs := Resolve(WIDE, RowState(None, WIDER_VERSIONS, Some(VersionOf(GONE))), NEWER);
            && rs.row == Some(map["c" := Scalar("z"), "d" := Null])
            && "d" in rs.vers && rs.vers["d"] == VersionOf(WIDER)
  {
    assert Winners(WIDE, WIDER_VERSIONS, NEWER) == NEWER.payload;
    assert Blank(WIDE) + NEWER.payload == map["c" := Scalar("z"), "d" := Null];
  }

  /** PEER inserts c and d and deletes the row; NODE updates c alone, later: d
      comes back as its default under the version of the insert (see
      ColumnHoldsItsWriteIff). */
  lemma ResurrectionForgetsColumn()
    ensures var rs := Resolver.Run(WIDE, [WIDER, GONE, NEWER]);
            && rs.row == Some(map["c" := Scalar("z"), "d" := Null])
            && "d" in rs.vers && rs.vers["d"] == VersionOf(WIDER)
  {
    hide Resolve;
    RunOfThree(WIDE, WIDER, GONE, NEWER);
    AfterWider();
    AfterGone(WIDE, Resolve(WIDE, NOTHING, WIDER));
    AfterAgain();
  }

  // ----- Clocks -----

  /** A node that observed time 5.3 and saved it stamps its next write 5.1,
      before what it observed (see CaptureAfterSaveIff). */
  lemma StampAfterSaveIsEarlier()
    ensures var s := LocalState(NODE, 0, HLC(0, 0));
            Allocated(s.(hlc := SavedHlc(s.hlc, HLC(5, 3))), 5).hlc == HLC(5, 1)
    ensures Before(HLC(5, 1), HLC(5, 3))
  {
  }

  // ----- Pins -----

  const JOINER_A := Request("a", Origin("x", "i"), 1)
  const JOINER_B := Request("b", Origin("y", "i"), 1)

  /** Nothing is known yet. */
  const AT_FIRST := Prepared(Fresh(NODE), JOINER_B)

  /** PEER's first event has come in. */
  const LATER := AT_FIRST.(log := map[PEER := map[1 := MADE]], progress := map[NODE := map[PEER := 1]])

  const BOTH := Prepared(LATER, JOINER_A)

  /** NODE prepares a seed for y before it knows of PEER, receives PEER's first
      event, and prepares another for x: the merged pin for PEER is above what y
      still needs (see MergedPinsProtectIff). */
  lemma SecondJoinerUnprotected()
    ensures Admissible(Fresh(NODE), JOINER_B, "y", 1) && Admissible(LATER, JOINER_A, "x", 1)
    ensures MergedPin(BOTH, PEER) == 1 && Get(PinsOf(BOTH, "b"), PEER) == 0 && !PinsProtect(BOTH, PEER)
  {
    BothPins();
    assert "a" in StartedSeeds(BOTH) && "b" in StartedSeeds(BOTH);
    assert 1 in PinValues(BOTH, PEER) by { assert PinsOf(BOTH, "a")[PEER] == 1; }
    assert PinValues(BOTH, PEER) == {1};
    MergedPinsProtectIff(BOTH, PEER);
  }

  lemma BothPins()
    ensures PinsOf(BOTH, "b") == map[NODE := 0] && PinsOf(BOTH, "a") == map[PEER := 1, NODE := 0]
    ensures BOTH.seeds.bootstraps.Keys == {"a", "b"}
  {
    assert LocalVector(Fresh(NODE)) == map[NODE := 0];
    assert LocalVector(LATER) == map[PEER := 1, NODE := 0];
    assert map[] + LocalVector(LATER) == LocalVector(LATER);
  }

  /** A rebuilt machine added under a retired node ID with a new incarnation is
      recorded RETIRED, not JOINING (see AddJoinsIff). */
  lemma RebuiltNodeStaysRetired()
    ensures var s := State(map["m" := NodeRow("old", "", RETIRED, 1, 1, "")], 1, 1);
            var (after, ok) := Added(s, Add("m", "new", "", "", 1));
            ok && IsRetired(after.nodes, Origin("m", "new")) && !IsRetired(after.nodes, Origin("m", "old"))
  {
  }

  // ----- The trailing batch -----

  /** One own event, and an origin known from a seed only. */
  const SEEDED := Fresh(NODE).(
                  log := map[NODE := map[1 := OWN]],
                  local := LocalState(NODE, 1, OWN.hlc),
                  progress := map[NODE := map[PEER := 3]])
  const ASKED := [Range(NODE, 1, 1), Range(PEER, 1, 3)]

  lemma AskedIsMissing()
    ensures IsMissing(map[], LocalVector(SEEDED), ASKED)
  {
    assert LocalVector(SEEDED) == map[NODE := 1, PEER := 3];
    forall o, n: nat
      ensures Requested(ASKED, o, n) <==> 0 < n <= Get(LocalVector(SEEDED), o)
    {
      assert InRange(ASKED[0], o, n) <==> o == NODE && n == 1;
      assert InRange(ASKED[1], o, n) <==> o == PEER && 1 <= n <= 3;
    }
  }

  /** Asked for everything its vector advertises, the node ends its answer with
      an empty Complete batch right after a Complete one (see RedundantEndIff). */
  lemma TrailingBatchAfterComplete(batches: seq<Batch>)
    requires IsTransfer(SEEDED, ASKED, batches)
    ensures IsOwnLog(SEEDED) && IsMissing(map[], LocalVector(SEEDED), ASKED)
    ensures !Truncated(SEEDED, ASKED) && RedundantEnd(batches)
  {
    hide IsTransfer;
    AskedIsMissing();
    assert 1 in Present(SEEDED, NODE) && Present(SEEDED, PEER) == {};
    assert SeqsIn(SEEDED, PEER, 1, 3) == {};
    assert HoldsNothing(SEEDED, ASKED[1]);
    assert LastToServe(SEEDED, ASKED, 0);
    assert !EndCovered(SEEDED, ASKED);
    RedundantEndIff(SEEDED, ASKED, batches);
  }

  // ----- The own log -----

  function ActiveRow(): NodeRow {
    NodeRow("i", "", ACTIVE, 1, 1, "")
  }

  /** Two ACTIVE nodes; the peer has acknowledged the only own event. */
  const ACKNOWLEDGED := Fresh(NODE).(
                        log := map[NODE := map[1 := OWN]],
                        local := LocalState(NODE, 1, OWN.hlc),
                        nodes := map["n" := ActiveRow(), "p" := ActiveRow()], meta := Meta(map[], 1),
                        progress := map[NODE := map[PEER := 5], PEER := map[NODE := 1]])

  /** Every other receiver has the event, yet no cycle removes it: the node does
      not acknowledge to itself (see WatermarkPositiveIff). */
  lemma AcknowledgedOwnRowStays(after: Db, limit: nat)
    requires IsCycle(ACKNOWLEDGED, after, limit)
    ensures IsOwnLog(ACKNOWLEDGED) && Receivers(ACKNOWLEDGED) == {NODE, PEER}
            && Get(ACKNOWLEDGED.progress[PEER], NODE) == 1
    ensures 1 in Present(after, NODE)
  {
    hide IsCycle;
    OwnLogIsRetained(ACKNOWLEDGED, after, limit);
    assert 1 in EventsOf(ACKNOWLEDGED, NODE);
  }

  // ----- Local writes -----

  /** Column c holds "a" since time 1. */
  const SETTLED := RowState(Some(map["c" := Scalar("a")]), map["c" := Version(HLC(1, 0), "p", 1)], None)

  function Theirs(): Event {
    Event(PEER, 2, "", "t", "r", Update, HLC(2, 0), map["c" := Scalar("theirs")])
  }

  function Ours(op: Operation, payload: Row): Event {
    Event(NODE, 1, "", "t", "r", op, HLC(3, 0), payload)
  }

  /** A local update at time 3 loses at its own node, and only there, to an
      update from time 2 that arrives later (see LocalWriteSurvivesIff). */
  lemma LocalUpdateIsOverwritten()
    ensures var u, w := UpdateRow("r", "r", map["c" := Scalar("ours")]), Ours(Update, map["c" := Scalar("ours")]);
            && Logs(SPEC, SETTLED, u, w)
            && AtWriter(SPEC, SETTLED, u, Theirs()).row == Some(map["c" := Scalar("theirs")])
            && AtReplica(SPEC, SETTLED, w, Theirs()).row == Some(map["c" := Scalar("ours")])
  {
    var u, w := UpdateRow("r", "r", map["c" := Scalar("ours")]), Ours(Update, map["c" := Scalar("ours")]);
    assert Tracked(SPEC, u.values) == w.payload;
    assert SETTLED.row.value + w.payload == w.payload;
    assert Changed(SETTLED.row.value, w.payload) == w.payload;
    var written := SETTLED.(row := Some(w.payload));
    assert RowAfter(SPEC, SETTLED.row, u).value == Some(w.payload);
    OneColumn(written, Theirs());
    OneColumn(SETTLED, w);
    OneColumn(Resolve(SPEC, SETTLED, w), Theirs());
  }

  function OneRow(rs: RowState): Tables {
    var key := RowKey("t", "r");
    Tables(if rs.row.Some? then map[key := rs.row.value] else map[], map[key := rs.vers], map[])
  }

  /** A joiner seeded with that update loses it the same way, since the snapshot
      has no version for it (see SeededJoinerAgreesIff). */
  lemma SeededJoinerIsOverwritten()
    ensures var reg, key := map["t" := SPEC], RowKey("t", "r");
            var w := Ours(Update, map["c" := Scalar("ours")]);
            var seeded := OneRow(SETTLED.(row := Some(map["c" := Scalar("ours")])));
            && RowAt(ResolveInto(reg, seeded, Theirs()), key).row == Some(map["c" := Scalar("theirs")])
            && RowAt(ResolveInto(reg, ResolveInto(reg, OneRow(SETTLED), w), Theirs()), key).row
               == Some(map["c" := Scalar("ours")])
  {
    hide ResolveInto, Resolve;
    var reg, key := map["t" := SPEC], RowKey("t", "r");
    var w := Ours(Update, map["c" := Scalar("ours")]);
    var seeded := OneRow(SETTLED.(row := Some(map["c" := Scalar("ours")])));
    assert Lower("t") == "t";
    assert WellFormedRegistry(reg) && SpecAt(reg, key) == SPEC;
    ResolveIntoAt(reg, seeded, Theirs(), key);
    ResolveIntoAt(reg, OneRow(SETTLED), w, key);
    ResolveIntoAt(reg, ResolveInto(reg, OneRow(SETTLED), w), Theirs(), key);
    assert KeyOf(reg, w) == KeyOf(reg, Theirs()) == Some(key);
    assert RowAt(OneRow(SETTLED), key) == SETTLED;
    var written := SETTLED.(row := Some(map["c" := Scalar("ours")]));
    assert RowAt(seeded, key) == written;
    OneColumn(written, Theirs());
    OneColumn(SETTLED, w);
    OneColumn(Resolve(SPEC, SETTLED, w), Theirs());
  }

  /** If the older update reaches the writer before the snapshot is taken, the
      snapshot accounts for the local write, while it carries neither its value
      nor a version for it (see SeededValueIff). */
  lemma SeededJoinerMissesWrite()
    ensures var w := Ours(Update, map["c" := Scalar("ours")]);
            var written := SETTLED.(row := Some(map["c" := Scalar("ours")]));
            && Lost(SPEC, written, [Arrival(Theirs())], "c", Scalar("ours"))
            && Shown(RunRow(SPEC, written, [Arrival(Theirs())]), "c") == Some(Scalar("theirs"))
            && !ReflectedAt(SPEC, RunRow(SPEC, written, [Arrival(Theirs())]), w)
  {
    var written := SETTLED.(row := Some(map["c" := Scalar("ours")]));
    var steps := [Arrival(Theirs())];
    var w := Ours(Update, map["c" := Scalar("ours")]);
    OneStep(SPEC, written, steps[0]);
    OneColumn(written, Theirs());
    ShownIff(SPEC, written, steps, "c", Scalar("ours"));
    assert Carries(SPEC, w, "c");
  }

  /** A write of the one column of SPEC to a standing row. */
  lemma OneColumn(rs: RowState, e: Event)
    requires rs.row.Some? && rs.row.value.Keys == {"c"} && rs.tomb.None? && "c" in rs.vers
    requires e.payload.Keys == {"c"} && !e.op.Delete?
    ensures Resolve(SPEC, rs, e) ==
            if Wins(VersionOf(e), rs.vers["c"])
            then RowState(Some(e.payload), rs.vers["c" := VersionOf(e)], None) else rs
  {
    var won := Winners(SPEC, rs.vers, e);
    if Wins(VersionOf(e), rs.vers["c"]) {
      assert won == e.payload;
      assert rs.row.value + won == e.payload;
      assert rs.vers + Resolver.Stamped(won, VersionOf(e)) == rs.vers["c" := VersionOf(e)];
    } else {
      assert won == map[];
    }
  }

  /** A local delete at time 3 is undone at its own node, and only there, by the
      same older update. */
  lemma LocalDeleteIsUndone()
    ensures var d, w := DeleteRow("r"), Ours(Delete, map[]);
            && Logs(SPEC, SETTLED, d, w)
            && AtWriter(SPEC, SETTLED, d, Theirs()).row == Some(map["c" := Scalar("theirs")])
            && AtReplica(SPEC, SETTLED, w, Theirs()).row == None
  {
    var won := Winners(SPEC, SETTLED.vers, Theirs());
    assert won == Theirs().payload;
    assert Blank(SPEC) + won == won;
  }

  /** Deleted by PEER at time 5.3. */
  const BURIED := RowState(None, map["c" := Version(HLC(1, 0), "p", 1)], Some(Version(HLC(5, 3), "p", 3)))

  /** The clock of a node that resolved that delete and saved what it saw. */
  const OBSERVED := LocalState(NODE, 0, SavedHlc(HLC(4, 0), UpdateFrom(HLC(4, 0), 5, HLC(5, 3))))

  /** Its next insert is stamped before the tombstone, and shows at its own node
      only (see LocalWriteSurvivesIff and CaptureAfterSaveIff). */
  lemma LocalInsertIsUnseen()
    ensures var i := InsertRow("r", map["c" := Scalar("ours")]);
            var w := Event(NODE, 1, "", "t", "r", Insert, Allocated(OBSERVED, 5).hlc, map["c" := Scalar("ours")]);
            && w.hlc == HLC(5, 1) && Logs(SPEC, BURIED, i, w)
            && AtWriter(SPEC, BURIED, i, Theirs()).row == Some(map["c" := Scalar("ours")])
            && AtReplica(SPEC, BURIED, w, Theirs()).row == None
  {
    var i := InsertRow("r", map["c" := Scalar("ours")]);
    var w := Event(NODE, 1, "", "t", "r", Insert, Allocated(OBSERVED, 5).hlc, map["c" := Scalar("ours")]);
    assert UpdateFrom(HLC(4, 0), 5, HLC(5, 3)) == HLC(5, 4);
    assert OBSERVED.hlc == HLC(5, 0) && w.hlc == HLC(5, 1);
    assert Tracked(SPEC, i.values) == w.payload;
    assert Blank(SPEC) + w.payload == w.payload;
  }

  // ----- Seeded clocks -----

  const STREAM := [
    SeedStart("b", 1, map[], ["t"]),
    SeedVersions("t", [SeedVersion("r", "c", Version(HLC(5, 3), "p", 1))], true),
    SeedEnd("b")]

  /** A target takes this seed with one version stamped 5.3, and persists the
      clock as 5.0 (see SeedClockPersistedIff). */
  lemma SeedPersistsEarlierClock()
    ensures var reg, request := map["t" := SPEC], Request("b", NODE, 1);
            var after := Fresh(NODE).(
                         tables := Tables(map[], map[RowKey("t", "r") := map["c" := Version(HLC(5, 3), "p", 1)]],
                                          map[]),
                         local := LocalState(NODE, 0, HLC(5, 0)));
            && IsEmpty(reg, Fresh(NODE)) && EndsAt(reg, Fresh(NODE).tables, STREAM, request, 1, 2)
            && Seeded(reg, Fresh(NODE), after, STREAM, 2, HLC(0, 0), HLC(5, 3))
    ensures Before(HLC(5, 0), HLC(5, 3))
  {
    var reg := map["t" := SPEC];
    var v := SeedVersion("r", "c", Version(HLC(5, 3), "p", 1));
    var body := STREAM[1..2];
    assert Lower("t") == "t";
    assert body == [STREAM[1]] && body[..0] == [] && [v][..0] == [];
    assert AllStamps(body) == {HLC(5, 3)} by {
      assert v in [v] && STREAM[1] in body;
      assert HLC(5, 3) in Stamps(STREAM[1]);
    }
    assert LoadVersions(Fresh(NODE).tables, "t", [v]) == WithSeedVersion(Fresh(NODE).tables, "t", v) by {
      assert LoadVersions(Fresh(NODE).tables, "t", []) == Fresh(NODE).tables;
    }
    assert LoadAll(reg, Fresh(NODE).tables, []) == Some(Fresh(NODE).tables);
    assert IsLatest(HLC(5, 3), AllStamps(body));
  }

  // ----- Epochs -----

  const KNOWN := State(map["m" := NodeRow("i", "", JOINING, 1, 1, "")], 1, 1)

  /** Adding a known node is refused but leaves the cached epoch at 2; a new
      node's heartbeat at epoch 2 then pauses collection, while without the
      refused addition it would not (see LoneHeartbeatPausesIff). */
  lemma RefusedAdditionPausesCollection()
    ensures var (after, ok) := Added(KNOWN, Add("m", "j", "", "", 1));
            var beat := Beat(Heartbeat(Member("z", "i", "", JOINING, 1, 2, ""), []));
            && !ok && after.memory == 2 && after.persisted == 1
            && Membership.After(after, beat, NODE).persisted < 2
            && Behind(Membership.After(after, beat, NODE)) && !Behind(Membership.After(KNOWN, beat, NODE))
  {
    var after := Added(KNOWN, Add("m", "j", "", "", 1)).0;
    var sender := Member("z", "i", "", JOINING, 1, 2, "");
    LoneHeartbeatPausesIff(after, sender, NODE);
    LoneHeartbeatPausesIff(KNOWN, sender, NODE);
  }

  // ----- Empty ids -----

  /** Inserting a row with the empty id logs an event no replica accepts (see
      CapturedIsValidIff and RefusedEventIsPassedIff). */
  lemma EmptyIdIsLogged()
    ensures var e := Event(NODE, 1, "", "t", "", Insert, HLC(0, 1), map["c" := Null]);
            Entry(SPEC, Fresh(NODE), InsertRow("", map[]), 0, "") == [e] && !ValidEvent(e)
  {
    assert Blank(SPEC) + Tracked(SPEC, map[]) == map["c" := Null];
  }

  // ----- Retired origins -----

  const LEFT := Origin("m", "i")
  const LAST_WORDS := Event(LEFT, 1, "", "t", "r", Insert, HLC(1, 0), map["c" := Null])

  /** A node that holds one row of an origin retired since. */
  const HOLDER := Fresh(NODE).(
                  log := map[LEFT := map[1 := LAST_WORDS]],
                  nodes := map["m" := NodeRow("i", "", RETIRED, 1, 1, "")],
                  progress := map[NODE := map[LEFT := 1]])

  /** Asked for it, the node forwards the row; a node that knows of the
      retirement refuses every batch with it (see BatchCommitsIff and
      SessionSuccess.SucceedsIff). */
  lemma RetiredRowIsForwarded(batches: seq<Batch>, reg: Registry, others: seq<Event>, clock: HLC)
    requires IsTransfer(HOLDER, [Range(LEFT, 1, 1)], batches) && LAST_WORDS in others
    ensures IsRetired(HOLDER.nodes, LEFT) && LAST_WORDS in Payload(batches)
    ensures Applied(reg, HOLDER, others, clock).Err?
  {
    hide IsTransfer, RowsIn, AdmitAll;
    TransferShape(HOLDER, [Range(LEFT, 1, 1)], batches);
    RowsInMembers(HOLDER, LEFT, 1, 1, 1);
    assert EventAt(HOLDER, LEFT, 1) == LAST_WORDS;
    assert [Range(LEFT, 1, 1)][..0] == [];
    BatchCommitsIff(reg, HOLDER, others, clock);
    assert !Acceptable(HOLDER.nodes, LAST_WORDS);
  }

  // ----- The ACTIVE incarnation -----

  const ACTIVATED := State(map["m" := NodeRow("old", "", ACTIVE, 1, 1, "")], 1, 1)

  /** A heartbeat of a machine rebuilt under an ACTIVE node's ID makes the new
      incarnation count for collection in place of the old one, without an
      Activate (see ActiveIncarnationIff). */
  lemma GossipSwapsIncarnation()
    ensures var after := Membership.After(ACTIVATED, Beat(Heartbeat(Member("m", "new", "", ACTIVE, 1, 2, ""), [])),
                                          NODE);
            && IsActive(ACTIVATED.nodes, Origin("m", "old")) && !IsActive(after.nodes, Origin("m", "old"))
            && IsActive(after.nodes, Origin("m", "new"))
  {
    var m := Member("m", "new", "", ACTIVE, 1, 2, "");
    assert [m] + [] == [m] && [m][..0] == [];
    assert MergedAll(ACTIVATED.nodes, [m], "n") == Merged(ACTIVATED.nodes, m);
  }

  // ----- Marks -----

  const THIRD := Origin("q", "i")

  /** NODE has collected THIRD's log up to 10; since then PEER, whose record is
      at 3, has become ACTIVE. */
  const MARKED := Fresh(NODE).(
                  nodes := map["n" := ActiveRow(), "p" := ActiveRow()],
                  progress := map[NODE := map[THIRD := 10], PEER := map[THIRD := 3]],
                  meta := Meta(map[THIRD := 10], 1))

  const REST := [Range(THIRD, 4, 10)]

  /** The next cycle takes the mark back to 3. PEER's Need for the rest was
      refused before; now it is answered with nothing (see MarkLoweredIff). */
  lemma MarkGoesBack(after: Db, batches: seq<Batch>)
    requires IsCycle(MARKED, after, 1000) && IsTransfer(after, REST, batches)
    ensures Truncated(MARKED, REST) && !Truncated(after, REST)
    ensures Mark(after, THIRD) == 3 && Payload(batches) == []
  {
    hide IsTransfer, Truncated;
    AfterMarked(after);
    NothingLeft(after, batches);
    RestTruncatedIff(MARKED);
    RestTruncatedIff(after);
  }

  lemma RestTruncatedIff(db: Db)
    ensures Truncated(db, REST) <==> Mark(db, THIRD) >= 4
  {
    assert Valid(REST[0]) && REST[0].from == 4;
  }

  lemma AfterMarked(after: Db)
    requires IsCycle(MARKED, after, 1000)
    ensures Mark(after, THIRD) == 3 && Present(after, THIRD) == {}
  {
    hide Watermark, StaleView;
    ThirdWatermark();
    assert Below(MARKED, THIRD, 3) == {};
    var victims :| IsPick(Below(MARKED, THIRD, 3), 1000, victims)
                   && OriginLost(MARKED, after, THIRD, 3, victims, 1000);
  }

  lemma NothingLeft(db: Db, batches: seq<Batch>)
    requires Present(db, THIRD) == {} && IsTransfer(db, REST, batches)
    ensures Payload(batches) == []
  {
    hide IsTransfer, Payload;
    TransferShape(db, REST, batches);
    assert SeqsIn(db, THIRD, 4, 10) == {};
    assert REST[..0] == [];
    assert Wanted(db, []) == [];
  }

  lemma ThirdWatermark()
    ensures Get(Watermark(MARKED), THIRD) == 3
  {
    assert Receivers(MARKED) == {NODE, PEER};
    assert StartedSeeds(MARKED) == {};
    assert MARKED.progress[NODE] == map[THIRD := 10] && MARKED.progress[PEER] == map[THIRD := 3];
    assert AckValues(MARKED, THIRD) == {3, 10};
    assert THIRD in Known(MARKED) by { assert THIRD in MARKED.progress[PEER]; }
  }

  // ----- After the pins -----

  /** A joiner was seeded with PEER's first event; then the second came in and
      the seed session was closed. NODE alone is an ACTIVE receiver. */
  const CLOSED := Fresh(NODE).(
                  log := map[PEER := map[1 := Of(PEER, 1, 1, Insert, map["c" := Null]),
                                                    2 := Of(PEER, 2, 2, Delete, map[])]],
                  nodes := map["n" := ActiveRow()], meta := Meta(map[], 1),
                  progress := map[NODE := map[PEER := 2]],
                  seeds := Seeds(map["a" := Bootstrap(Origin("x", "i"), Completed, 1)],
                                 map["a" := map[NODE := 0, PEER := 1]]))

  /** A cycle before the joiner's first acknowledgement is recorded collects
      what it still needs, and its first Need is refused (see SeedToRecordIff). */
  lemma JoinerIsTruncated(after: Db)
    requires IsCycle(CLOSED, after, 1000)
    ensures Retains(CLOSED, PEER, 1, {2}) && !Retains(after, PEER, 1, {2})
    ensures Truncated(after, [Range(PEER, 2, 2)])
  {
    PeerWatermark();
    assert Below(CLOSED, PEER, 2) <= {1, 2};
    assert |{1, 2}| == 2;
    SmallBelow(Below(CLOSED, PEER, 2));
    FullCycleRetainsIff(CLOSED, after, 1000, PEER, 1, {2});
    var victims :| IsPick(Below(CLOSED, PEER, 2), 1000, victims) && OriginLost(CLOSED, after, PEER, 2, victims, 1000);
    assert Mark(after, PEER) == 2;
    assert Valid([Range(PEER, 2, 2)][0]) && Collected(after, PEER, 2);
  }

  lemma SmallBelow(s: set<nat>)
    requires s <= {1, 2}
    ensures |s| < 1000
  {
    SubsetSize(s, {1, 2});
  }

  lemma PeerWatermark()
    ensures Get(Watermark(CLOSED), PEER) == 2
  {
    assert Receivers(CLOSED) == {NODE};
    assert StartedSeeds(CLOSED) == {};
    assert CLOSED.progress[NODE] == map[PEER := 2];
    assert AckValues(CLOSED, PEER) == {2};
    assert PEER in Known(CLOSED) by { assert PEER in CLOSED.progress[NODE]; }
  }
}
