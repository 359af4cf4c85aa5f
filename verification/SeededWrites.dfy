/** What a joiner is left with of a write that its seed brought without
    versions: the writer's row as it stood when the snapshot was taken. */
module SeededWrites {
  import opened Conflict
  import opened Changelog
  import opened Store
  import opened Resolver
  import opened Apply
  import opened Capture
  import opened LocalWrites
  import opened ReplicaHistory
  import opened SeedTarget
  import opened Replica
  import opened Reflection
  import Convergence
  import Hlc
  import Collection
  import Mesh

  // ----- One column of one row -----

  /** What can happen to a row: a statement at its node, an event that its node
      had not stored, or the load of a seed. */
  datatype RowStep = Statement(spec: TableSpec, change: Change) | Arrival(event: Event) | Reset(state: RowState)

  /** What the application sees in the column. */
  function Shown(rs: RowState, c: string): Option<Value> {
    if rs.row.Some? && c in rs.row.value then Some(rs.row.value[c]) else None
  }

  function StepRow(spec: TableSpec, rs: RowState, step: RowStep): RowState {
    match step
    case Statement(s, change) =>
      var after := RowAfter(s, rs.row, change);
      if after.None? then rs else rs.(row := after.value)
    case Arrival(e) => Resolve(spec, rs, e)
    case Reset(state) => state
  }

  function RunRow(spec: TableSpec, rs: RowState, steps: seq<RowStep>): RowState {
    if steps == [] then rs else StepRow(spec, RunRow(spec, rs, steps[..|steps| - 1]), steps[|steps| - 1])
  }

  /** What a step leaves in the column if it touches it. An arriving event is
      compared with the versions on record, among which a statement's is not. */
  function Leaves(spec: TableSpec, rs: RowState, step: RowStep, c: string): Option<Option<Value>> {
    match step
    case Statement(s, InsertRow(_, values)) =>
      if rs.row.Some? then None
      else if c in s.columns then Some(Some(if c in values then values[c] else Blank(s)[c]))
      else Some(None)
    case Statement(s, UpdateRow(id, newId, values)) =>
      if rs.row.Some? && id == newId && c in values && c in s.columns then Some(Some(values[c])) else None
    case Statement(_, DeleteRow(_)) => if rs.row.Some? then Some(None) else None
    case Arrival(e) =>
      if Blocked(rs, e) then None
      else if e.op.Delete? then Some(None)
      else if Takes(spec, rs.vers, e, c) then Some(Some(e.payload[c]))
      else if rs.row.None? && Winners(spec, rs.vers, e) != map[] then
        Some(if c in spec.columns then Some(Blank(spec)[c]) else None)
      else None
    case Reset(state) => Some(Shown(state, c))
  }

  lemma StepLeaves(spec: TableSpec, rs: RowState, step: RowStep, c: string)
    ensures Shown(StepRow(spec, rs, step), c) ==
            if Leaves(spec, rs, step, c).Some? then Leaves(spec, rs, step, c).value else Shown(rs, c)
  {
    hide Wins, VersionOf;
    if step.Arrival? && !Blocked(rs, step.event) && !step.event.op.Delete? {
      WinnersAre(spec, rs.vers, step.event, c);
    }
  }

  /** What step i of the run leaves in the column. */
  function LeavesAt(spec: TableSpec, rs: RowState, steps: seq<RowStep>, c: string, i: nat): Option<Option<Value>>
    requires i < |steps|
  {
    Leaves(spec, RunRow(spec, rs, steps[..i]), steps[i], c)
  }

  predicate IsLast(spec: TableSpec, rs: RowState, steps: seq<RowStep>, c: string, i: nat)
    requires i < |steps|
  {
    forall j :: i < j < |steps| ==> LeavesAt(spec, rs, steps, c, j).None?
  }

  /** The last step that touches the column leaves something else in it. */
  predicate Lost(spec: TableSpec, rs: RowState, steps: seq<RowStep>, c: string, v: Value) {
    exists i :: 0 <= i < |steps| && LeavesAt(spec, rs, steps, c, i) !in {None, Some(Some(v))}
                && IsLast(spec, rs, steps, c, i)
  }

  lemma LeavesBefore(spec: TableSpec, rs: RowState, steps: seq<RowStep>, c: string, i: nat)
    requires i < |steps| - 1
    ensures LeavesAt(spec, rs, steps, c, i) == LeavesAt(spec, rs, steps[..|steps| - 1], c, i)
  {
    var init := steps[..|steps| - 1];
    assert steps[..i] == init[..i] && steps[i] == init[i];
  }

  lemma LostOneMore(spec: TableSpec, rs: RowState, steps: seq<RowStep>, c: string, v: Value)
    requires steps != []
    ensures Lost(spec, rs, steps, c, v) <==>
            var last := LeavesAt(spec, rs, steps, c, |steps| - 1);
            if last.None? then Lost(spec, rs, steps[..|steps| - 1], c, v) else last != Some(Some(v))
  {
    hide LeavesAt;
    var init, n := steps[..|steps| - 1], |steps| - 1;
    forall i: nat | i < n
      ensures LeavesAt(spec, rs, steps, c, i) == LeavesAt(spec, rs, init, c, i)
    {
      LeavesBefore(spec, rs, steps, c, i);
    }
    assert IsLast(spec, rs, steps, c, n);
    if LeavesAt(spec, rs, steps, c, n).None? {
      if Lost(spec, rs, init, c, v) {
        var i :| 0 <= i < n && LeavesAt(spec, rs, init, c, i) !in {None, Some(Some(v))} && IsLast(spec, rs, init, c, i);
        assert IsLast(spec, rs, steps, c, i);
      }
      if Lost(spec, rs, steps, c, v) {
        var i :| 0 <= i <= n && LeavesAt(spec, rs, steps, c, i) !in {None, Some(Some(v))}
                 && IsLast(spec, rs, steps, c, i);
        assert IsLast(spec, rs, init, c, i);
      }
    }
  }

  /** A column that shows a value shows it after a run exactly when the run did
      not lose it. */
  lemma {:induction false} ShownIff(spec: TableSpec, rs: RowState, steps: seq<RowStep>, c: string, v: Value)
    requires Shown(rs, c) == Some(v)
    ensures Shown(RunRow(spec, rs, steps), c) == Some(v) <==> !Lost(spec, rs, steps, c, v)
  {
    hide Leaves, StepRow, Shown, Lost;
    if steps == [] {
      assert !Lost(spec, rs, steps, c, v) by { NothingLost(spec, rs, c, v); }
    } else {
      var init := steps[..|steps| - 1];
      ShownIff(spec, rs, init, c, v);
      StepLeaves(spec, RunRow(spec, rs, init), steps[|steps| - 1], c);
      LostOneMore(spec, rs, steps, c, v);
    }
  }

  lemma NothingLost(spec: TableSpec, rs: RowState, c: string, v: Value)
    ensures !Lost(spec, rs, [], c, v)
  {
  }

  lemma {:induction false} RunRowAppend(spec: TableSpec, rs: RowState, a: seq<RowStep>, b: seq<RowStep>)
    ensures RunRow(spec, rs, a + b) == RunRow(spec, RunRow(spec, rs, a), b)
  {
    hide StepRow;
    if b == [] {
      assert a + b == a;
    } else {
      assert (a + b)[..|a + b| - 1] == a + b[..|b| - 1];
      RunRowAppend(spec, rs, a, b[..|b| - 1]);
    }
  }

  // ----- The row at one node -----

  function Arrivals(es: seq<Event>): (steps: seq<RowStep>)
    ensures |steps| == |es| && forall i :: 0 <= i < |es| ==> steps[i] == Arrival(es[i])
  {
    seq(|es|, i requires 0 <= i < |es| => Arrival(es[i]))
  }

  lemma {:induction false} ArrivalsRun(spec: TableSpec, rs: RowState, es: seq<Event>)
    ensures RunRow(spec, rs, Arrivals(es)) == RunFrom(spec, rs, es)
  {
    hide Resolve;
    if es != [] {
      ArrivalsRun(spec, rs, es[..|es| - 1]);
      assert Arrivals(es)[..|es| - 1] == Arrivals(es[..|es| - 1]);
    }
  }

  lemma OneStep(spec: TableSpec, rs: RowState, step: RowStep)
    ensures RunRow(spec, rs, [step]) == StepRow(spec, rs, step)
  {
    hide StepRow;
    assert [step][..0] == [];
    assert RunRow(spec, rs, []) == rs;
  }

  /** What a step of the node does to one row. */
  ghost function RowSteps(reg: Registry, n: Node, step: Replica.Step, key: RowKey): seq<RowStep> {
    match step
    case Batch(es, clock) =>
      if Applied(reg, n.db, es, clock).Ok? then Arrivals(AtKey(reg, NewIn(reg, n.db, es), key)) else []
    case Write(spec, change, _, _) => if RowKey(spec.name, change.id) == key then [Statement(spec, change)] else []
    case Load(_, tables, _) => if IsEmpty(reg, n.db) then [Reset(RowAt(tables, key))] else []
    case AbortedLoad(tables) => if IsEmpty(reg, n.db) then [Reset(RowAt(tables, key))] else []
    case _ => []
  }

  lemma BatchRuns(reg: Registry, db: Db, es: seq<Event>, clock: Hlc.HLC, key: RowKey)
    requires WellFormedRegistry(reg) && Applied(reg, db, es, clock).Ok?
    ensures RowAt(Applied(reg, db, es, clock).value.tables, key)
         == RunRow(SpecAt(reg, key), RowAt(db.tables, key), Arrivals(AtKey(reg, NewIn(reg, db, es), key)))
  {
    hide Applied, NewIn, WellFormedRegistry, SpecAt, RowAt;
    DeliverRuns(reg, db, Convergence.Batch(es, clock), key);
    ArrivalsRun(SpecAt(reg, key), RowAt(db.tables, key), AtKey(reg, NewIn(reg, db, es), key));
  }

  lemma WithRowAt(t: Tables, key: RowKey, row: Option<Row>, other: RowKey)
    ensures RowAt(WithRow(t, key, row), other) == if other == key then RowAt(t, key).(row := row) else RowAt(t, other)
  {
  }

  lemma CapturedRow(spec: TableSpec, db: Db, change: Change, wall: nat, id: string)
    ensures var key := RowKey(spec.name, change.id);
            var after := RowAfter(spec, RowIn(db.tables, key), change);
            Captured(spec, db, change, wall, id).tables ==
            if after.None? then db.tables else WithRow(db.tables, key, after.value)
  {
    hide Logged, Allocated, RowAfter, WithRow, RowIn;
  }

  lemma WriteRuns(spec: TableSpec, db: Db, change: Change, wall: nat, id: string, at: TableSpec, key: RowKey)
    ensures RowAt(Captured(spec, db, change, wall, id).tables, key) ==
            if RowKey(spec.name, change.id) == key
            then StepRow(at, RowAt(db.tables, key), Statement(spec, change)) else RowAt(db.tables, key)
  {
    hide Captured, RowAfter, WithRow;
    CapturedRow(spec, db, change, wall, id);
    var changed := RowKey(spec.name, change.id);
    var after := RowAfter(spec, RowIn(db.tables, changed), change);
    if after.Some? {
      WithRowAt(db.tables, changed, after.value, key);
    }
  }

  lemma NextRuns(reg: Registry, n: Node, step: Replica.Step, key: RowKey)
    requires WellFormedRegistry(reg)
    ensures RowAt(Next(reg, n, step).db.tables, key)
         == RunRow(SpecAt(reg, key), RowAt(n.db.tables, key), RowSteps(reg, n, step, key))
  {
    hide Applied, NewIn, WellFormedRegistry, SpecAt, RowAt, IsEmpty, Captured, StepRow;
    var spec, rs := SpecAt(reg, key), RowAt(n.db.tables, key);
    match step
    case Batch(es, clock) =>
      if Applied(reg, n.db, es, clock).Ok? {
        BatchRuns(reg, n.db, es, clock, key);
      }
    case Write(s, change, wall, id) =>
      WriteRuns(s, n.db, change, wall, id, spec, key);
      OneStep(spec, rs, Statement(s, change));
    case Load(_, tables, _) => OneReset(spec, rs, RowAt(tables, key));
    case AbortedLoad(tables) => OneReset(spec, rs, RowAt(tables, key));
    case Record(_, _) =>
    case Collect(_, _) =>
    case Members(_) =>
  }

  lemma OneReset(spec: TableSpec, rs: RowState, state: RowState)
    ensures RunRow(spec, rs, [Reset(state)]) == state
  {
    OneStep(spec, rs, Reset(state));
  }

  // ----- The row over a run of the mesh -----

  ghost function MoveSteps(reg: Registry, history: set<Event>, f: Full, m: Move, p: Origin, key: RowKey): seq<RowStep>
    requires Enabled(reg, history, f, m)
  {
    match m
    case Plain(Local(at, step)) => if at == p then RowSteps(reg, f.world.nodes[at], step, key) else []
    case SeedFrom(at, _, tables, _) => if at == p then [Reset(RowAt(tables, key))] else []
    case _ => []
  }

  lemma MoveRuns(reg: Registry, history: set<Event>, f: Full, m: Move, p: Origin, key: RowKey)
    requires WellFormedRegistry(reg) && Enabled(reg, history, f, m) && p in f.world.nodes
    ensures var g := Reflection.After(reg, history, f, m);
            && p in g.world.nodes
            && RowAt(g.world.nodes[p].db.tables, key)
               == RunRow(SpecAt(reg, key), RowAt(f.world.nodes[p].db.tables, key),
                         MoveSteps(reg, history, f, m, p, key))
  {
    hide WellFormedRegistry, SpecAt, RowAt, IsEmpty, Next, RowSteps, SeedsInto, Genuine, Collection.IsCycle, StepRow;
    var spec, rs := SpecAt(reg, key), RowAt(f.world.nodes[p].db.tables, key);
    match m
    case Plain(Local(at, step)) => if at == p { NextRuns(reg, f.world.nodes[p], step, key); }
    case Plain(RecordAck(a)) =>
      if a.to == p {
        RecordQuiet(reg, f.world.nodes[p], a.from, a.vector);
      }
    case Plain(Cycle(at, after, limit)) =>
      if at == p {
        CycleTables(f.world.nodes[p].db, after, limit);
      }
    case Plain(_) =>
    case Take(_) =>
    case SeedFrom(at, snap, tables, clock) =>
      if at == p {
        LoadTables(reg, f.world.nodes[p], snap.vector, tables, clock);
        OneReset(spec, rs, RowAt(tables, key));
      }
  }

  lemma LoadTables(reg: Registry, n: Node, vector: Vector, tables: Tables, clock: Hlc.HLC)
    requires IsEmpty(reg, n.db)
    ensures Next(reg, n, Load(vector, tables, clock)).db.tables == tables
  {
  }

  /** What happens to p's row from place i of the run on. */
  ghost function Trail(reg: Registry, history: set<Event>, moves: seq<Move>, i: nat, p: Origin, key: RowKey)
    : seq<RowStep>
    requires i <= |moves| && Legal(reg, history, moves)
  {
    if |moves| == i then []
    else
      var init := moves[..|moves| - 1];
      Trail(reg, history, init, i, p, key)
      + MoveSteps(reg, history, AfterAll(reg, history, init), moves[|moves| - 1], p, key)
  }

  lemma {:induction false} LegalPrefix(reg: Registry, history: set<Event>, moves: seq<Move>, i: nat)
    requires i <= |moves| && Legal(reg, history, moves)
    ensures Legal(reg, history, moves[..i])
    decreases |moves|
  {
    hide Enabled;
    if i < |moves| {
      var init := moves[..|moves| - 1];
      LegalPrefix(reg, history, init, i);
      assert init[..i] == moves[..i];
    } else {
      assert moves[..i] == moves;
    }
  }

  lemma {:induction false} TrailRuns(reg: Registry, history: set<Event>, moves: seq<Move>, i: nat, p: Origin,
                                     key: RowKey)
    requires WellFormedRegistry(reg) && i <= |moves| && Legal(reg, history, moves) && Legal(reg, history, moves[..i])
    requires p in AfterAll(reg, history, moves[..i]).world.nodes
    ensures p in AfterAll(reg, history, moves).world.nodes
    ensures RowAt(AfterAll(reg, history, moves).world.nodes[p].db.tables, key)
         == RunRow(SpecAt(reg, key), RowAt(AfterAll(reg, history, moves[..i]).world.nodes[p].db.tables, key),
                   Trail(reg, history, moves, i, p, key))
    decreases |moves|
  {
    hide Enabled, Reflection.After, WellFormedRegistry, SpecAt, RowAt, MoveSteps, StepRow;
    if i == |moves| {
      assert moves[..i] == moves;
    } else {
      var init, m := moves[..|moves| - 1], moves[|moves| - 1];
      assert init[..i] == moves[..i];
      TrailRuns(reg, history, init, i, p, key);
      MoveRuns(reg, history, AfterAll(reg, history, init), m, p, key);
      RunRowAppend(SpecAt(reg, key), RowAt(AfterAll(reg, history, moves[..i]).world.nodes[p].db.tables, key),
                   Trail(reg, history, init, i, p, key),
                   MoveSteps(reg, history, AfterAll(reg, history, init), m, p, key));
    }
  }

  // ----- A seeded joiner -----

  lemma {:induction false} RunIsConsistent(reg: Registry, history: set<Event>, moves: seq<Move>)
    requires Legal(reg, history, moves)
    ensures Mesh.Consistent(AfterAll(reg, history, moves).world)
  {
    hide Mesh.Enabled, Mesh.After, Mesh.Consistent, Genuine, SeedsInto, IsEmpty;
    if moves == [] {
      Mesh.EmptyIsConsistent();
    } else {
      var init, m := moves[..|moves| - 1], moves[|moves| - 1];
      RunIsConsistent(reg, history, init);
      var f := AfterAll(reg, history, init);
      match m
      case Plain(move) => Mesh.MoveKeepsConsistent(reg, f.world, move);
      case Take(_) =>
      case SeedFrom(at, snap, tables, clock) => SeedKeepsConsistent(reg, f.world, at, snap.vector, tables, clock);
    }
  }

  lemma SeedKeepsConsistent(reg: Registry, w: Mesh.World, at: Origin, vector: Vector, tables: Tables, clock: Hlc.HLC)
    requires Mesh.Consistent(w) && at in w.nodes
    ensures Mesh.Enabled(reg, w, Mesh.Local(at, Load(vector, tables, clock)))
    ensures Mesh.Consistent(Mesh.After(reg, w, Mesh.Local(at, Load(vector, tables, clock))))
  {
    hide Mesh.Consistent, Mesh.After;
    Mesh.MoveKeepsConsistent(reg, w, Mesh.Local(at, Load(vector, tables, clock)));
  }

  /** The mesh after the first `i` moves. */
  ghost function At(reg: Registry, history: set<Event>, moves: seq<Move>, i: nat): Full
    requires i <= |moves| && Legal(reg, history, moves)
  {
    LegalPrefix(reg, history, moves, i);
    AfterAll(reg, history, moves[..i])
  }

  ghost function DbAt(reg: Registry, history: set<Event>, moves: seq<Move>, i: nat, p: Origin): Db
    requires i <= |moves| && Legal(reg, history, moves) && p in At(reg, history, moves, i).world.nodes
  {
    At(reg, history, moves, i).world.nodes[p].db
  }

  /** What happens to p's row between the two places. */
  ghost function Between(reg: Registry, history: set<Event>, moves: seq<Move>, i: nat, j: nat, p: Origin, key: RowKey)
    : seq<RowStep>
    requires i <= j <= |moves| && Legal(reg, history, moves)
  {
    LegalPrefix(reg, history, moves, j);
    Trail(reg, history, moves[..j], i, p, key)
  }

  lemma AtNext(reg: Registry, history: set<Event>, moves: seq<Move>, i: nat)
    requires i < |moves| && Legal(reg, history, moves)
    ensures Enabled(reg, history, At(reg, history, moves, i), moves[i])
    ensures At(reg, history, moves, i + 1) == Reflection.After(reg, history, At(reg, history, moves, i), moves[i])
  {
    hide Enabled, Reflection.After;
    LegalPrefix(reg, history, moves, i + 1);
    var longer := moves[..i + 1];
    assert longer[..|longer| - 1] == moves[..i] && longer[|longer| - 1] == moves[i];
  }

  lemma BetweenRuns(reg: Registry, history: set<Event>, moves: seq<Move>, i: nat, j: nat, p: Origin, key: RowKey)
    requires WellFormedRegistry(reg) && i <= j <= |moves| && Legal(reg, history, moves)
    requires p in At(reg, history, moves, i).world.nodes
    ensures p in At(reg, history, moves, j).world.nodes
    ensures RowAt(DbAt(reg, history, moves, j, p).tables, key)
         == RunRow(SpecAt(reg, key), RowAt(DbAt(reg, history, moves, i, p).tables, key),
                   Between(reg, history, moves, i, j, p, key))
  {
    hide Legal, AfterAll, RunRow, RowAt, SpecAt, WellFormedRegistry;
    LegalPrefix(reg, history, moves, i);
    LegalPrefix(reg, history, moves, j);
    assert moves[..j][..i] == moves[..i];
    TrailRuns(reg, history, moves[..j], i, p, key);
  }

  /** A statement that was logged with a column shows its value. */
  lemma LoggedShows(spec: TableSpec, db: Db, change: Change, wall: nat, id: string, c: string)
    requires var logged := Logged(spec, RowIn(db.tables, RowKey(spec.name, change.id)), change);
             logged.Some? && c in logged.value.1
    ensures var key := RowKey(spec.name, change.id);
            Shown(RowAt(Captured(spec, db, change, wall, id).tables, key), c)
            == Some(Logged(spec, RowIn(db.tables, key), change).value.1[c])
  {
    hide Captured;
    CapturedRow(spec, db, change, wall, id);
  }

  /** The write is captured at place i and logs a value for column c. */
  ghost predicate Captures(reg: Registry, history: set<Event>, moves: seq<Move>, i: nat, p: Origin, key: RowKey,
                           c: string, v: Value)
    requires Legal(reg, history, moves) && i < |moves|
  {
    && p in At(reg, history, moves, i).world.nodes
    && moves[i].Plain? && moves[i].move.Local? && moves[i].move.at == p && moves[i].move.step.Write?
    && var spec, change := moves[i].move.step.spec, moves[i].move.step.change;
    var logged := Logged(spec, RowIn(DbAt(reg, history, moves, i, p).tables, key), change);
    key == RowKey(spec.name, change.id) && logged.Some? && c in logged.value.1 && logged.value.1[c] == v
  }

  lemma CapturedShows(reg: Registry, history: set<Event>, moves: seq<Move>, i: nat, p: Origin, key: RowKey,
                      c: string, v: Value)
    requires Legal(reg, history, moves) && i < |moves| && Captures(reg, history, moves, i, p, key, c, v)
    ensures p in At(reg, history, moves, i + 1).world.nodes
    ensures Shown(RowAt(DbAt(reg, history, moves, i + 1, p).tables, key), c) == Some(v)
  {
    hide Legal, At, Captured, Logged, RowAt, Shown, Genuine;
    AtNext(reg, history, moves, i);
    var step := moves[i].move.step;
    LoggedShows(step.spec, DbAt(reg, history, moves, i, p), step.change, step.wall, step.changeId, c);
  }

  /** The joiner's row of a streamed table is the source's row at the snapshot. */
  lemma SeededRow(reg: Registry, history: set<Event>, moves: seq<Move>, j: nat, p: Origin, r: Origin, key: RowKey)
    requires Legal(reg, history, moves) && j < |moves| - 1 && p in At(reg, history, moves, j).world.nodes
    requires var last := moves[|moves| - 1];
             && p in At(reg, history, moves, j).extras && last.SeedFrom? && last.at == r
             && last.snapshot == Taken(At(reg, history, moves, j), p)
    requires Streamed(reg, key)
    ensures r in At(reg, history, moves, |moves|).world.nodes
    ensures RowAt(DbAt(reg, history, moves, |moves|, r).tables, key)
         == RowAt(DbAt(reg, history, moves, j, p).tables, key)
  {
    hide Legal, At, RowAt, Streamed, IsEmpty;
    var n := |moves| - 1;
    AtNext(reg, history, moves, n);
    var last, f := moves[n], At(reg, history, moves, n);
    LoadTables(reg, f.world.nodes[r], last.snapshot.vector, last.tables, last.clock);
    assert SeedsInto(reg, last.snapshot.tables, f.world.nodes[r].db.tables, last.tables);
  }

  /** A node writes a value, serves a snapshot of itself later, and a joiner
      loads that snapshot: the joiner shows the value exactly when the writer
      had not lost it by then to a later statement or event. The snapshot
      accounts for the write either way. */
  lemma SeededValueIff(reg: Registry, history: set<Event>, moves: seq<Move>, i: nat, j: nat, p: Origin, r: Origin,
                       key: RowKey, c: string, v: Value)
    requires WellFormedRegistry(reg) && Legal(reg, history, moves) && i < j < |moves| - 1 && Streamed(reg, key)
    requires Captures(reg, history, moves, i, p, key, c, v)
    requires p in At(reg, history, moves, j).world.nodes && p in At(reg, history, moves, j).extras
    requires var last := moves[|moves| - 1];
             last.SeedFrom? && last.at == r && last.snapshot == Taken(At(reg, history, moves, j), p)
    ensures p in At(reg, history, moves, i + 1).world.nodes && r in At(reg, history, moves, |moves|).world.nodes
    ensures Shown(RowAt(DbAt(reg, history, moves, |moves|, r).tables, key), c) == Some(v) <==>
            !Lost(SpecAt(reg, key), RowAt(DbAt(reg, history, moves, i + 1, p).tables, key),
                  Between(reg, history, moves, i + 1, j, p, key), c, v)
    ensures DbAt(reg, history, moves, i + 1, p).local.currentSeq <= Get(moves[|moves| - 1].snapshot.vector, p)
  {
    hide Legal, At, RowAt, Shown, Lost, Between, RunRow, SpecAt, WellFormedRegistry, Captures, Streamed, Taken;
    CapturedShows(reg, history, moves, i, p, key, c, v);
    BetweenRuns(reg, history, moves, i + 1, j, p, key);
    ShownIff(SpecAt(reg, key), RowAt(DbAt(reg, history, moves, i + 1, p).tables, key),
             Between(reg, history, moves, i + 1, j, p, key), c, v);
    SeededRow(reg, history, moves, j, p, r, key);
    SnapshotCovers(reg, history, moves, i + 1, j, p);
  }

  lemma MoveAdvances(reg: Registry, history: set<Event>, f: Full, m: Move, p: Origin)
    requires Enabled(reg, history, f, m) && p in f.world.nodes
    ensures var g := Reflection.After(reg, history, f, m);
            p in g.world.nodes && AtMost(LocalVector(f.world.nodes[p].db), LocalVector(g.world.nodes[p].db))
  {
    hide Mesh.Enabled, Mesh.After, LocalVector, Genuine, SeedsInto, IsEmpty;
    match m
    case Plain(move) => Mesh.MoveAdvances(reg, f.world, move);
    case Take(_) =>
    case SeedFrom(at, snap, tables, clock) => SeedAdvances(reg, f.world, at, snap.vector, tables, clock, p);
  }

  lemma SeedAdvances(reg: Registry, w: Mesh.World, at: Origin, vector: Vector, tables: Tables, clock: Hlc.HLC,
                     p: Origin)
    requires at in w.nodes && p in w.nodes
    ensures Mesh.Enabled(reg, w, Mesh.Local(at, Load(vector, tables, clock)))
    ensures var v := Mesh.After(reg, w, Mesh.Local(at, Load(vector, tables, clock)));
            p in v.nodes && AtMost(LocalVector(w.nodes[p].db), LocalVector(v.nodes[p].db))
  {
    hide Mesh.After, LocalVector;
    Mesh.MoveAdvances(reg, w, Mesh.Local(at, Load(vector, tables, clock)));
  }

  lemma {:induction false} VectorGrows(reg: Registry, history: set<Event>, moves: seq<Move>, i: nat, j: nat, p: Origin)
    requires Legal(reg, history, moves) && i <= j <= |moves| && p in At(reg, history, moves, i).world.nodes
    ensures p in At(reg, history, moves, j).world.nodes
    ensures AtMost(LocalVector(DbAt(reg, history, moves, i, p)), LocalVector(DbAt(reg, history, moves, j, p)))
    decreases j
  {
    hide Legal, At, LocalVector, Enabled, Reflection.After;
    if i < j {
      VectorGrows(reg, history, moves, i, j - 1, p);
      AtNext(reg, history, moves, j - 1);
      MoveAdvances(reg, history, At(reg, history, moves, j - 1), moves[j - 1], p);
    }
  }

  lemma SnapshotCovers(reg: Registry, history: set<Event>, moves: seq<Move>, i: nat, j: nat, p: Origin)
    requires Legal(reg, history, moves) && i <= j <= |moves| && p in At(reg, history, moves, i).world.nodes
    requires p in At(reg, history, moves, j).world.nodes && p in At(reg, history, moves, j).extras
    ensures DbAt(reg, history, moves, i, p).local.currentSeq <= Get(Taken(At(reg, history, moves, j), p).vector, p)
  {
    hide Legal, AfterAll, LocalVector;
    VectorGrows(reg, history, moves, i, j, p);
    LegalPrefix(reg, history, moves, i);
    RunIsConsistent(reg, history, moves[..i]);
    OwnEntry(At(reg, history, moves, i).world, p);
  }

  lemma OwnEntry(w: Mesh.World, p: Origin)
    requires Mesh.Consistent(w) && p in w.nodes
    ensures Get(LocalVector(w.nodes[p].db), p) == w.nodes[p].db.local.currentSeq
  {
    hide Sound;
    assert Mesh.NodeConsistent(w, p);
  }
}
