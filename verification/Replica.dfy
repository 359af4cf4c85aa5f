/** What one node's cursors mean over any run of batches, local writes, seed
    loads, acknowledgements and collections. */
module Replica {
  import opened Hlc
  import opened Changelog
  import opened Store
  import opened Progress
  import opened Resolver
  import opened Apply
  import opened Capture
  import opened Seed
  import opened SeedTarget

  type Identity = (Origin, nat)

  /** A database, the identities ever stored in its log, and the vector its
      seed loads covered. */
  datatype Node = Node(db: Db, got: set<Identity>, covered: Vector)

  datatype Step =
    | Batch(events: seq<Event>, clock: HLC)
    | Write(spec: TableSpec, change: Change, wall: nat, changeId: string)
    | Load(vector: Vector, tables: Tables, clock: HLC)
    | AbortedLoad(tables: Tables)
    | Record(peer: Origin, vector: Vector)
    | Collect(origin: Origin, victims: set<nat>)
    | Members(nodes: map<string, NodeRow>)

  function Begin(self: Origin): Node {
    Node(Fresh(self), {}, map[])
  }

  function Identities(es: seq<Event>): set<Identity> {
    set e | e in es :: (e.origin, e.originSeq)
  }

  /** A seed loads into an empty database only; a session never records a
      vector for the node itself; a failing batch changes nothing. */
  function Next(reg: Registry, n: Node, step: Step): Node {
    match step
    case Batch(es, clock) =>
      (match Applied(reg, n.db, es, clock)
       case Err(_) => n
       case Ok(after) => Node(after, n.got + Identities(es), n.covered))
    case Write(spec, change, wall, id) =>
      n.(db := Captured(spec, n.db, change, wall, id))
    case Load(v, tables, clock) =>
      if !IsEmpty(reg, n.db) then n
      else Node(Loaded(n.db, v, tables, clock), n.got, Join(n.covered, v))
    case AbortedLoad(tables) =>
      if !IsEmpty(reg, n.db) then n else n.(db := n.db.(tables := tables))
    case Record(peer, v) =>
      if peer == n.db.local.self then n else n.(db := WithProgressMany(n.db, peer, v))
    case Collect(o, victims) =>
      n.(db := WithoutEvents(n.db, o, victims))
    case Members(nodes) => n.(db := n.db.(nodes := nodes))
  }

  /** Any tables the stream filled in. */
  function Loaded(db: Db, v: Vector, tables: Tables, clock: HLC): Db {
    WithProgressMany(db, db.local.self, v).(
    tables := tables, local := db.local.(hlc := SavedHlc(db.local.hlc, clock)))
  }

  function After(reg: Registry, self: Origin, steps: seq<Step>): Node {
    if steps == [] then Begin(self) else Next(reg, After(reg, self, steps[..|steps| - 1]), steps[|steps| - 1])
  }

  /** The node wrote it, stored it, or was seeded past it. */
  predicate Has(n: Node, o: Origin, k: nat) {
    || (o, k) in n.got
    || k <= Get(n.covered, o)
    || (o == n.db.local.self && k <= n.db.local.currentSeq)
  }

  ghost predicate LogSound(n: Node, o: Origin) {
    forall k :: k in Present(n.db, o) ==> k >= 1 && Has(n, o, k)
  }

  /** Everything up to a remote cursor is accounted for, and the next sequence
      is not in the log. */
  ghost predicate CursorSound(n: Node, o: Origin) {
    && (forall k :: 1 <= k <= Cursor(n.db, o) ==> Has(n, o, k))
    && Cursor(n.db, o) + 1 !in Present(n.db, o)
  }

  ghost predicate Sound(n: Node) {
    forall o :: LogSound(n, o) && (o != n.db.local.self ==> CursorSound(n, o))
  }

  /** Nothing the node had is forgotten. */
  ghost predicate Keeps(n: Node, after: Node) {
    && n.got <= after.got && AtMost(n.covered, after.covered)
    && after.db.local.self == n.db.local.self && n.db.local.currentSeq <= after.db.local.currentSeq
  }

  lemma StillHas(n: Node, after: Node, o: Origin, k: nat)
    requires Keeps(n, after) && Has(n, o, k)
    ensures Has(after, o, k)
  {
  }

  /** What a step owes at one origin. */
  lemma OriginStaysSound(n: Node, after: Node, o: Origin)
    requires Sound(n) && Keeps(n, after)
    requires forall k :: k in Present(after.db, o) && k !in Present(n.db, o) ==> k >= 1 && Has(after, o, k)
    requires o != n.db.local.self ==> Cursor(after.db, o) + 1 !in Present(after.db, o)
    requires o != n.db.local.self ==> forall k: nat :: Cursor(n.db, o) < k <= Cursor(after.db, o) ==> Has(after, o, k)
    ensures LogSound(after, o) && (o != n.db.local.self ==> CursorSound(after, o))
  {
    hide Cursor, Present, Has, Keeps;
    assert LogSound(n, o) && (o != n.db.local.self ==> CursorSound(n, o));
    forall k | k in Present(after.db, o)
      ensures k >= 1 && Has(after, o, k)
    {
      if k in Present(n.db, o) {
        StillHas(n, after, o, k);
      }
    }
    if o != n.db.local.self {
      forall k: nat | 1 <= k <= Cursor(after.db, o)
        ensures Has(after, o, k)
      {
        if k <= Cursor(n.db, o) {
          assert Has(n, o, k);
          StillHas(n, after, o, k);
        }
      }
    }
  }

  // ----- A batch -----

  /** The sequences a batch brings for one origin. */
  function SeqsFrom(es: seq<Event>, o: Origin): set<nat> {
    set e | e in es && e.origin == o :: e.originSeq
  }

  lemma SeqsFromSnoc(es: seq<Event>, o: Origin)
    requires es != []
    ensures var init, e := es[..|es| - 1], es[|es| - 1];
            SeqsFrom(es, o) == SeqsFrom(init, o) + if e.origin == o then {e.originSeq} else {}
  {
    assert forall x :: x in es <==> x in es[..|es| - 1] || x == es[|es| - 1];
  }

  lemma {:induction false} AdmitAllPresent(reg: Registry, db: Db, es: seq<Event>, o: Origin)
    requires AdmitAll(reg, db, es).Ok?
    ensures var after := AdmitAll(reg, db, es).value.db;
            && Present(after, o) == Present(db, o) + SeqsFrom(es, o)
            && after.progress == db.progress && after.local == db.local && after.nodes == db.nodes
            && after.meta == db.meta && after.seeds == db.seeds
    ensures forall e :: e in es ==> ValidEvent(e) && !IsRetired(db.nodes, e.origin)
  {
    hide Admit, ValidEvent, IsRetired, Present;
    if es == [] {
      assert SeqsFrom(es, o) == {};
    } else {
      var init, e := es[..|es| - 1], es[|es| - 1];
      AdmitAllPresent(reg, db, init, o);
      assert forall x :: x in es <==> x in init || x == e;
      AdmitPresent(reg, AdmitAll(reg, db, init).value, e, o);
      SeqsFromSnoc(es, o);
      hide SeqsFrom;
    }
  }

  lemma AdmitPresent(reg: Registry, a: Admitted, e: Event, o: Origin)
    requires Admit(reg, a, e).Ok?
    ensures var after := Admit(reg, a, e).value.db;
            && Present(after, o) == Present(a.db, o) + (if e.origin == o then {e.originSeq} else {})
            && after.progress == a.db.progress && after.local == a.db.local && after.nodes == a.db.nodes
            && after.meta == a.db.meta && after.seeds == a.db.seeds
    ensures ValidEvent(e) && !IsRetired(a.db.nodes, e.origin)
  {
    hide ResolveInto, WritesInto, ValidEvent;
  }

  /** Log and cursors after a committed batch. */
  lemma BatchCursors(reg: Registry, db: Db, es: seq<Event>, clock: HLC, o: Origin)
    requires Applied(reg, db, es, clock).Ok?
    ensures var after := Applied(reg, db, es, clock).value;
            && Present(after, o) == Present(db, o) + SeqsFrom(es, o)
            && after.local.self == db.local.self && after.local.currentSeq == db.local.currentSeq
            && after.nodes == db.nodes && after.meta == db.meta && after.seeds == db.seeds
            && (o != db.local.self && o in Origins(es) ==>
                  IsContiguousEnd(Present(after, o), Cursor(db, o), Cursor(after, o)))
            && (o !in Origins(es) ==> Cursor(after, o) == Cursor(db, o))
            && (forall r :: r != db.local.self ==> ProgressOf(after, r) == ProgressOf(db, r))
    ensures forall e :: e in es ==> ValidEvent(e)
  {
    hide AdmitAll, AdvancedAll, ValidEvent, IsContiguousEnd, SavedHlc;
    if es == [] {
      assert Present(db, o) + {} == Present(db, o);
      assert SeqsFrom(es, o) == {};
    } else {
      hide SeqsFrom;
      AdmitAllPresent(reg, db, es, o);
      var admitted := AdmitAll(reg, db, es).value.db;
      var saved := admitted.(local := admitted.local.(hlc := SavedHlc(admitted.local.hlc, clock)));
      FinishKeepsLog(admitted, es, clock);
      AdvancedCursors(saved, Origins(es), o);
    }
  }

  lemma BatchKeepsSound(reg: Registry, n: Node, es: seq<Event>, clock: HLC)
    requires Sound(n)
    ensures Sound(Next(reg, n, Batch(es, clock)))
  {
    hide Applied, ValidEvent, LogSound, CursorSound, Cursor, Present, Has, Sound;
    if Applied(reg, n.db, es, clock).Ok? {
      var after := Next(reg, n, Batch(es, clock));
      forall o
        ensures LogSound(after, o) && (o != n.db.local.self ==> CursorSound(after, o))
        ensures after.db.local.self == n.db.local.self
      {
        BatchCursors(reg, n.db, es, clock, o);
        BatchKeepsOrigin(n, after, es, o);
      }
      SoundEverywhere(after);
    }
  }

  lemma SoundEverywhere(n: Node)
    requires forall o :: LogSound(n, o) && (o != n.db.local.self ==> CursorSound(n, o))
    ensures Sound(n)
  {
  }

  lemma BatchKeepsOrigin(n: Node, after: Node, es: seq<Event>, o: Origin)
    requires Sound(n)
    requires after.got == n.got + Identities(es) && after.covered == n.covered
    requires Present(after.db, o) == Present(n.db, o) + SeqsFrom(es, o)
    requires after.db.local.self == n.db.local.self && after.db.local.currentSeq == n.db.local.currentSeq
    requires o != n.db.local.self && o in Origins(es) ==>
               IsContiguousEnd(Present(after.db, o), Cursor(n.db, o), Cursor(after.db, o))
    requires o !in Origins(es) ==> Cursor(after.db, o) == Cursor(n.db, o)
    requires forall e :: e in es ==> ValidEvent(e)
    ensures LogSound(after, o) && (o != n.db.local.self ==> CursorSound(after, o))
  {
    hide Cursor, Present, Sound;
    forall k | k in Present(after.db, o) && k !in Present(n.db, o)
      ensures k >= 1 && Has(after, o, k)
    {
      var e :| e in es && e.origin == o && e.originSeq == k;
      assert (o, k) in Identities(es);
    }
    if o !in Origins(es) {
      assert Present(after.db, o) == Present(n.db, o);
    }
    if o != n.db.local.self {
      SoundAt(n, o);
      forall k: nat | Cursor(n.db, o) < k <= Cursor(after.db, o)
        ensures Has(after, o, k)
      {
        assert k in Present(after.db, o);
        assert k in Present(n.db, o) ==> Has(n, o, k);
      }
    }
    OriginStaysSound(n, after, o);
  }

  lemma SoundAt(n: Node, o: Origin)
    requires Sound(n)
    ensures LogSound(n, o) && (o != n.db.local.self ==> CursorSound(n, o))
  {
  }

  // ----- The other steps -----

  lemma CapturedLog(spec: TableSpec, db: Db, c: Change, wall: nat, id: string, o: Origin)
    ensures var after := Captured(spec, db, c, wall, id);
            && after.progress == db.progress && after.nodes == db.nodes && after.meta == db.meta
            && after.seeds == db.seeds
            && after.local.self == db.local.self && after.local.currentSeq >= db.local.currentSeq
            && (o != db.local.self ==> Present(after, o) == Present(db, o)) && Present(db, o) <= Present(after, o)
            && (forall k :: k in Present(after, o) && k !in Present(db, o) ==>
                              k == db.local.currentSeq + 1 == after.local.currentSeq)
  {
    hide RowAfter, Logged, WithRow;
  }

  lemma WriteKeepsSound(reg: Registry, n: Node, spec: TableSpec, c: Change, wall: nat, id: string)
    requires Sound(n)
    ensures Sound(Next(reg, n, Write(spec, c, wall, id)))
  {
    hide Captured, Sound;
    var after := Next(reg, n, Write(spec, c, wall, id));
    forall o
      ensures LogSound(after, o) && (o != n.db.local.self ==> CursorSound(after, o))
      ensures after.db.local.self == n.db.local.self
    {
      SoundAt(n, o);
      CapturedLog(spec, n.db, c, wall, id, o);
      assert Cursor(after.db, o) == Cursor(n.db, o);
      OriginStaysSound(n, after, o);
    }
    SoundEverywhere(after);
  }

  lemma LoadKeepsSound(reg: Registry, n: Node, v: Vector, tables: Tables, clock: HLC)
    requires Sound(n)
    ensures Sound(Next(reg, n, Load(v, tables, clock)))
  {
    if IsEmpty(reg, n.db) {
      hide IsEmpty, SavedHlc, Sound;
      var after := Next(reg, n, Load(v, tables, clock));
      forall o
        ensures LogSound(after, o) && (o != n.db.local.self ==> CursorSound(after, o))
      {
        assert Present(n.db, o) == {} by { EmptyLog(reg, n.db, o); }
        assert Present(after.db, o) == {};
        assert Cursor(after.db, o) == Larger(Cursor(n.db, o), Get(v, o));
        assert Get(after.covered, o) == Larger(Get(n.covered, o), Get(v, o));
        OriginStaysSound(n, after, o);
      }
      SoundEverywhere(after);
    }
  }

  lemma EmptyLog(reg: Registry, db: Db, o: Origin)
    requires IsEmpty(reg, db)
    ensures Present(db, o) == {}
  {
  }

  /** Recording a peer's vector and losing log rows: own cursors stay, and a
      gap below them hurts nothing. */
  lemma ShrinkKeepsSound(n: Node, after: Node)
    requires Sound(n) && after.got == n.got && after.covered == n.covered && after.db.local == n.db.local
    requires ProgressOf(after.db, n.db.local.self) == ProgressOf(n.db, n.db.local.self)
    requires forall o :: Present(after.db, o) <= Present(n.db, o)
    ensures Sound(after)
  {
    hide Sound;
    forall o
      ensures LogSound(after, o) && (o != n.db.local.self ==> CursorSound(after, o))
    {
      SoundAt(n, o);
      assert Present(after.db, o) <= Present(n.db, o);
      OriginStaysSound(n, after, o);
    }
    SoundEverywhere(after);
  }

  lemma StepKeepsSound(reg: Registry, n: Node, step: Step)
    requires Sound(n)
    ensures Sound(Next(reg, n, step))
  {
    hide Sound, IsEmpty, Applied, Captured;
    match step
    case Batch(es, clock) => BatchKeepsSound(reg, n, es, clock);
    case Write(spec, c, wall, id) => WriteKeepsSound(reg, n, spec, c, wall, id);
    case Load(v, tables, clock) => LoadKeepsSound(reg, n, v, tables, clock);
    case AbortedLoad(_) => ShrinkKeepsSound(n, Next(reg, n, step));
    case Record(_, _) => ShrinkKeepsSound(n, Next(reg, n, step));
    case Collect(_, _) => ShrinkKeepsSound(n, Next(reg, n, step));
    case Members(_) => ShrinkKeepsSound(n, Next(reg, n, step));
  }

  lemma BatchAdvancesAt(reg: Registry, n: Node, es: seq<Event>, clock: HLC, o: Origin)
    ensures Get(LocalVector(n.db), o) <= Get(LocalVector(Next(reg, n, Batch(es, clock)).db), o)
    ensures Keeps(n, Next(reg, n, Batch(es, clock)))
  {
    hide Applied, IsContiguousEnd;
    var after := Next(reg, n, Batch(es, clock));
    if Applied(reg, n.db, es, clock).Ok? {
      BatchCursors(reg, n.db, es, clock, o);
      ContiguousGrows(n.db, after.db, o);
    }
  }

  lemma LoadAdvancesAt(reg: Registry, n: Node, v: Vector, tables: Tables, clock: HLC, o: Origin)
    ensures Get(LocalVector(n.db), o) <= Get(LocalVector(Next(reg, n, Load(v, tables, clock)).db), o)
    ensures Keeps(n, Next(reg, n, Load(v, tables, clock)))
  {
    hide IsEmpty;
    var after := Next(reg, n, Load(v, tables, clock));
    assert IsEmpty(reg, n.db) ==> Cursor(after.db, o) == Larger(Cursor(n.db, o), Get(v, o));
    assert IsEmpty(reg, n.db) ==> forall p :: Get(after.covered, p) == Larger(Get(n.covered, p), Get(v, p));
  }

  lemma StepAdvancesAt(reg: Registry, n: Node, step: Step, o: Origin)
    ensures Get(LocalVector(n.db), o) <= Get(LocalVector(Next(reg, n, step).db), o)
    ensures Keeps(n, Next(reg, n, step))
  {
    hide Applied, Captured, IsEmpty, Loaded;
    match step
    case Batch(es, clock) => BatchAdvancesAt(reg, n, es, clock, o);
    case Write(spec, c, wall, id) => CapturedLog(spec, n.db, c, wall, id, o);
    case Load(v, tables, clock) => LoadAdvancesAt(reg, n, v, tables, clock, o);
    case AbortedLoad(_) =>
    case Record(_, _) =>
    case Collect(_, _) =>
    case Members(_) =>
  }

  /** No step takes a cursor, the own sequence or a receipt back. */
  lemma StepAdvances(reg: Registry, n: Node, step: Step)
    ensures AtMost(LocalVector(n.db), LocalVector(Next(reg, n, step).db))
    ensures Keeps(n, Next(reg, n, step))
  {
    hide Next, LocalVector, Keeps;
    StepAdvancesAt(reg, n, step, n.db.local.self);
    forall o
      ensures Get(LocalVector(n.db), o) <= Get(LocalVector(Next(reg, n, step).db), o)
    {
      StepAdvancesAt(reg, n, step, o);
    }
  }

  lemma ContiguousGrows(a: Db, b: Db, o: Origin)
    ensures IsContiguousEnd(Present(b, o), Cursor(a, o), Cursor(b, o)) ==> Cursor(a, o) <= Cursor(b, o)
  {
  }

  lemma {:induction false} RunKeepsSound(reg: Registry, self: Origin, steps: seq<Step>)
    ensures Sound(After(reg, self, steps)) && After(reg, self, steps).db.local.self == self
  {
    hide Next, Sound;
    if steps == [] {
      assert Sound(Begin(self)) by { BeginIsSound(self); }
    } else {
      RunKeepsSound(reg, self, steps[..|steps| - 1]);
      StepKeepsSound(reg, After(reg, self, steps[..|steps| - 1]), steps[|steps| - 1]);
      StepAdvances(reg, After(reg, self, steps[..|steps| - 1]), steps[|steps| - 1]);
    }
  }

  lemma BeginIsSound(self: Origin)
    ensures Sound(Begin(self))
  {
  }

  /** The cursor of a remote origin, over any run: every sequence up to it was
      stored or seed-covered, and the next one is not in the log. */
  lemma CursorsAreContiguous(reg: Registry, self: Origin, steps: seq<Step>, o: Origin, k: nat)
    requires o != self
    ensures var n := After(reg, self, steps);
            && (1 <= k <= Get(LocalVector(n.db), o) ==> (o, k) in n.got || k <= Get(n.covered, o))
            && Get(LocalVector(n.db), o) + 1 !in Present(n.db, o)
  {
    hide After;
    RunKeepsSound(reg, self, steps);
    var n := After(reg, self, steps);
    assert CursorSound(n, o) && Get(LocalVector(n.db), o) == Cursor(n.db, o);
    assert 1 <= k <= Cursor(n.db, o) ==> Has(n, o, k);
  }

  /** The advertised vector never goes back. */
  lemma {:induction false} VectorNeverDecreases(reg: Registry, self: Origin, steps: seq<Step>, i: nat)
    requires i <= |steps|
    ensures AtMost(LocalVector(After(reg, self, steps[..i]).db), LocalVector(After(reg, self, steps).db))
    decreases |steps|
  {
    hide Next, LocalVector;
    if i < |steps| {
      var init := steps[..|steps| - 1];
      assert init[..i] == steps[..i];
      VectorNeverDecreases(reg, self, init, i);
      StepAdvances(reg, After(reg, self, init), steps[|steps| - 1]);
    } else {
      assert steps[..i] == steps;
    }
  }

  // ----- Records of other receivers -----

  /** What a local step does to the records of other receivers. */
  lemma StepKeepsRecords(reg: Registry, n: Node, step: Step, r: Origin)
    requires !step.Record? && r != n.db.local.self
    ensures r in Next(reg, n, step).db.progress <==> r in n.db.progress
    ensures ProgressOf(Next(reg, n, step).db, r) == ProgressOf(n.db, r)
    ensures Next(reg, n, step).db.meta == n.db.meta
  {
    hide Applied, IsEmpty, Captured;
    match step
    case Batch(es, clock) =>
      if Applied(reg, n.db, es, clock).Ok? {
        BatchRecords(reg, n.db, es, clock, r);
      }
    case Write(spec, c, wall, id) => CapturedLog(spec, n.db, c, wall, id, r);
    case Load(_, _, _) =>
    case AbortedLoad(_) =>
    case Collect(_, _) =>
    case Members(_) =>
  }

  lemma BatchRecords(reg: Registry, db: Db, es: seq<Event>, clock: HLC, r: Origin)
    requires Applied(reg, db, es, clock).Ok? && r != db.local.self
    ensures var after := Applied(reg, db, es, clock).value;
            (r in after.progress <==> r in db.progress) && ProgressOf(after, r) == ProgressOf(db, r)
            && after.meta == db.meta
  {
    hide AdmitAll, SavedHlc;
    BatchCursors(reg, db, es, clock, r);
    if es != [] {
      AdmitAllPresent(reg, db, es, r);
    }
  }

  // ----- Getting past a refused event -----

  /** No batch of the run brings a valid event under the identity. */
  ghost predicate NeverValid(steps: seq<Step>, o: Origin, k: nat) {
    forall i, e :: 0 <= i < |steps| && steps[i].Batch? && e in steps[i].events && e.origin == o && e.originSeq == k ==>
                     !ValidEvent(e)
  }

  /** Step i is a seed load that succeeds and covers the sequence. */
  ghost predicate SeedCovers(reg: Registry, self: Origin, steps: seq<Step>, i: nat, o: Origin, k: nat)
    requires i < |steps|
  {
    steps[i].Load? && Get(steps[i].vector, o) >= k && IsEmpty(reg, After(reg, self, steps[..i]).db)
  }

  ghost predicate AnySeedCovers(reg: Registry, self: Origin, steps: seq<Step>, o: Origin, k: nat) {
    exists i :: 0 <= i < |steps| && SeedCovers(reg, self, steps, i, o, k)
  }

  lemma StepStoresValid(reg: Registry, n: Node, step: Step, o: Origin, k: nat)
    requires (o, k) !in n.got
    requires step.Batch? ==> forall e :: e in step.events && e.origin == o && e.originSeq == k ==> !ValidEvent(e)
    ensures (o, k) !in Next(reg, n, step).got
  {
    hide Applied, Captured, IsEmpty, ValidEvent;
    if step.Batch? && Applied(reg, n.db, step.events, step.clock).Ok? {
      BatchCursors(reg, n.db, step.events, step.clock, o);
      assert (o, k) !in Identities(step.events);
    }
  }

  lemma {:induction false} RefusedIsNeverStored(reg: Registry, self: Origin, steps: seq<Step>, o: Origin, k: nat)
    requires NeverValid(steps, o, k)
    ensures (o, k) !in After(reg, self, steps).got
  {
    hide Next, ValidEvent;
    if steps != [] {
      var init := steps[..|steps| - 1];
      assert forall i :: 0 <= i < |init| ==> init[i] == steps[i];
      RefusedIsNeverStored(reg, self, init, o, k);
      StepStoresValid(reg, After(reg, self, init), steps[|steps| - 1], o, k);
    }
  }

  /** What seeds covered is exactly what some successful load brought, and the
      cursor is never below it. */
  lemma {:induction false} CoveredIff(reg: Registry, self: Origin, steps: seq<Step>, o: Origin, k: nat)
    requires k >= 1 && o != self
    ensures Get(After(reg, self, steps).covered, o) >= k <==> AnySeedCovers(reg, self, steps, o, k)
    ensures Get(After(reg, self, steps).covered, o) <= Get(LocalVector(After(reg, self, steps).db), o)
  {
    hide Next, LocalVector, AnySeedCovers, IsEmpty;
    if steps == [] {
      assert !AnySeedCovers(reg, self, steps, o, k) by { NothingCovers(reg, self, o, k); }
    } else {
      var init, step := steps[..|steps| - 1], steps[|steps| - 1];
      CoveredIff(reg, self, init, o, k);
      RunKeepsSound(reg, self, init);
      StepCovers(reg, After(reg, self, init), step, o);
      StepAdvances(reg, After(reg, self, init), step);
      CoversOneMore(reg, self, steps, o, k);
    }
  }

  lemma NothingCovers(reg: Registry, self: Origin, o: Origin, k: nat)
    ensures !AnySeedCovers(reg, self, [], o, k)
  {
  }

  lemma StepCovers(reg: Registry, n: Node, step: Step, o: Origin)
    requires o != n.db.local.self
    ensures var loads := step.Load? && IsEmpty(reg, n.db);
            && Get(Next(reg, n, step).covered, o)
               == (if loads then Larger(Get(n.covered, o), Get(step.vector, o)) else Get(n.covered, o))
            && (loads ==> Get(LocalVector(Next(reg, n, step).db), o) >= Get(step.vector, o))
  {
    hide Applied, Captured, IsEmpty, SavedHlc;
  }

  lemma CoversOneMore(reg: Registry, self: Origin, steps: seq<Step>, o: Origin, k: nat)
    requires steps != []
    ensures AnySeedCovers(reg, self, steps, o, k) <==>
            || AnySeedCovers(reg, self, steps[..|steps| - 1], o, k)
            || SeedCovers(reg, self, steps, |steps| - 1, o, k)
  {
    hide IsEmpty, After;
    var init := steps[..|steps| - 1];
    forall i | 0 <= i < |init|
      ensures SeedCovers(reg, self, steps, i, o, k) <==> SeedCovers(reg, self, init, i, o, k)
    {
      assert steps[..i] == init[..i] && steps[i] == init[i];
    }
    if i :| 0 <= i < |init| && SeedCovers(reg, self, init, i, o, k) {
      assert SeedCovers(reg, self, steps, i, o, k);
    }
  }

  /** A node's cursor passes a sequence whose event every batch must refuse
      exactly when a seed load covered it: a captured row with an empty id stops
      all delta replication of its origin. */
  lemma RefusedEventIsPassedIff(reg: Registry, self: Origin, steps: seq<Step>, o: Origin, k: nat)
    requires o != self && k >= 1 && NeverValid(steps, o, k)
    ensures Get(LocalVector(After(reg, self, steps).db), o) >= k <==> AnySeedCovers(reg, self, steps, o, k)
  {
    hide After, LocalVector, AnySeedCovers, NeverValid;
    RefusedIsNeverStored(reg, self, steps, o, k);
    CoveredIff(reg, self, steps, o, k);
    CursorsAreContiguous(reg, self, steps, o, k);
  }

  /** A successful Fetch is a Load of the seed vector. */
  lemma FetchIsLoad(reg: Registry, before: Db, after: Db, msgs: seq<Message>, n: nat, c0: HLC, c1: HLC)
    requires 1 <= n < |msgs| && msgs[0].SeedStart? && Seeded(reg, before, after, msgs, n, c0, c1)
    ensures after == Loaded(before, msgs[0].vector, after.tables, c1)
  {
  }
}
