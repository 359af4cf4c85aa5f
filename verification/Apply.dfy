/** The transactional apply engine of internal/apply/apply.go over the tables
    of one node. */
module Apply {
  import opened Hlc
  import opened Conflict
  import opened Changelog
  import opened Store
  import opened Resolver
  import opened Progress

  // ----- Registry and row lookup -----

  /** Registered tables by lower-case name. */
  type Registry = map<string, TableSpec>

  function LowerChar(c: char): char {
    if 'A' <= c <= 'Z' then (c as int + 32) as char else c
  }

  function Lower(s: string): string {
    if s == [] then [] else [LowerChar(s[0])] + Lower(s[1..])
  }

  /** Every spec sits under the lower-case form of its own name. */
  ghost predicate WellFormedRegistry(reg: Registry) {
    forall t :: t in reg ==> Lower(reg[t].name) == t
  }

  /** The row an event addresses, under the registered spelling. */
  function KeyOf(reg: Registry, e: Event): Option<RowKey> {
    if Lower(e.table) in reg then Some(RowKey(reg[Lower(e.table)].name, e.rowId)) else None
  }

  predicate SameLetter(a: char, b: char) {
    a == b || ('A' <= a <= 'Z' && b as int == a as int + 32) || ('A' <= b <= 'Z' && a as int == b as int + 32)
  }

  /** Two spellings that differ in ASCII case at most. */
  predicate SameLetters(a: string, b: string) {
    |a| == |b| && forall i :: 0 <= i < |a| ==> SameLetter(a[i], b[i])
  }

  lemma {:induction false} LowerIff(a: string, b: string)
    ensures |Lower(a)| == |a|
    ensures Lower(a) == Lower(b) <==> SameLetters(a, b)
  {
    LowerLength(a);
    LowerLength(b);
    if a != [] && b != [] {
      LowerIff(a[1..], b[1..]);
      assert Lower(a) == [LowerChar(a[0])] + Lower(a[1..]);
      assert Lower(b) == [LowerChar(b[0])] + Lower(b[1..]);
      assert Lower(a) == Lower(b) <==> LowerChar(a[0]) == LowerChar(b[0]) && Lower(a[1..]) == Lower(b[1..]) by {
        assert Lower(a)[0] == LowerChar(a[0]) && Lower(a)[1..] == Lower(a[1..]);
        assert Lower(b)[0] == LowerChar(b[0]) && Lower(b)[1..] == Lower(b[1..]);
      }
      assert forall i :: 0 <= i < |a[1..]| ==> a[1..][i] == a[i + 1];
      assert forall i :: 0 <= i < |b[1..]| ==> b[1..][i] == b[i + 1];
      assert SameLetters(a, b) <==> SameLetter(a[0], b[0]) && SameLetters(a[1..], b[1..]) by {
        if SameLetters(a[1..], b[1..]) && SameLetter(a[0], b[0]) {
          forall i | 0 <= i < |a|
            ensures SameLetter(a[i], b[i])
          {
            assert i > 0 ==> SameLetter(a[1..][i - 1], b[1..][i - 1]);
          }
        }
      }
    }
  }

  lemma {:induction false} LowerLength(s: string)
    ensures |Lower(s)| == |s|
  {
    if s != [] {
      LowerLength(s[1..]);
    }
  }

  /** An event addresses the row of the table registered under any spelling of
      its name, and no other; the row goes by the registered spelling. */
  lemma AddressesIff(reg: Registry, e: Event, key: RowKey)
    requires WellFormedRegistry(reg)
    ensures KeyOf(reg, e) == Some(key) <==>
            key.id == e.rowId && exists t :: t in reg && SameLetters(reg[t].name, e.table) && key.table == reg[t].name
  {
    hide Lower, SameLetters;
    forall t | t in reg
      ensures SameLetters(reg[t].name, e.table) <==> t == Lower(e.table)
    {
      LowerIff(reg[t].name, e.table);
    }
  }

  function SpecAt(reg: Registry, key: RowKey): TableSpec {
    if Lower(key.table) in reg then reg[Lower(key.table)] else TableSpec(key.table, {}, map[])
  }

  function RowAt(t: Tables, key: RowKey): RowState {
    RowState(if key in t.rows then Some(t.rows[key]) else None,
             if key in t.versions then t.versions[key] else map[],
             if key in t.tombs then Some(t.tombs[key]) else None)
  }

  function Put(t: Tables, key: RowKey, rs: RowState): Tables {
    Tables(if rs.row.Some? then t.rows[key := rs.row.value] else t.rows - {key},
           if rs.vers == map[] then t.versions else t.versions[key := rs.vers],
           if rs.tomb.Some? then t.tombs[key := rs.tomb.value] else t.tombs - {key})
  }

  /** applyRow: unknown tables are stored and forwarded, never written. */
  function ResolveInto(reg: Registry, t: Tables, e: Event): Tables {
    match KeyOf(reg, e)
    case None => t
    case Some(key) =>
      if Writes(SpecAt(reg, key), RowAt(t, key), e)
      then Put(t, key, Resolve(SpecAt(reg, key), RowAt(t, key), e))
      else t
  }

  predicate WritesInto(reg: Registry, t: Tables, e: Event) {
    var key := KeyOf(reg, e);
    key.Some? && Writes(SpecAt(reg, key.value), RowAt(t, key.value), e)
  }

  /** An event resolves its own row and leaves every other row alone. */
  lemma ResolveIntoAt(reg: Registry, t: Tables, e: Event, key: RowKey)
    requires WellFormedRegistry(reg)
    ensures RowAt(ResolveInto(reg, t, e), key) ==
            if KeyOf(reg, e) == Some(key) then Resolve(SpecAt(reg, key), RowAt(t, key), e) else RowAt(t, key)
  {
    hide Wins, VersionOf, Lower;
    if KeyOf(reg, e) == Some(key) {
      var spec, rs := SpecAt(reg, key), RowAt(t, key);
      if Writes(spec, rs, e) && Resolve(spec, rs, e).vers == map[] {
        assert rs.vers == map[];
      }
    }
  }

  // ----- One batch -----

  datatype Admitted = Admitted(db: Db, stored: nat, written: nat)

  /** One event inside the transaction. */
  function Admit(reg: Registry, a: Admitted, e: Event): Result<Admitted> {
    if !ValidEvent(e) then Err(InvalidEvent)
    else if IsRetired(a.db.nodes, e.origin) then Err(RetiredIncarnation)
    else if Stored(a.db, e) then Ok(a)
    else
      var wrote := WritesInto(reg, a.db.tables, e);
      Ok(Admitted(WithEvent(a.db, e).(tables := ResolveInto(reg, a.db.tables, e)),
                  a.stored + 1, a.written + if wrote then 1 else 0))
  }

  function AdmitAll(reg: Registry, db: Db, es: seq<Event>): Result<Admitted> {
    if es == [] then Ok(Admitted(db, 0, 0))
    else
      match AdmitAll(reg, db, es[..|es| - 1])
      case Err(x) => Err(x)
      case Ok(a) => Admit(reg, a, es[|es| - 1])
  }

  function Origins(es: seq<Event>): set<Origin> {
    set e | e in es :: e.origin
  }

  /** The rest of the transaction: clock row, then the touched cursors. */
  function Finish(db: Db, es: seq<Event>, clock: HLC): Db {
    AdvancedAll(db.(local := db.local.(hlc := SavedHlc(db.local.hlc, clock))), Origins(es))
  }

  /** The committed effect of ApplyBatch; an error leaves the tables alone. */
  function Applied(reg: Registry, db: Db, es: seq<Event>, clock: HLC): Result<Db> {
    if es == [] then Ok(db)
    else
      match AdmitAll(reg, db, es)
      case Err(x) => Err(x)
      case Ok(a) => Ok(Finish(a.db, es, clock))
  }

  /** The clock is past every event that was not in the log before. */
  ghost predicate PastNewEvents(before: Db, after: Db, clock: HLC) {
    forall o, n :: n in Present(after, o) && n !in Present(before, o) ==> Before(EventsOf(after, o)[n].hlc, clock)
  }

  datatype BatchResult = BatchResult(stored: nat, written: nat, vector: Vector)

  class Applier {
    const db: Database
    const clock: Clock
    const self: Origin
    const registry: Registry

    constructor (db: Database, clock: Clock, self: Origin, registry: Registry)
      ensures this.db == db && this.clock == clock && this.self == self && this.registry == registry
    {
      this.db, this.clock, this.self, this.registry := db, clock, self, registry;
    }

    /** Resolves one event column by column, in any column order. */
    method ApplyRow(e: Event) returns (wrote: bool)
      requires WellFormedRegistry(registry)
      modifies db`tables
      ensures db.tables == ResolveInto(registry, old(db.tables), e)
      ensures wrote <==> WritesInto(registry, old(db.tables), e)
    {
      hide Wins, VersionOf, Lower;
      if Lower(e.table) !in registry {
        return false;
      }
      var spec := registry[Lower(e.table)];
      var key := RowKey(spec.name, e.rowId);
      assert SpecAt(registry, key) == spec;
      var incoming := VersionOf(e);
      ghost var t := db.tables;
      ghost var rs := RowAt(t, key);
      var hasTomb := key in db.tables.tombs;
      if hasTomb && !Wins(incoming, db.tables.tombs[key]) {
        return false;
      }
      if e.op.Delete? {
        db.tables := db.tables.(rows := db.tables.rows - {key});
        db.tables := db.tables.(tombs := db.tables.tombs[key := incoming]);
        assert Put(t, key, Resolve(spec, rs, e)).versions == t.versions;
        return true;
      }
      var versions := if key in db.tables.versions then db.tables.versions[key] else map[];
      var winners := CollectWinners(spec, versions, e);
      if winners == map[] {
        return false;
      }
      var row := if key in db.tables.rows then db.tables.rows[key] else Blank(spec);
      db.tables := db.tables.(rows := db.tables.rows[key := row + winners]);
      WriteVersions(key, winners.Keys, incoming);
      assert db.tables.versions == t.versions[key := rs.vers + Stamped(winners, incoming)];
      if hasTomb {
        db.tables := db.tables.(tombs := db.tables.tombs - {key});
      }
      assert t.tombs - {key} == db.tables.tombs;
      return true;
    }

    method CollectWinners(spec: TableSpec, versions: map<string, Version>, e: Event) returns (winners: Row)
      ensures winners == Winners(spec, versions, e)
    {
      hide Wins, VersionOf;
      winners := map[];
      var todo := e.payload.Keys;
      while todo != {}
        invariant todo <= e.payload.Keys
        invariant winners == map c | c in Winners(spec, versions, e) && c !in todo :: e.payload[c]
      {
        var c :| c in todo;
        if c in spec.columns && !(c in versions && !Wins(VersionOf(e), versions[c])) {
          winners := winners[c := e.payload[c]];
        }
        todo := todo - {c};
      }
    }

    method WriteVersions(key: RowKey, columns: set<string>, v: Version)
      requires columns != {}
      modifies db`tables
      ensures db.tables == old(db.tables).(versions := old(db.tables.versions)[key :=
                           RowAt(old(db.tables), key).vers + map c | c in columns :: v])
    {
      ghost var t := db.tables;
      var todo := columns;
      while todo != {}
        invariant todo <= columns
        invariant db.tables == t.(versions := db.tables.versions)
        invariant todo == columns ==> db.tables == t
        invariant todo != columns ==>
                    db.tables.versions ==
                    t.versions[key := RowAt(t, key).vers + map c | c in columns && c !in todo :: v]
      {
        var c :| c in todo;
        var row := if key in db.tables.versions then db.tables.versions[key] else map[];
        db.tables := db.tables.(versions := db.tables.versions[key := row[c := v]]);
        todo := todo - {c};
        assert row[c := v] == RowAt(t, key).vers + map x | x in columns && x !in todo :: v;
      }
      assert (map c | c in columns && c !in todo :: v) == map c | c in columns :: v;
    }

    /** One event of a batch: whether it was new, and whether it wrote. */
    method StoreEvent(e: Event) returns (r: Result<(bool, bool)>)
      requires WellFormedRegistry(registry)
      modifies db`log, db`tables, clock
      ensures match Admit(registry, Admitted(old(db.View()), 0, 0), e)
              case Err(x) => r == Err(x) && db.View() == old(db.View())
              case Ok(a) => r == Ok((a.stored == 1, a.written == 1)) && db.View() == a.db
      ensures !Before(clock.Load(), old(clock.Load()))
      ensures r.Ok? && r.value.0 ==> Before(e.hlc, clock.Load())
    {
      hide ResolveInto, WritesInto, EarliestAfter;
      if !ValidEvent(e) {
        return Err(InvalidEvent);
      }
      var refused := db.CheckIncarnation(e.origin);
      if refused {
        return Err(RetiredIncarnation);
      }
      var inserted := db.InsertEvent(e);
      if !inserted.value {
        return Ok((false, false));
      }
      var wall: nat := *;
      var t := clock.Update(wall, e.hlc);
      assert Before(e.hlc, t) && Before(old(clock.Load()), t) by { PastBoth(t, old(clock.Load()), e.hlc, wall); }
      var wrote := ApplyRow(e);
      return Ok((true, wrote));
    }

    /** Stores and resolves the events in one transaction, then moves the
        cursors. The in-memory clock keeps what it observed even when the
        transaction is rolled back. */
    method ApplyBatch(events: seq<Event>) returns (res: Result<BatchResult>)
      requires WellFormedRegistry(registry) && self == db.local.self
      modifies db, clock
      ensures match Applied(registry, old(db.View()), events, clock.Load())
              case Err(x) => res == Err(x) && db.View() == old(db.View())
              case Ok(after) => res.Ok? && db.View() == after && res.value.vector == LocalVector(after)
      ensures res.Ok? ==> exists after ::
                  AdmitAll(registry, old(db.View()), events) == Ok(Admitted(after, res.value.stored, res.value.written))
      ensures !Before(clock.Load(), old(clock.Load()))
      ensures res.Ok? ==> PastNewEvents(old(db.View()), db.View(), clock.Load())
    {
      hide ResolveInto, WritesInto, LocalVector, AdvancedAll, PastNewEvents, Admit;
      ghost var begun := db.View();
      if events == [] {
        var v := db.ReadLocalVector();
        NothingNew(begun, clock.Load());
        return Ok(BatchResult(0, 0, v));
      }
      var saved := db.View();
      var stored, written := 0, 0;
      var touched: set<Origin> := {};
      NothingNew(begun, clock.Load());
      for i := 0 to |events|
        invariant AdmitAll(registry, begun, events[..i]) == Ok(Admitted(db.View(), stored, written))
        invariant touched == Origins(events[..i])
        invariant !Before(clock.Load(), old(clock.Load()))
        invariant PastNewEvents(begun, db.View(), clock.Load())
      {
        ghost var now, ticked := db.View(), clock.Load();
        assert events[..i + 1][..i] == events[..i] && events[..i + 1][i] == events[i];
        AdmitCounts(registry, now, stored, written, events[i]);
        var outcome := StoreEvent(events[i]);
        if outcome.Err? {
          AdmitFails(registry, begun, events, i + 1);
          db.Rollback(saved);
          return Err(outcome.error);
        }
        OneMoreEvent(registry, begun, now, events[i], ticked, clock.Load());
        touched := touched + {events[i].origin};
        stored := stored + if outcome.value.0 then 1 else 0;
        written := written + if outcome.value.1 then 1 else 0;
      }
      assert events[..|events|] == events;
      ghost var admitted := db.View();
      db.SaveHLC(clock.Load());
      AdvanceTouched(db, touched);
      assert db.View() == Finish(admitted, events, clock.Load());
      FinishKeepsLog(admitted, events, clock.Load());
      SameLogPastNew(begun, admitted, db.View(), clock.Load());
      var v := db.ReadLocalVector();
      return Ok(BatchResult(stored, written, v));
    }
  }

  lemma PastBoth(t: HLC, a: HLC, b: HLC, wall: nat)
    requires EarliestAfter(t, a, b, wall)
    ensures Before(a, t) && Before(b, t)
  {
  }

  lemma NothingNew(db: Db, clock: HLC)
    ensures PastNewEvents(db, db, clock)
  {
  }

  lemma AdmitCounts(reg: Registry, db: Db, stored: nat, written: nat, e: Event)
    ensures Admit(reg, Admitted(db, stored, written), e).Err? <==> Admit(reg, Admitted(db, 0, 0), e).Err?
    ensures match Admit(reg, Admitted(db, 0, 0), e)
            case Err(x) => Admit(reg, Admitted(db, stored, written), e) == Err(x)
            case Ok(a) =>
              && a.stored <= 1 && a.written <= 1
              && Admit(reg, Admitted(db, stored, written), e)
                 == Ok(Admitted(a.db, stored + a.stored, written + a.written))
  {
  }

  lemma OneMoreEvent(reg: Registry, begun: Db, db: Db, e: Event, before: HLC, after: HLC)
    requires PastNewEvents(begun, db, before) && !Before(after, before)
    requires Admit(reg, Admitted(db, 0, 0), e).Ok?
    requires Admit(reg, Admitted(db, 0, 0), e).value.stored == 1 ==> Before(e.hlc, after)
    ensures PastNewEvents(begun, Admit(reg, Admitted(db, 0, 0), e).value.db, after)
  {
    hide ResolveInto, WritesInto;
  }

  lemma FinishKeepsLog(db: Db, es: seq<Event>, clock: HLC)
    ensures Finish(db, es, clock).log == db.log && Finish(db, es, clock).tables == db.tables
    ensures Finish(db, es, clock).nodes == db.nodes && Finish(db, es, clock).meta == db.meta
    ensures Finish(db, es, clock).local == db.local.(hlc := SavedHlc(db.local.hlc, clock))
    ensures Finish(db, es, clock).seeds == db.seeds
  {
  }

  lemma SameLogPastNew(begun: Db, a: Db, b: Db, clock: HLC)
    requires PastNewEvents(begun, a, clock) && a.log == b.log
    ensures PastNewEvents(begun, b, clock)
  {
    forall o, n | n in Present(b, o) && n !in Present(begun, o)
      ensures Before(EventsOf(b, o)[n].hlc, clock)
    {
      assert n in Present(a, o);
    }
  }

  /** A failed event fails the whole batch with the same error. */
  lemma {:induction false} AdmitFails(reg: Registry, db: Db, es: seq<Event>, n: nat)
    requires n <= |es| && AdmitAll(reg, db, es[..n]).Err?
    ensures AdmitAll(reg, db, es) == AdmitAll(reg, db, es[..n])
    decreases |es|
  {
    if n < |es| {
      assert es[..|es| - 1][..n] == es[..n];
      AdmitFails(reg, db, es[..|es| - 1], n);
    } else {
      assert es[..n] == es;
    }
  }

  lemma {:induction false} InvalidEventStops(reg: Registry, db: Db, es: seq<Event>, e: Event)
    requires e in es && !ValidEvent(e)
    ensures AdmitAll(reg, db, es).Err?
  {
    hide ValidEvent, ResolveInto, WritesInto;
    if es[|es| - 1] != e {
      assert e in es[..|es| - 1];
      InvalidEventStops(reg, db, es[..|es| - 1], e);
    }
  }

  /** One invalid event fails every batch it is in. */
  lemma InvalidEventFailsBatch(reg: Registry, db: Db, es: seq<Event>, clock: HLC, e: Event)
    requires e in es && !ValidEvent(e)
    ensures Applied(reg, db, es, clock).Err?
  {
    InvalidEventStops(reg, db, es, e);
  }

  /** The events a transaction of this node takes. */
  predicate Acceptable(nodes: map<string, NodeRow>, e: Event) {
    && WellFormedEvent(e)
    && !(e.origin.nodeId in nodes && nodes[e.origin.nodeId].incarnationId == e.origin.incarnationId
         && nodes[e.origin.nodeId].status == "RETIRED")
  }

  /** What is asked of every event: a complete identity, a table, a row, a known
      operation, and no payload on a delete. */
  predicate WellFormedEvent(e: Event) {
    && e.origin.nodeId != "" && e.origin.incarnationId != "" && e.originSeq != 0
    && e.table != "" && e.rowId != ""
    && (e.op == Insert || e.op == Update || (e.op == Delete && e.payload == map[]))
  }

  lemma ValidIff(e: Event)
    ensures ValidEvent(e) <==> WellFormedEvent(e)
  {
  }

  /** A malformed event and a retired origin are told apart. */
  function Refusal(e: Event): Error {
    if WellFormedEvent(e) then RetiredIncarnation else InvalidEvent
  }

  lemma AdmitOkIff(reg: Registry, a: Admitted, e: Event)
    ensures Admit(reg, a, e).Ok? <==> Acceptable(a.db.nodes, e)
    ensures Admit(reg, a, e).Ok? ==> Admit(reg, a, e).value.db.nodes == a.db.nodes
    ensures Admit(reg, a, e).Err? ==> Admit(reg, a, e).error == Refusal(e)
  {
    hide ResolveInto, WritesInto, ValidEvent, WellFormedEvent;
    ValidIff(e);
  }

  predicate FirstRefused(nodes: map<string, NodeRow>, es: seq<Event>, i: nat)
    requires i < |es|
  {
    !Acceptable(nodes, es[i]) && forall j :: 0 <= j < i ==> Acceptable(nodes, es[j])
  }

  lemma {:induction false} AdmitAllOkIff(reg: Registry, db: Db, es: seq<Event>)
    ensures AdmitAll(reg, db, es).Ok? <==> forall e :: e in es ==> Acceptable(db.nodes, e)
    ensures AdmitAll(reg, db, es).Ok? ==> AdmitAll(reg, db, es).value.db.nodes == db.nodes
    ensures AdmitAll(reg, db, es).Err? ==>
              exists i :: 0 <= i < |es| && FirstRefused(db.nodes, es, i)
                          && AdmitAll(reg, db, es).error == Refusal(es[i])
  {
    hide Acceptable, Admit, Refusal;
    if es != [] {
      var init, last := es[..|es| - 1], es[|es| - 1];
      AdmitAllOkIff(reg, db, init);
      assert es == init + [last];
      if AdmitAll(reg, db, init).Ok? {
        AdmitOkIff(reg, AdmitAll(reg, db, init).value, last);
        assert AdmitAll(reg, db, es).Err? ==> FirstRefused(db.nodes, es, |init|);
      } else {
        var i :| 0 <= i < |init| && FirstRefused(db.nodes, init, i)
                 && AdmitAll(reg, db, init).error == Refusal(init[i]);
        assert FirstRefused(db.nodes, es, i);
      }
    }
  }

  /** A batch commits exactly when every event in it is valid and of an origin
      not recorded as retired: one other event fails all of it, the first one
      with its own error. */
  lemma BatchCommitsIff(reg: Registry, db: Db, es: seq<Event>, clock: HLC)
    ensures Applied(reg, db, es, clock).Ok? <==> forall e :: e in es ==> Acceptable(db.nodes, e)
    ensures Applied(reg, db, es, clock).Err? ==>
              exists i :: 0 <= i < |es| && FirstRefused(db.nodes, es, i)
                          && Applied(reg, db, es, clock).error == Refusal(es[i])
  {
    hide Acceptable, Admit, Refusal, FirstRefused;
    AdmitAllOkIff(reg, db, es);
  }

  // ----- What a batch counts -----

  /** The identities a batch brings that the log does not have. */
  function NewIdentities(db: Db, es: seq<Event>): set<(Origin, nat)> {
    set e | e in es && !(e.origin in db.log && e.originSeq in db.log[e.origin]) :: (e.origin, e.originSeq)
  }

  /** Event i is new when its turn comes, and changes a registered row. */
  predicate WritesAtTurn(reg: Registry, db: Db, es: seq<Event>, i: nat)
    requires i < |es|
  {
    var before := AdmitAll(reg, db, es[..i]);
    && before.Ok? && (es[i].origin, es[i].originSeq) in NewIdentities(before.value.db, [es[i]])
    && KeyOf(reg, es[i]).Some?
    && var key := KeyOf(reg, es[i]).value;
    var rs := RowAt(before.value.db.tables, key);
    !IsBlocked(rs, es[i]) && (es[i].op.Delete? || WinsAny(SpecAt(reg, key), rs, es[i]))
  }

  function TurnsWritten(reg: Registry, db: Db, es: seq<Event>): set<nat> {
    set i | 0 <= i < |es| && WritesAtTurn(reg, db, es, i)
  }

  /** The log has gained exactly these rows. */
  ghost predicate Gained(before: Db, after: Db, ids: set<(Origin, nat)>) {
    forall o, n :: n in Present(after, o) <==> n in Present(before, o) || (o, n) in ids
  }

  lemma AdmitEffect(reg: Registry, a: Admitted, e: Event)
    requires Admit(reg, a, e).Ok?
    ensures var after := Admit(reg, a, e).value;
            && after.stored == a.stored + (if Stored(a.db, e) then 0 else 1)
            && after.written == a.written + (if !Stored(a.db, e) && WritesInto(reg, a.db.tables, e) then 1 else 0)
            && Gained(a.db, after.db, if Stored(a.db, e) then {} else {(e.origin, e.originSeq)})
  {
    hide ResolveInto, WritesInto, ValidEvent, IsRetired;
  }

  lemma GainedMore(db: Db, now: Db, after: Db, ids: set<(Origin, nat)>, e: Event)
    requires Gained(db, now, ids) && Gained(now, after, if Stored(now, e) then {} else {(e.origin, e.originSeq)})
    ensures Gained(db, after, ids + if Stored(db, e) then {} else {(e.origin, e.originSeq)})
    ensures Stored(now, e) <==> Stored(db, e) || (e.origin, e.originSeq) in ids
  {
    hide Present;
  }

  /** Stored are the identities new to the log, each once; written are the new
      events that changed a row when their turn came. */
  lemma {:induction false} CountsAre(reg: Registry, db: Db, es: seq<Event>)
    requires AdmitAll(reg, db, es).Ok?
    ensures AdmitAll(reg, db, es).value.stored == |NewIdentities(db, es)|
    ensures AdmitAll(reg, db, es).value.written == |TurnsWritten(reg, db, es)|
    ensures Gained(db, AdmitAll(reg, db, es).value.db, NewIdentities(db, es))
  {
    hide Admit, WritesInto, WritesAtTurn, Gained, NewIdentities, TurnsWritten, Stored;
    if es == [] {
      NothingCounted(reg, db);
    } else {
      var init, e := es[..|es| - 1], es[|es| - 1];
      CountsAre(reg, db, init);
      var a := AdmitAll(reg, db, init).value;
      var ids, turns, id := NewIdentities(db, init), TurnsWritten(reg, db, init), (e.origin, e.originSeq);
      assert es == init + [e];
      OneMoreNew(db, init, e, es);
      OneMoreTurn(reg, db, es);
      LastTurn(reg, db, es);
      AdmitEffect(reg, a, e);
      GainedMore(db, a.db, AdmitAll(reg, db, es).value.db, ids, e);
      NotNew(db, init, id);
      TurnsBelow(reg, db, init);
      GrownSet(ids, id, !Stored(db, e));
      GrownSet(turns, |es| - 1, WritesAtTurn(reg, db, es, |es| - 1));
    }
  }

  lemma GrownSet<T>(s: set<T>, x: T, adds: bool)
    ensures |s + if adds then {x} else {}| == |s| + if adds && x !in s then 1 else 0
  {
    assert s + {} == s;
    assert x in s ==> s + {x} == s;
  }

  lemma NothingCounted(reg: Registry, db: Db)
    ensures NewIdentities(db, []) == {} && TurnsWritten(reg, db, []) == {} && Gained(db, db, {})
  {
  }

  lemma NotNew(db: Db, es: seq<Event>, id: (Origin, nat))
    ensures id in NewIdentities(db, es) ==> id.1 !in Present(db, id.0)
    ensures forall e: Event :: (e.origin, e.originSeq) in NewIdentities(db, es) ==> !Stored(db, e)
  {
  }

  lemma TurnsBelow(reg: Registry, db: Db, es: seq<Event>)
    ensures |es| !in TurnsWritten(reg, db, es)
  {
  }

  lemma OneMoreNew(db: Db, init: seq<Event>, e: Event, es: seq<Event>)
    requires es == init + [e]
    ensures NewIdentities(db, es) ==
            NewIdentities(db, init) + if Stored(db, e) then {} else {(e.origin, e.originSeq)}
  {
  }

  lemma OneMoreTurn(reg: Registry, db: Db, es: seq<Event>)
    requires es != []
    ensures TurnsWritten(reg, db, es) ==
            TurnsWritten(reg, db, es[..|es| - 1]) + if WritesAtTurn(reg, db, es, |es| - 1) then {|es| - 1} else {}
  {
    hide KeyOf, AdmitAll;
    var init := es[..|es| - 1];
    forall i: nat | i < |init|
      ensures WritesAtTurn(reg, db, es, i) <==> WritesAtTurn(reg, db, init, i)
    {
      assert es[..i] == init[..i] && es[i] == init[i];
    }
  }

  lemma LastTurn(reg: Registry, db: Db, es: seq<Event>)
    requires es != [] && AdmitAll(reg, db, es[..|es| - 1]).Ok?
    ensures var a, e := AdmitAll(reg, db, es[..|es| - 1]).value, es[|es| - 1];
            WritesAtTurn(reg, db, es, |es| - 1) <==> !Stored(a.db, e) && WritesInto(reg, a.db.tables, e)
  {
    hide AdmitAll, Writes, IsBlocked, WinsAny;
    var a, e := AdmitAll(reg, db, es[..|es| - 1]).value, es[|es| - 1];
    if KeyOf(reg, e).Some? {
      WritesIff(SpecAt(reg, KeyOf(reg, e).value), RowAt(a.db.tables, KeyOf(reg, e).value), e);
    }
  }
}
