/** Change capture: the meaning of the generated triggers
    (internal/schema/schema.go) and the clock they share. */
module Capture {
  import opened Hlc
  import opened Changelog
  import opened Store
  import opened Resolver

  // ----- Sequence and clock allocation -----

  /** The allocation fragment every trigger runs on the local state row. */
  function Allocated(s: LocalState, wall: nat): LocalState {
    LocalState(s.self, s.currentSeq + 1,
               HLC(Larger(s.hlc.physical, wall), if s.hlc.physical >= wall then s.hlc.logical + 1 else 0))
  }

  /** The trigger stamps exactly as Clock.Tick would on the stored clock. */
  lemma AllocationTicks(s: LocalState, wall: nat)
    ensures Allocated(s, wall).hlc == TickFrom(s.hlc, wall)
  {
  }

  /** What happens to the stored clock between and at captures. */
  datatype ClockStep = Allocate(wall: nat) | Save(h: HLC)

  function StepClock(s: LocalState, step: ClockStep): LocalState {
    match step
    case Allocate(wall) => Allocated(s, wall)
    case Save(h) => s.(hlc := SavedHlc(s.hlc, h))
  }

  function ClockAfter(s: LocalState, steps: seq<ClockStep>): LocalState {
    if steps == [] then s else StepClock(ClockAfter(s, steps[..|steps| - 1]), steps[|steps| - 1])
  }

  /** Over any interleaving of allocations and saves, the stored clock never
      goes back; the local state after a later allocation carries a larger
      sequence number and a strictly larger timestamp. */
  lemma {:induction false} StoredClockAdvances(s: LocalState, steps: seq<ClockStep>, i: nat)
    requires i <= |steps|
    ensures !Before(ClockAfter(s, steps).hlc, ClockAfter(s, steps[..i]).hlc)
    ensures ClockAfter(s, steps).currentSeq >= ClockAfter(s, steps[..i]).currentSeq
    ensures ClockAfter(s, steps).currentSeq > ClockAfter(s, steps[..i]).currentSeq ==>
              Before(ClockAfter(s, steps[..i]).hlc, ClockAfter(s, steps).hlc)
    decreases |steps|
  {
    if i < |steps| {
      var init := steps[..|steps| - 1];
      assert init[..i] == steps[..i];
      StoredClockAdvances(s, init, i);
    } else {
      assert steps[..i] == steps;
    }
  }

  /** Saving an observed timestamp and then capturing a local write stamps past
      the observation exactly when the save did not drop the logical part, or
      the wall has moved on: SaveHLC stores logical 0 when physical advances. */
  lemma CaptureAfterSaveIff(s: LocalState, h: HLC, wall: nat)
    ensures Before(h, Allocated(s.(hlc := SavedHlc(s.hlc, h)), wall).hlc) <==>
            !(h.physical > s.hlc.physical && h.logical > 0 && wall <= h.physical)
  {
  }

  /** The same after a committed batch, whose clock is past every event it
      stored: one of them is not behind the next capture exactly when saving
      dropped the logical part, it has one, at that very time, and the wall has
      not moved on. */
  lemma CaptureAfterBatchIff(s: LocalState, clock: HLC, seen: HLC, wall: nat)
    requires Before(seen, clock)
    ensures Before(seen, Allocated(s.(hlc := SavedHlc(s.hlc, clock)), wall).hlc) <==>
            !(clock.physical > s.hlc.physical && seen.physical == clock.physical && seen.logical > 0
              && wall <= clock.physical)
  {
  }

  // ----- Triggers -----

  /** A row statement of the host application on one registered table. */
  datatype Change =
    | InsertRow(id: string, values: Row)
    | UpdateRow(id: string, newId: string, values: Row)
    | DeleteRow(id: string)

  function Tracked(spec: TableSpec, values: Row): Row {
    map c | c in values && c in spec.columns :: values[c]
  }

  /** Columns whose value the update really changes (OLD <=> NEW is false). */
  function Changed(oldRow: Row, newRow: Row): Row {
    map c | c in newRow && (c !in oldRow || oldRow[c] != newRow[c]) :: newRow[c]
  }

  /** The row after the statement, or None when the statement fails. */
  function RowAfter(spec: TableSpec, row: Option<Row>, c: Change): Option<Option<Row>> {
    match c
    case InsertRow(_, values) =>
      if row.Some? then None else Some(Some(Blank(spec) + Tracked(spec, values)))
    case UpdateRow(id, newId, values) =>
      if row.None? then Some(None)
      else if id != newId then None
      else Some(Some(row.value + Tracked(spec, values)))
    case DeleteRow(_) => Some(None)
  }

  /** Operation and payload the trigger logs, if it logs at all. */
  function Logged(spec: TableSpec, row: Option<Row>, c: Change): Option<(Operation, Row)> {
    match c
    case InsertRow(_, values) =>
      if row.Some? then None else Some((Insert, Blank(spec) + Tracked(spec, values)))
    case UpdateRow(id, newId, values) =>
      if row.None? || id != newId then None
      else
        var payload := Changed(row.value, row.value + Tracked(spec, values));
        if payload == map[] then None else Some((Update, payload))
    case DeleteRow(_) =>
      if row.None? then None else Some((Delete, map[]))
  }

  function RowIn(t: Tables, key: RowKey): Option<Row> {
    if key in t.rows then Some(t.rows[key]) else None
  }

  function WithRow(t: Tables, key: RowKey, row: Option<Row>): Tables {
    t.(rows := if row.Some? then t.rows[key := row.value] else t.rows - {key})
  }

  /** Statement and trigger in one transaction. Only business rows, the log and
      the local state row change: the resolver's versions do not. */
  function Captured(spec: TableSpec, db: Db, c: Change, wall: nat, changeId: string): Db {
    var key := RowKey(spec.name, c.id);
    var after := RowAfter(spec, RowIn(db.tables, key), c);
    if after.None? then db
    else
      var logged := Logged(spec, RowIn(db.tables, key), c);
      var changed := db.(tables := WithRow(db.tables, key, after.value));
      if logged.None? then changed
      else
        var s := Allocated(db.local, wall);
        WithEvent(changed.(local := s),
                  Event(s.self, s.currentSeq, changeId, spec.name, c.id, logged.value.0, s.hlc, logged.value.1))
  }

  // ----- What a trigger leaves behind -----

  /** The log gains one row: the next own sequence, stamped after the stored
      clock and at the wall at least, under the trigger's table name. */
  ghost predicate LogsOne(before: Db, after: Db, table: string, id: string, op: Operation, payload: Row,
                          wall: nat, changeId: string)
  {
    var self, k := before.local.self, before.local.currentSeq + 1;
    var stamp := if before.local.hlc.physical >= wall then HLC(before.local.hlc.physical, before.local.hlc.logical + 1)
                 else HLC(wall, 0);
    && after.local == LocalState(self, k, stamp)
    && EventsOf(after, self) == EventsOf(before, self)[k := Event(self, k, changeId, table, id, op, stamp, payload)]
    && forall o :: o != self ==> EventsOf(after, o) == EventsOf(before, o)
  }

  /** One business row changes; versions and tombstones do not. */
  ghost predicate RowBecomes(before: Tables, after: Tables, key: RowKey, row: Option<Row>) {
    && after.versions == before.versions && after.tombs == before.tombs
    && (key in after.rows <==> row.Some?) && (row.Some? ==> after.rows[key] == row.value)
    && forall other :: other != key ==>
                         && (other in after.rows <==> other in before.rows)
                         && (other in before.rows ==> after.rows[other] == before.rows[other])
  }

  /** A value for every registered column: the statement's, or the default. */
  ghost predicate IsCreated(spec: TableSpec, values: Row, row: Row) {
    && row.Keys == spec.columns
    && forall c :: c in spec.columns ==>
                     row[c] == if c in values then values[c]
                     else if c in spec.defaults then spec.defaults[c] else Null
  }

  /** The statement's values over the row, and the columns that differ. */
  ghost predicate IsUpdated(spec: TableSpec, before: Row, values: Row, row: Row, payload: Row) {
    && row.Keys == before.Keys + (values.Keys * spec.columns)
    && (forall c :: c in row ==> row[c] == if c in values && c in spec.columns then values[c] else before[c])
    && (forall c :: c in payload <==> c in row && !(c in before && before[c] == row[c]))
    && (forall c :: c in payload ==> payload[c] == row[c])
  }

  class CapturedTable {
    const db: Database
    const spec: TableSpec

    constructor (db: Database, spec: TableSpec)
      ensures this.db == db && this.spec == spec
    {
      this.db, this.spec := db, spec;
    }

    method Allocate(wall: nat) returns (seqno: nat, stamp: HLC)
      modifies db`local
      ensures db.local == Allocated(old(db.local), wall)
      ensures seqno == db.local.currentSeq && stamp == db.local.hlc
    {
      var op, ol := db.local.hlc.physical, db.local.hlc.logical;
      var np := if op >= wall then op else wall;
      var nl := if op >= wall then ol + 1 else 0;
      db.local := LocalState(db.local.self, db.local.currentSeq + 1, HLC(np, nl));
      seqno, stamp := db.local.currentSeq, db.local.hlc;
    }

    method Append(id: string, op: Operation, payload: Row, wall: nat, changeId: string)
      modifies db`local, db`log
      ensures db.View() == WithEvent(old(db.View()).(local := Allocated(old(db.local), wall)),
                                     Event(old(db.local.self), old(db.local.currentSeq) + 1, changeId, spec.name,
                                           id, op, Allocated(old(db.local), wall).hlc, payload))
    {
      var seqno, stamp := Allocate(wall);
      var e := Event(db.local.self, seqno, changeId, spec.name, id, op, stamp, payload);
      var known := if e.origin in db.log then db.log[e.origin] else map[];
      db.log := db.log[e.origin := known[e.originSeq := e]];
    }

    method Insert(id: string, values: Row, wall: nat, changeId: string) returns (ok: bool)
      modifies db`tables, db`local, db`log
      ensures db.View() == Captured(spec, old(db.View()), InsertRow(id, values), wall, changeId)
      ensures ok <==> RowKey(spec.name, id) !in old(db.tables.rows)
    {
      var key := RowKey(spec.name, id);
      if key in db.tables.rows {
        return false;
      }
      var created := Blank(spec) + Tracked(spec, values);
      db.tables := db.tables.(rows := db.tables.rows[key := created]);
      Append(id, Operation.Insert, created, wall, changeId);
      return true;
    }

    /** The columns that differ, one by one. */
    method Differences(before: Row, after: Row) returns (payload: Row)
      ensures payload == Changed(before, after)
    {
      payload := map[];
      var todo := after.Keys;
      while todo != {}
        invariant todo <= after.Keys
        invariant payload == map c | c in Changed(before, after) && c !in todo :: after[c]
      {
        var c :| c in todo;
        if !(c in before && before[c] == after[c]) {
          payload := payload[c := after[c]];
        }
        todo := todo - {c};
      }
    }

    /** The update trigger rejects id changes and logs the changed columns. */
    method Update(id: string, newId: string, values: Row, wall: nat, changeId: string) returns (ok: bool)
      modifies db`tables, db`local, db`log
      ensures db.View() == Captured(spec, old(db.View()), UpdateRow(id, newId, values), wall, changeId)
      ensures ok <==> RowKey(spec.name, id) !in old(db.tables.rows) || id == newId
    {
      hide Changed, Tracked;
      var key := RowKey(spec.name, id);
      if key !in db.tables.rows {
        assert db.tables.rows - {key} == db.tables.rows;
        return true;
      }
      if id != newId {
        return false;
      }
      var before := db.tables.rows[key];
      var after := before + Tracked(spec, values);
      var payload := Differences(before, after);
      db.tables := db.tables.(rows := db.tables.rows[key := after]);
      if payload != map[] {
        Append(id, Operation.Update, payload, wall, changeId);
      }
      return true;
    }

    method Delete(id: string, wall: nat, changeId: string)
      modifies db`tables, db`local, db`log
      ensures db.View() == Captured(spec, old(db.View()), DeleteRow(id), wall, changeId)
    {
      var key := RowKey(spec.name, id);
      if key in db.tables.rows {
        db.tables := db.tables.(rows := db.tables.rows - {key});
        Append(id, Operation.Delete, map[], wall, changeId);
      } else {
        assert db.tables.rows - {key} == db.tables.rows;
      }
    }
  }

  /** A duplicate changes nothing; otherwise the whole row is stored and logged. */
  lemma InsertEffect(spec: TableSpec, db: Db, id: string, values: Row, wall: nat, changeId: string)
    ensures var key, after := RowKey(spec.name, id), Captured(spec, db, InsertRow(id, values), wall, changeId);
            if key in db.tables.rows then after == db
            else exists row ::
                   && IsCreated(spec, values, row) && RowBecomes(db.tables, after.tables, key, Some(row))
                   && LogsOne(db, after, spec.name, id, Operation.Insert, row, wall, changeId)
  {
    hide RowBecomes, LogsOne, Captured;
    var key, change := RowKey(spec.name, id), InsertRow(id, values);
    if key in db.tables.rows {
      NotCaptured(spec, db, change, wall, changeId);
    } else {
      var row := Blank(spec) + Tracked(spec, values);
      assert IsCreated(spec, values, row);
      CapturedIs(spec, db, change, wall, changeId, Some(row), Operation.Insert, row);
    }
  }

  /** A change of the id fails; an update of a missing row does nothing; a
      no-op update logs nothing. Otherwise the changed columns are logged. */
  lemma UpdateEffect(spec: TableSpec, db: Db, id: string, newId: string, values: Row, wall: nat, changeId: string)
    ensures var key, after := RowKey(spec.name, id), Captured(spec, db, UpdateRow(id, newId, values), wall, changeId);
            if key !in db.tables.rows || id != newId then after == db
            else exists row, payload ::
                   && IsUpdated(spec, db.tables.rows[key], values, row, payload)
                   && RowBecomes(db.tables, after.tables, key, Some(row))
                   && if payload == map[] then after.local == db.local && after.log == db.log
                      else LogsOne(db, after, spec.name, id, Operation.Update, payload, wall, changeId)
  {
    hide RowBecomes, LogsOne, Captured;
    var key, change := RowKey(spec.name, id), UpdateRow(id, newId, values);
    if key !in db.tables.rows || id != newId {
      NotCaptured(spec, db, change, wall, changeId);
    } else {
      var before := db.tables.rows[key];
      var row := before + Tracked(spec, values);
      UpdatedIs(spec, before, values);
      if Changed(before, row) == map[] {
        QuietlyCaptured(spec, db, change, wall, changeId, Some(row));
      } else {
        CapturedIs(spec, db, change, wall, changeId, Some(row), Operation.Update, Changed(before, row));
      }
    }
  }

  /** A delete is logged without a payload, for a row that exists. */
  lemma DeleteEffect(spec: TableSpec, db: Db, id: string, wall: nat, changeId: string)
    ensures var key, after := RowKey(spec.name, id), Captured(spec, db, DeleteRow(id), wall, changeId);
            if key !in db.tables.rows then after == db
            else
              && RowBecomes(db.tables, after.tables, key, None)
              && LogsOne(db, after, spec.name, id, Operation.Delete, map[], wall, changeId)
  {
    hide RowBecomes, LogsOne, Captured;
    var key, change := RowKey(spec.name, id), DeleteRow(id);
    if key !in db.tables.rows {
      NotCaptured(spec, db, change, wall, changeId);
    } else {
      CapturedIs(spec, db, change, wall, changeId, None, Operation.Delete, map[]);
    }
  }

  lemma NotCaptured(spec: TableSpec, db: Db, c: Change, wall: nat, changeId: string)
    requires var row := RowIn(db.tables, RowKey(spec.name, c.id));
             RowAfter(spec, row, c) in {None, Some(row)} && Logged(spec, row, c) == None
    ensures Captured(spec, db, c, wall, changeId) == db
  {
    var key := RowKey(spec.name, c.id);
    hide RowAfter, Logged;
    assert WithRow(db.tables, key, RowIn(db.tables, key)) == db.tables by {
      assert key in db.tables.rows ==> db.tables.rows[key := db.tables.rows[key]] == db.tables.rows;
      assert key !in db.tables.rows ==> db.tables.rows - {key} == db.tables.rows;
    }
  }

  lemma RowBecame(t: Tables, key: RowKey, row: Option<Row>)
    ensures RowBecomes(t, WithRow(t, key, row), key, row)
  {
  }

  lemma QuietlyCaptured(spec: TableSpec, db: Db, c: Change, wall: nat, changeId: string, row: Option<Row>)
    requires var before := RowIn(db.tables, RowKey(spec.name, c.id));
             RowAfter(spec, before, c) == Some(row) && Logged(spec, before, c) == None
    ensures var after := Captured(spec, db, c, wall, changeId);
            && RowBecomes(db.tables, after.tables, RowKey(spec.name, c.id), row)
            && after.local == db.local && after.log == db.log
  {
    hide RowAfter, Logged, RowBecomes, WithRow;
    RowBecame(db.tables, RowKey(spec.name, c.id), row);
  }

  lemma CapturedIs(spec: TableSpec, db: Db, c: Change, wall: nat, changeId: string,
                   row: Option<Row>, op: Operation, payload: Row)
    requires var before := RowIn(db.tables, RowKey(spec.name, c.id));
             RowAfter(spec, before, c) == Some(row) && Logged(spec, before, c) == Some((op, payload))
    ensures var after := Captured(spec, db, c, wall, changeId);
            && RowBecomes(db.tables, after.tables, RowKey(spec.name, c.id), row)
            && LogsOne(db, after, spec.name, c.id, op, payload, wall, changeId)
  {
    hide RowAfter, Logged, RowBecomes, WithRow;
    RowBecame(db.tables, RowKey(spec.name, c.id), row);
  }

  lemma UpdatedIs(spec: TableSpec, before: Row, values: Row)
    ensures var row := before + Tracked(spec, values);
            IsUpdated(spec, before, values, row, Changed(before, row))
  {
  }
}
