/** Field-level last-write-wins resolution of one row (applyRow in
    internal/apply/apply.go) and the laws it obeys. */
module Resolver {
  import opened Conflict
  import opened Changelog
  import opened Store

  /** A registered table: its writable columns and their DDL defaults. */
  datatype TableSpec = TableSpec(name: string, columns: set<string>, defaults: Row)

  /** Everything the resolver knows about one row. */
  datatype RowState = RowState(row: Option<Row>, vers: map<string, Version>, tomb: Option<Version>)

  const NOTHING := RowState(None, map[], None)

  function Blank(spec: TableSpec): Row {
    map c | c in spec.columns :: if c in spec.defaults then spec.defaults[c] else Null
  }

  predicate Carries(spec: TableSpec, e: Event, c: string) {
    c in e.payload && c in spec.columns
  }

  predicate Blocked(rs: RowState, e: Event) {
    rs.tomb.Some? && !Wins(VersionOf(e), rs.tomb.value)
  }

  /** The registered columns on which the event beats the stored version. */
  function Winners(spec: TableSpec, vers: map<string, Version>, e: Event): Row {
    map c | c in e.payload && c in spec.columns && (c !in vers || Wins(VersionOf(e), vers[c])) :: e.payload[c]
  }

  function Stamped(values: Row, v: Version): map<string, Version> {
    map c | c in values :: v
  }

  function Resolve(spec: TableSpec, rs: RowState, e: Event): RowState {
    if Blocked(rs, e) then rs
    else if e.op.Delete? then rs.(row := None, tomb := Some(VersionOf(e)))
    else
      var won := Winners(spec, rs.vers, e);
      if won == map[] then rs
      else RowState(Some((if rs.row.Some? then rs.row.value else Blank(spec)) + won),
                    rs.vers + Stamped(won, VersionOf(e)), None)
  }

  /** Whether the event changed the business row. */
  predicate Writes(spec: TableSpec, rs: RowState, e: Event) {
    !Blocked(rs, e) && (e.op.Delete? || Winners(spec, rs.vers, e) != map[])
  }

  // ----- What one event does -----

  /** The tombstone alone decides whether an event has any effect. */
  predicate IsBlocked(rs: RowState, e: Event) {
    rs.tomb.Some? && !Wins(Version(e.hlc, e.origin.nodeId, e.originSeq), rs.tomb.value)
  }

  /** A registered column whose stored version, if any, the event beats. */
  predicate WinsColumn(spec: TableSpec, rs: RowState, e: Event, c: string) {
    && c in spec.columns && c in e.payload
    && (c in rs.vers ==> Wins(Version(e.hlc, e.origin.nodeId, e.originSeq), rs.vers[c]))
  }

  predicate WinsAny(spec: TableSpec, rs: RowState, e: Event) {
    exists c :: c in spec.columns && WinsColumn(spec, rs, e, c)
  }

  /** A delete removes the row, leaves the field versions, and puts up a
      tombstone. */
  lemma DeleteEffect(spec: TableSpec, rs: RowState, e: Event)
    requires e.op.Delete?
    ensures IsBlocked(rs, e) ==> Resolve(spec, rs, e) == rs
    ensures !IsBlocked(rs, e) ==>
              var after := Resolve(spec, rs, e);
              && after.row == None && after.vers == rs.vers
              && after.tomb == Some(Version(e.hlc, e.origin.nodeId, e.originSeq))
  {
  }

  /** A write has no effect unless it wins a column. Then the row exists without
      a tombstone; a column it wins takes its value and version; any other
      column stays, or shows its DDL default in a row that was not there. */
  lemma WriteEffect(spec: TableSpec, rs: RowState, e: Event, c: string)
    requires !e.op.Delete? && c in spec.columns && (rs.row.Some? ==> c in rs.row.value)
    ensures IsBlocked(rs, e) || !WinsAny(spec, rs, e) ==> Resolve(spec, rs, e) == rs
    ensures !IsBlocked(rs, e) && WinsAny(spec, rs, e) ==>
              var after := Resolve(spec, rs, e);
              && after.tomb == None && after.row.Some? && c in after.row.value
              && (WinsColumn(spec, rs, e, c) ==>
                    && after.row.value[c] == e.payload[c]
                    && c in after.vers && after.vers[c] == Version(e.hlc, e.origin.nodeId, e.originSeq))
              && (!WinsColumn(spec, rs, e, c) ==>
                    && (c in after.vers <==> c in rs.vers) && (c in rs.vers ==> after.vers[c] == rs.vers[c])
                    && after.row.value[c] == if rs.row.Some? then rs.row.value[c]
                                             else if c in spec.defaults then spec.defaults[c] else Null)
  {
    hide Wins;
    var won := Winners(spec, rs.vers, e);
    forall x
      ensures x in won <==> WinsColumn(spec, rs, e, x)
    {
    }
    if WinsAny(spec, rs, e) {
      var x :| x in spec.columns && WinsColumn(spec, rs, e, x);
      assert x in won;
    } else {
      assert forall x :: x in won ==> x in spec.columns && WinsColumn(spec, rs, e, x);
      assert won == map[];
    }
  }

  /** Whether the application sees a write: exactly an unblocked delete, or an
      unblocked write that wins a column. */
  lemma WritesIff(spec: TableSpec, rs: RowState, e: Event)
    ensures Writes(spec, rs, e) <==> !IsBlocked(rs, e) && (e.op.Delete? || WinsAny(spec, rs, e))
  {
    hide Wins;
    var won := Winners(spec, rs.vers, e);
    if WinsAny(spec, rs, e) {
      var x :| x in spec.columns && WinsColumn(spec, rs, e, x);
      assert x in won;
    }
    if won != map[] {
      var x :| x in won;
      assert x in spec.columns && WinsColumn(spec, rs, e, x);
    }
  }

  /** The row after the events in delivery order. */
  function Run(spec: TableSpec, es: seq<Event>): RowState {
    if es == [] then NOTHING else Resolve(spec, Run(spec, es[..|es| - 1]), es[|es| - 1])
  }

  // ----- INSERT/UPDATE histories: the row is a function of the event set -----

  ghost predicate IsTop(spec: TableSpec, history: set<Event>, c: string, e: Event) {
    && e in history && Carries(spec, e, c)
    && forall x :: x in history && Carries(spec, x, c) ==> !Wins(VersionOf(x), VersionOf(e))
  }

  /** Column c holds what `e` carried, under e's version. */
  ghost predicate Holds(rs: RowState, c: string, e: Event) {
    && c in rs.vers && rs.vers[c] == VersionOf(e)
    && rs.row.Some? && c in rs.row.value && c in e.payload && rs.row.value[c] == e.payload[c]
  }

  /** Each column holds the value and version of the greatest event that
      carries it; a column nobody carried holds its default. */
  ghost predicate IsLastWrite(spec: TableSpec, history: set<Event>, rs: RowState) {
    && Undeleted(spec, rs)
    && (forall c :: c in rs.vers <==> CarriedIn(spec, history, c))
    && (forall c :: c in rs.vers ==> Settled(spec, history, rs, c))
  }

  /** No tombstone; the row exists once a column is versioned, and its other
      columns hold their defaults. */
  ghost predicate Undeleted(spec: TableSpec, rs: RowState) {
    && rs.tomb == None
    && rs.vers.Keys <= spec.columns
    && (rs.row.Some? <==> rs.vers != map[])
    && (rs.row.Some? ==> rs.row.value.Keys == spec.columns)
    && (rs.row.Some? ==> forall c :: c in spec.columns && c !in rs.vers ==> rs.row.value[c] == Blank(spec)[c])
  }

  ghost predicate CarriedIn(spec: TableSpec, history: set<Event>, c: string) {
    exists e :: e in history && Carries(spec, e, c)
  }

  ghost predicate Settled(spec: TableSpec, history: set<Event>, rs: RowState, c: string) {
    exists e :: IsTop(spec, history, c, e) && Holds(rs, c, e)
  }

  ghost predicate WritesOnly(history: set<Event>) {
    forall e :: e in history ==> !e.op.Delete?
  }

  lemma NothingIsLastWrite(spec: TableSpec)
    ensures IsLastWrite(spec, {}, NOTHING)
  {
  }

  /** Column c is settled again once `e` is resolved. */
  lemma WriteSettles(spec: TableSpec, history: set<Event>, rs: RowState, e: Event, c: string)
    requires IsLastWrite(spec, history, rs) && !e.op.Delete?
    requires c in Resolve(spec, rs, e).vers
    ensures Settled(spec, history + {e}, Resolve(spec, rs, e), c)
  {
    hide Wins, VersionOf;
    if c in Winners(spec, rs.vers, e) {
      forall x | x in history && Carries(spec, x, c)
        ensures !Wins(VersionOf(x), VersionOf(e))
      {
        assert CarriedIn(spec, history, c) && Settled(spec, history, rs, c);
        var top :| IsTop(spec, history, c, top) && Holds(rs, c, top);
        WinsIsTotalOrder(VersionOf(x), VersionOf(e), VersionOf(top));
      }
      WinsIsTotalOrder(VersionOf(e), VersionOf(e), VersionOf(e));
      assert IsTop(spec, history + {e}, c, e) && Holds(Resolve(spec, rs, e), c, e);
    } else {
      assert Settled(spec, history, rs, c);
      var top :| IsTop(spec, history, c, top) && Holds(rs, c, top);
      assert IsTop(spec, history + {e}, c, top) && Holds(Resolve(spec, rs, e), c, top);
    }
  }

  lemma WriteKeepsUndeleted(spec: TableSpec, rs: RowState, e: Event)
    requires Undeleted(spec, rs) && !e.op.Delete?
    ensures Undeleted(spec, Resolve(spec, rs, e))
    ensures forall c :: c in Resolve(spec, rs, e).vers <==> c in rs.vers || Carries(spec, e, c)
  {
    hide Wins, VersionOf;
    var won := Winners(spec, rs.vers, e);
    forall c | Carries(spec, e, c)
      ensures c in rs.vers || c in won
    {
    }
  }

  /** One more write, new or repeated, keeps the last-write picture. */
  lemma WriteKeepsLastWrite(spec: TableSpec, history: set<Event>, rs: RowState, e: Event)
    requires IsLastWrite(spec, history, rs) && !e.op.Delete?
    ensures IsLastWrite(spec, history + {e}, Resolve(spec, rs, e))
  {
    hide Wins, VersionOf, Resolve, Undeleted, Settled;
    WriteKeepsUndeleted(spec, rs, e);
    var after := Resolve(spec, rs, e);
    forall c
      ensures c in after.vers <==> CarriedIn(spec, history + {e}, c)
    {
      assert CarriedIn(spec, history, c) ==> CarriedIn(spec, history + {e}, c);
    }
    forall c | c in after.vers
      ensures Settled(spec, history + {e}, after, c)
    {
      WriteSettles(spec, history, rs, e, c);
    }
  }

  lemma SettledIsUnique(spec: TableSpec, history: set<Event>, a: RowState, b: RowState, c: string)
    requires Coherent(history) && Settled(spec, history, a, c) && Settled(spec, history, b, c)
    ensures c in a.vers && c in b.vers && a.vers[c] == b.vers[c]
    ensures a.row.Some? && b.row.Some? && c in a.row.value && c in b.row.value
    ensures a.row.value[c] == b.row.value[c]
  {
    hide Wins, VersionOf;
    var x :| IsTop(spec, history, c, x) && Holds(a, c, x);
    var y :| IsTop(spec, history, c, y) && Holds(b, c, y);
    WinsIsTotalOrder(VersionOf(x), VersionOf(y), VersionOf(x));
  }

  /** The event set determines the row: order, batching and repetition do not
      matter. */
  lemma LastWriteIsUnique(spec: TableSpec, history: set<Event>, a: RowState, b: RowState)
    requires Coherent(history) && IsLastWrite(spec, history, a) && IsLastWrite(spec, history, b)
    ensures a == b
  {
    hide Wins, VersionOf, Settled, CarriedIn;
    assert a.vers.Keys == b.vers.Keys;
    forall c | c in a.vers
      ensures a.vers[c] == b.vers[c] && a.row.value[c] == b.row.value[c]
    {
      SettledIsUnique(spec, history, a, b, c);
    }
    assert a.vers == b.vers;
    assert a.row.Some? ==> a.row.value == b.row.value;
  }
}
