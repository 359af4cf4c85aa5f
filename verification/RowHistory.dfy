/** Rows under arbitrary INSERT, UPDATE and DELETE histories: what always holds,
    and exactly when delivery order does not matter. */
module RowHistory {
  import opened Conflict
  import opened Changelog
  import opened Store
  import opened Resolver

  // ----- What every history keeps -----

  /** Columns written since the row was last created. */
  ghost function LiveAfter(spec: TableSpec, rs: RowState, live: set<string>, e: Event): set<string> {
    if !Writes(spec, rs, e) then live
    else if e.op.Delete? then {}
    else live + Winners(spec, rs.vers, e).Keys
  }

  ghost function Live(spec: TableSpec, es: seq<Event>): set<string> {
    if es == [] then {}
    else LiveAfter(spec, Run(spec, es[..|es| - 1]), Live(spec, es[..|es| - 1]), es[|es| - 1])
  }

  /** Column c carries the version of a delivered write, and its value too
      while the column is live. */
  ghost predicate Named(spec: TableSpec, history: set<Event>, live: set<string>, rs: RowState, c: string) {
    exists e :: e in history && !e.op.Delete? && Carries(spec, e, c) && NamedBy(live, rs, c, e)
  }

  ghost predicate NamedBy(live: set<string>, rs: RowState, c: string, e: Event) {
    && c in rs.vers && rs.vers[c] == VersionOf(e)
    && (c in live ==> rs.row.Some? && c in rs.row.value && c in e.payload && rs.row.value[c] == e.payload[c])
  }

  ghost predicate BuriedBy(history: set<Event>, rs: RowState) {
    rs.tomb.Some? ==> exists d :: d in history && d.op.Delete? && VersionOf(d) == rs.tomb.value
  }

  ghost predicate Shape(spec: TableSpec, live: set<string>, rs: RowState) {
    && (rs.row.Some? <==> rs.vers != map[] && rs.tomb.None?)
    && (rs.row.Some? <==> live != {})
    && live <= rs.vers.Keys <= spec.columns
    && (rs.row.Some? ==> rs.row.value.Keys == spec.columns)
    && (rs.row.Some? ==> forall c :: c in spec.columns && c !in live ==> rs.row.value[c] == Blank(spec)[c])
  }

  /** The row exists iff it has a version and no tombstone; live columns hold
      the value of the write their version names, the others their default. */
  ghost predicate RowInvariant(spec: TableSpec, history: set<Event>, live: set<string>, rs: RowState) {
    && Shape(spec, live, rs)
    && BuriedBy(history, rs)
    && forall c :: c in rs.vers ==> Named(spec, history, live, rs, c)
  }

  lemma ShapeKept(spec: TableSpec, live: set<string>, rs: RowState, e: Event)
    requires Shape(spec, live, rs)
    ensures Shape(spec, LiveAfter(spec, rs, live, e), Resolve(spec, rs, e))
  {
    hide Wins, VersionOf;
    var won := Winners(spec, rs.vers, e);
    if won != map[] {
      var c :| c in won;
      assert c in Stamped(won, VersionOf(e));
    }
  }

  lemma NamedKept(spec: TableSpec, history: set<Event>, live: set<string>, rs: RowState, e: Event, c: string)
    requires Shape(spec, live, rs) && (c in rs.vers ==> Named(spec, history, live, rs, c))
    requires c in Resolve(spec, rs, e).vers
    ensures Named(spec, history + {e}, LiveAfter(spec, rs, live, e), Resolve(spec, rs, e), c)
  {
    hide Wins, VersionOf;
    var live', after := LiveAfter(spec, rs, live, e), Resolve(spec, rs, e);
    if Writes(spec, rs, e) && !e.op.Delete? && c in Winners(spec, rs.vers, e) {
      assert NamedBy(live', after, c, e);
    } else {
      var x :| x in history && !x.op.Delete? && Carries(spec, x, c) && NamedBy(live, rs, c, x);
      assert NamedBy(live', after, c, x);
    }
  }

  lemma RowInvariantKept(spec: TableSpec, history: set<Event>, live: set<string>, rs: RowState, e: Event)
    requires RowInvariant(spec, history, live, rs)
    ensures RowInvariant(spec, history + {e}, LiveAfter(spec, rs, live, e), Resolve(spec, rs, e))
  {
    hide Wins, VersionOf, Shape, Named;
    ShapeKept(spec, live, rs, e);
    forall c | c in Resolve(spec, rs, e).vers
      ensures Named(spec, history + {e}, LiveAfter(spec, rs, live, e), Resolve(spec, rs, e), c)
    {
      NamedKept(spec, history, live, rs, e, c);
    }
    assert BuriedBy(history + {e}, Resolve(spec, rs, e)) by {
      if Resolve(spec, rs, e).tomb.Some? && Resolve(spec, rs, e).tomb != rs.tomb {
        assert e in history + {e} && e.op.Delete?;
      }
    }
  }

  ghost function SetOf(es: seq<Event>): set<Event> {
    set e | e in es
  }

  lemma SetOfSnoc(es: seq<Event>)
    requires es != []
    ensures SetOf(es) == SetOf(es[..|es| - 1]) + {es[|es| - 1]}
  {
    assert es == es[..|es| - 1] + [es[|es| - 1]];
  }

  /** Every delivery sequence whatsoever ends in the invariant. */
  lemma {:induction false} RunKeepsInvariant(spec: TableSpec, es: seq<Event>)
    ensures RowInvariant(spec, SetOf(es), Live(spec, es), Run(spec, es))
  {
    hide RowInvariant, Resolve, LiveAfter;
    if es == [] {
      assert RowInvariant(spec, {}, {}, NOTHING) by { EmptyInvariant(spec); }
      assert SetOf(es) == {};
    } else {
      var init := es[..|es| - 1];
      RunKeepsInvariant(spec, init);
      RowInvariantKept(spec, SetOf(init), Live(spec, init), Run(spec, init), es[|es| - 1]);
      SetOfSnoc(es);
    }
  }

  lemma EmptyInvariant(spec: TableSpec)
    ensures RowInvariant(spec, {}, {}, NOTHING)
  {
  }

  /** One event: no column version goes back, nothing at or below a standing
      tombstone has any effect, and a tombstone yields only to a newer event. */
  lemma EventOnlyAdvances(spec: TableSpec, rs: RowState, e: Event)
    ensures forall c :: c in rs.vers ==> c in Resolve(spec, rs, e).vers
                                         && !Wins(rs.vers[c], Resolve(spec, rs, e).vers[c])
    ensures rs.tomb.Some? && !Wins(VersionOf(e), rs.tomb.value) ==> Resolve(spec, rs, e) == rs
    ensures rs.tomb.Some? && Resolve(spec, rs, e).tomb != rs.tomb ==> Wins(VersionOf(e), rs.tomb.value)
    ensures Writes(spec, rs, e) <==> Resolve(spec, rs, e) != rs || (e.op.Delete? && !Blocked(rs, e))
  {
    hide Wins, VersionOf;
    var after := Resolve(spec, rs, e);
    forall c | c in rs.vers
      ensures c in after.vers && !Wins(rs.vers[c], after.vers[c])
    {
      WinsIsTotalOrder(rs.vers[c], VersionOf(e), rs.vers[c]);
    }
    var won := Winners(spec, rs.vers, e);
    if Writes(spec, rs, e) && !e.op.Delete? {
      var c :| c in won;
      assert after.vers[c] == VersionOf(e);
      WinsIsTotalOrder(VersionOf(e), VersionOf(e), VersionOf(e));
    }
  }

  /** A present column holds the value its version names exactly while no
      delete has taken effect since that write, or when that value is the
      default anyway: a write that resurrects the row brings back only the
      columns it carries, though the old versions stay. */
  lemma ColumnHoldsItsWriteIff(spec: TableSpec, es: seq<Event>, c: string, e: Event)
    requires Coherent(SetOf(es)) && Run(spec, es).row.Some? && c in Run(spec, es).vers
    requires e in es && VersionOf(e) == Run(spec, es).vers[c]
    ensures c in e.payload && c in Run(spec, es).row.value && c in spec.columns
    ensures Run(spec, es).row.value[c] == e.payload[c] <==> c in Live(spec, es) || e.payload[c] == Blank(spec)[c]
  {
    hide Wins, VersionOf, Run, Live;
    RunKeepsInvariant(spec, es);
    var rs, live := Run(spec, es), Live(spec, es);
    assert Named(spec, SetOf(es), live, rs, c);
    var x :| x in SetOf(es) && !x.op.Delete? && Carries(spec, x, c) && NamedBy(live, rs, c, x);
    assert e in SetOf(es) && x == e;
  }

  // ----- Writes only: the row as a function of the set -----

  lemma {:induction false} RunOfWrites(spec: TableSpec, es: seq<Event>)
    requires WritesOnly(SetOf(es))
    ensures IsLastWrite(spec, SetOf(es), Run(spec, es))
  {
    hide IsLastWrite, Resolve;
    if es == [] {
      NothingIsLastWrite(spec);
      assert SetOf(es) == {};
    } else {
      var init := es[..|es| - 1];
      SetOfSnoc(es);
      RunOfWrites(spec, init);
      WriteKeepsLastWrite(spec, SetOf(init), Run(spec, init), es[|es| - 1]);
    }
  }

  // ----- Exactly when order does not matter -----

  /** The event can have an effect on the row. */
  predicate Touches(spec: TableSpec, e: Event) {
    e.op.Delete? || exists c :: c in e.payload && c in spec.columns
  }

  predicate HasDelete(es: seq<Event>) {
    exists e :: e in es && e.op.Delete?
  }

  /** The event that beats every other event touching the row. */
  predicate IsNewest(spec: TableSpec, es: seq<Event>, e: Event) {
    && e in es && Touches(spec, e)
    && forall x :: x in es && Touches(spec, x) && x != e ==> Wins(VersionOf(e), VersionOf(x))
  }

  predicate NewestIsDelete(spec: TableSpec, es: seq<Event>) {
    exists d :: d in es && d.op.Delete? && IsNewest(spec, es, d)
  }

  ghost predicate SameEvents(a: seq<Event>, b: seq<Event>) {
    multiset(a) == multiset(b)
  }

  /** All delivery orders show the application the same row. */
  ghost predicate OrderIndependent(spec: TableSpec, es: seq<Event>) {
    forall p :: SameEvents(p, es) ==> Run(spec, p).row == Run(spec, es).row
  }

  ghost predicate Distinct(es: seq<Event>) {
    && (forall i, j :: 0 <= i < j < |es| ==> es[i] != es[j])
    && Coherent(SetOf(es))
  }

  lemma SameEventsSameSet(a: seq<Event>, b: seq<Event>)
    requires SameEvents(a, b)
    ensures SetOf(a) == SetOf(b) && |a| == |b|
  {
    forall e
      ensures e in a <==> e in b
    {
      assert e in multiset(a) <==> e in multiset(b);
    }
    assert |multiset(a)| == |a| && |multiset(b)| == |b|;
  }

  /** Once the newest delete has arrived, the row is gone for good. */
  lemma {:induction false} NewestDeleteBuries(spec: TableSpec, es: seq<Event>, p: seq<Event>, d: Event)
    requires d.op.Delete? && IsNewest(spec, es, d)
    requires SetOf(p) <= SetOf(es)
    ensures d in p ==> Run(spec, p).row == None && Run(spec, p).tomb == Some(VersionOf(d))
    ensures d !in p && Run(spec, p).tomb.Some? ==> Wins(VersionOf(d), Run(spec, p).tomb.value)
  {
    hide Wins, VersionOf;
    if p != [] {
      var init, e := p[..|p| - 1], p[|p| - 1];
      assert p == init + [e];
      assert forall x :: x in init ==> x in SetOf(p);
      NewestDeleteBuries(spec, es, init, d);
      assert e in SetOf(p);
      WinsIsTotalOrder(VersionOf(d), VersionOf(e), VersionOf(d));
      if !e.op.Delete? && !Touches(spec, e) {
        assert Winners(spec, Run(spec, init).vers, e) == map[];
      }
    }
  }

  ghost function MovedLast(es: seq<Event>, i: nat): seq<Event>
    requires i < |es|
  {
    es[..i] + es[i + 1..] + [es[i]]
  }

  lemma MovedLastSame(es: seq<Event>, i: nat)
    requires i < |es|
    ensures SameEvents(MovedLast(es, i), es)
  {
    assert es == es[..i] + [es[i]] + es[i + 1..];
  }

  /** Whatever came before, a delete delivered last leaves no row. */
  lemma DeleteLastLeavesNothing(spec: TableSpec, init: seq<Event>, d: Event)
    requires d.op.Delete?
    ensures Run(spec, init + [d]).row == None
  {
    hide Wins, VersionOf;
    RunKeepsInvariant(spec, init);
    assert (init + [d])[..|init|] == init;
  }

  /** The newest write, delivered last, always leaves a row. */
  lemma NewestWriteLastLeavesRow(spec: TableSpec, init: seq<Event>, w: Event)
    requires !w.op.Delete? && IsNewest(spec, init + [w], w) && w !in init
    ensures Run(spec, init + [w]).row.Some?
  {
    hide Wins, VersionOf, Shape;
    var rs := Run(spec, init);
    RunKeepsInvariant(spec, init);
    assert (init + [w])[..|init|] == init;
    assert forall x :: x in init ==> x in init + [w];
    var c :| c in w.payload && c in spec.columns;
    if c in rs.vers {
      var x :| x in SetOf(init) && !x.op.Delete? && Carries(spec, x, c) && NamedBy(Live(spec, init), rs, c, x);
      assert Touches(spec, x);
    }
    assert c in Winners(spec, rs.vers, w);
    if rs.tomb.Some? {
      var d :| d in SetOf(init) && d.op.Delete? && VersionOf(d) == rs.tomb.value;
      assert Touches(spec, d);
    }
  }

  lemma {:induction false} NewestExists(spec: TableSpec, es: seq<Event>)
    requires Coherent(SetOf(es)) && exists e :: e in es && Touches(spec, e)
    ensures exists e :: IsNewest(spec, es, e)
  {
    hide Wins, VersionOf;
    var init, e := es[..|es| - 1], es[|es| - 1];
    assert es == init + [e];
    if exists x :: x in init && Touches(spec, x) {
      assert SetOf(init) <= SetOf(es);
      NewestExists(spec, init);
      var top :| IsNewest(spec, init, top);
      assert top in SetOf(es) && e in SetOf(es);
      WinsIsTotalOrder(VersionOf(e), VersionOf(top), VersionOf(e));
      if Touches(spec, e) && e != top && Wins(VersionOf(e), VersionOf(top)) {
        forall x | x in es && Touches(spec, x) && x != e
          ensures Wins(VersionOf(e), VersionOf(x))
        {
          WinsIsTotalOrder(VersionOf(e), VersionOf(top), VersionOf(x));
        }
        assert IsNewest(spec, es, e);
      } else {
        assert IsNewest(spec, es, top);
      }
    } else {
      assert IsNewest(spec, es, e);
    }
  }

  lemma OrderDoesNotMatter(spec: TableSpec, es: seq<Event>)
    requires Distinct(es) && (!HasDelete(es) || NewestIsDelete(spec, es))
    ensures OrderIndependent(spec, es)
  {
    hide Wins, VersionOf, Resolve, IsLastWrite;
    forall p | SameEvents(p, es)
      ensures Run(spec, p).row == Run(spec, es).row
    {
      SameEventsSameSet(p, es);
      if HasDelete(es) {
        var d :| d in es && d.op.Delete? && IsNewest(spec, es, d);
        assert d in SetOf(p);
        NewestDeleteBuries(spec, es, p, d);
        NewestDeleteBuries(spec, es, es, d);
      } else {
        RunOfWrites(spec, p);
        RunOfWrites(spec, es);
        LastWriteIsUnique(spec, SetOf(es), Run(spec, p), Run(spec, es));
      }
    }
  }

  /** Delivering a delete last leaves no row. */
  lemma SomeOrderLosesRow(spec: TableSpec, es: seq<Event>, d: Event) returns (p: seq<Event>)
    requires d in es && d.op.Delete?
    ensures SameEvents(p, es) && Run(spec, p).row == None
  {
    hide Run;
    var i :| 0 <= i < |es| && es[i] == d;
    p := MovedLast(es, i);
    MovedLastSame(es, i);
    DeleteLastLeavesNothing(spec, es[..i] + es[i + 1..], d);
  }

  /** Delivering the newest event last, when it is a write, leaves a row. */
  lemma SomeOrderKeepsRow(spec: TableSpec, es: seq<Event>, w: Event) returns (p: seq<Event>)
    requires Distinct(es) && IsNewest(spec, es, w) && !w.op.Delete?
    ensures SameEvents(p, es) && Run(spec, p).row.Some?
  {
    hide Run, Wins, VersionOf;
    var j :| 0 <= j < |es| && es[j] == w;
    p := MovedLast(es, j);
    MovedLastSame(es, j);
    SameEventsSameSet(p, es);
    assert forall x :: x in p ==> x in SetOf(p);
    NewestWriteLastLeavesRow(spec, es[..j] + es[j + 1..], w);
  }

  /** A delete that is not the newest event splits the replicas: one order ends
      without the row, another with it. */
  lemma OrderMatters(spec: TableSpec, es: seq<Event>)
    requires Distinct(es) && HasDelete(es) && !NewestIsDelete(spec, es)
    ensures !OrderIndependent(spec, es)
  {
    hide Run, IsNewest;
    var d :| d in es && d.op.Delete?;
    assert Touches(spec, d);
    NewestExists(spec, es);
    var w :| IsNewest(spec, es, w);
    NewestIsThere(spec, es, w);
    var gone := SomeOrderLosesRow(spec, es, d);
    var kept := SomeOrderKeepsRow(spec, es, w);
    assert Run(spec, gone).row != Run(spec, kept).row;
  }

  lemma NewestIsThere(spec: TableSpec, es: seq<Event>, w: Event)
    requires IsNewest(spec, es, w)
    ensures w in es
  {
  }

  /** The exact condition: delivery order is invisible iff the row was never
      deleted or its newest event is a delete. */
  lemma OrderIndependentIff(spec: TableSpec, es: seq<Event>)
    requires Distinct(es)
    ensures OrderIndependent(spec, es) <==> !HasDelete(es) || NewestIsDelete(spec, es)
  {
    hide OrderIndependent;
    if !HasDelete(es) || NewestIsDelete(spec, es) {
      OrderDoesNotMatter(spec, es);
    } else {
      OrderMatters(spec, es);
    }
  }

  // ----- Version-ordered delivery -----

  /** The plain effect of an event on a row, with no conflict resolution. */
  function Overwrite(spec: TableSpec, row: Option<Row>, e: Event): Option<Row> {
    if e.op.Delete? then None
    else
      var values := map c | c in e.payload && c in spec.columns :: e.payload[c];
      if values == map[] then row
      else Some((if row.Some? then row.value else Blank(spec)) + values)
  }

  function Replay(spec: TableSpec, es: seq<Event>): Option<Row> {
    if es == [] then None else Overwrite(spec, Replay(spec, es[..|es| - 1]), es[|es| - 1])
  }

  ghost predicate VersionOrdered(es: seq<Event>) {
    forall i, j :: 0 <= i < j < |es| ==> Wins(VersionOf(es[j]), VersionOf(es[i]))
  }

  /** Delivered oldest first, resolution is plain replay, deletes included. */
  lemma {:induction false} OrderedDeliveryIsReplay(spec: TableSpec, es: seq<Event>)
    requires VersionOrdered(es)
    ensures Run(spec, es).row == Replay(spec, es)
  {
    hide Wins, VersionOf;
    if es != [] {
      var init, e := es[..|es| - 1], es[|es| - 1];
      OrderedDeliveryIsReplay(spec, init);
      RunKeepsInvariant(spec, init);
      NewestBeatsAll(spec, es);
    }
  }

  lemma NewestBeatsAll(spec: TableSpec, es: seq<Event>)
    requires VersionOrdered(es) && es != []
    ensures var rs, e := Run(spec, es[..|es| - 1]), es[|es| - 1];
            !Blocked(rs, e) && Winners(spec, rs.vers, e) == map c | c in e.payload && c in spec.columns :: e.payload[c]
  {
    hide Wins, VersionOf, Shape, Resolve;
    var init, e := es[..|es| - 1], es[|es| - 1];
    var rs := Run(spec, init);
    RunKeepsInvariant(spec, init);
    forall x | x in SetOf(init)
      ensures Wins(VersionOf(e), VersionOf(x))
    {
      var i :| 0 <= i < |init| && init[i] == x;
      assert es[i] == x;
    }
    if rs.tomb.Some? {
      var d :| d in SetOf(init) && d.op.Delete? && VersionOf(d) == rs.tomb.value;
    }
    forall c | c in rs.vers
      ensures Wins(VersionOf(e), rs.vers[c])
    {
      assert Named(spec, SetOf(init), Live(spec, init), rs, c);
      var x :| x in SetOf(init) && !x.op.Delete? && Carries(spec, x, c) && NamedBy(Live(spec, init), rs, c, x);
    }
  }
}
