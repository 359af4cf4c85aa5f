/** Local writes carry no field version and no tombstone
    (internal/schema/schema.go), so the node that makes one and a replica that
    receives it resolve a later event differently. */
module LocalWrites {
  import opened Hlc
  import opened Conflict
  import opened Changelog
  import opened Store
  import opened Resolver
  import RowHistory
  import opened Capture

  /** A row state every replica can share: a standing row has no tombstone. */
  ghost predicate Shared(spec: TableSpec, rs: RowState) {
    && rs.vers.Keys <= spec.columns
    && (rs.row.Some? ==> rs.tomb.None? && rs.row.value.Keys == spec.columns)
  }

  /** Every replica's row is such a state, whatever was delivered. */
  lemma ReachableIsShared(spec: TableSpec, es: seq<Event>)
    ensures Shared(spec, Run(spec, es))
  {
    hide Run, RowHistory.Live;
    RowHistory.RunKeepsInvariant(spec, es);
  }

  /** The statement succeeds on the row and its trigger logs `w`. */
  predicate Logs(spec: TableSpec, rs: RowState, c: Change, w: Event) {
    && RowAfter(spec, rs.row, c).Some?
    && Logged(spec, rs.row, c) == Some((w.op, w.payload))
  }

  /** The writing node: the statement, then the arrival of `e`. */
  function AtWriter(spec: TableSpec, rs: RowState, c: Change, e: Event): RowState
    requires RowAfter(spec, rs.row, c).Some?
  {
    Resolve(spec, rs.(row := RowAfter(spec, rs.row, c).value), e)
  }

  /** A replica: both events arrive. */
  function AtReplica(spec: TableSpec, rs: RowState, w: Event, e: Event): RowState {
    Resolve(spec, Resolve(spec, rs, w), e)
  }

  /** The event beats what the column has on record. */
  predicate Beats(vers: map<string, Version>, e: Event, c: string) {
    c !in vers || Wins(VersionOf(e), vers[c])
  }

  predicate Takes(spec: TableSpec, vers: map<string, Version>, e: Event, c: string) {
    Carries(spec, e, c) && Beats(vers, e, c)
  }

  // ----- One column of one write -----

  lemma WinnersAre(spec: TableSpec, vers: map<string, Version>, e: Event, c: string)
    ensures c in Winners(spec, vers, e) <==> Takes(spec, vers, e, c)
    ensures c in Winners(spec, vers, e) ==> Winners(spec, vers, e)[c] == e.payload[c]
  {
  }

  /** A column of a standing row after an unblocked write. */
  lemma ColumnAfterWrite(spec: TableSpec, rs: RowState, e: Event, c: string)
    requires rs.row.Some? && rs.row.value.Keys == spec.columns && !Blocked(rs, e) && !e.op.Delete? && c in spec.columns
    ensures var after := Resolve(spec, rs, e);
            && after.row.Some? && after.row.value.Keys == spec.columns
            && after.row.value[c] == (if Takes(spec, rs.vers, e, c) then e.payload[c] else rs.row.value[c])
            && (c in after.vers <==> c in rs.vers || Takes(spec, rs.vers, e, c))
            && (Takes(spec, rs.vers, e, c) ==> after.vers[c] == VersionOf(e))
            && (!Takes(spec, rs.vers, e, c) && c in rs.vers ==> after.vers[c] == rs.vers[c])
  {
    hide Wins, VersionOf;
    WinnersAre(spec, rs.vers, e, c);
  }

  /** A missing row after an unblocked write. */
  lemma RowAfterWrite(spec: TableSpec, rs: RowState, e: Event)
    requires rs.row.None? && !Blocked(rs, e) && !e.op.Delete?
    ensures var after := Resolve(spec, rs, e);
            var won := Winners(spec, rs.vers, e);
            && (won == map[] ==> after == rs)
            && (won != map[] ==>
                  after.row == Some(Blank(spec) + won) && after.tomb.None?
                  && after.vers == rs.vers + Stamped(won, VersionOf(e)))
  {
    hide Wins, VersionOf;
  }

  // ----- Updates -----

  /** Column c of a local update `w`. */
  predicate UpdateSurvives(spec: TableSpec, rs: RowState, w: Event, e: Event, c: string)
    requires c in w.payload
  {
    if Beats(rs.vers, w, c)
    then !Takes(spec, rs.vers, e, c) || Wins(VersionOf(e), VersionOf(w)) || e.payload[c] == w.payload[c]
    else Takes(spec, rs.vers, e, c)
  }

  lemma UpdateColumnIff(spec: TableSpec, rs: RowState, u: Change, w: Event, e: Event, c: string)
    requires Shared(spec, rs) && u.UpdateRow? && Logs(spec, rs, u, w) && !e.op.Delete? && c in spec.columns
    ensures var writer, replica := AtWriter(spec, rs, u, e), AtReplica(spec, rs, w, e);
            && writer.row.Some? && replica.row.Some? && c in writer.row.value && c in replica.row.value
            && writer.row.value.Keys == replica.row.value.Keys == spec.columns
            && (writer.row.value[c] == replica.row.value[c] <==> (c in w.payload ==> UpdateSurvives(spec, rs, w, e, c)))
  {
    hide Wins, VersionOf, Resolve;
    var written := rs.(row := RowAfter(spec, rs.row, u).value);
    WinsIsTotalOrder(VersionOf(e), VersionOf(w), if c in rs.vers then rs.vers[c] else VersionOf(w));
    ColumnAfterWrite(spec, written, e, c);
    ColumnAfterWrite(spec, rs, w, c);
    UnblockedStays(spec, rs, w);
    ColumnAfterWrite(spec, Resolve(spec, rs, w), e, c);
  }

  lemma UnblockedStays(spec: TableSpec, rs: RowState, w: Event)
    requires rs.tomb.None? && !w.op.Delete?
    ensures Resolve(spec, rs, w).tomb.None?
  {
    hide Wins, VersionOf;
  }

  /** After a local update both agree on the whole row exactly when the later
      event is a delete or every logged column survives it. */
  lemma LocalUpdateSurvivesIff(spec: TableSpec, rs: RowState, u: Change, w: Event, e: Event)
    requires Shared(spec, rs) && u.UpdateRow? && Logs(spec, rs, u, w)
    ensures AtWriter(spec, rs, u, e).row == AtReplica(spec, rs, w, e).row <==>
            e.op.Delete? || forall c :: c in w.payload ==> UpdateSurvives(spec, rs, w, e, c)
  {
    hide UpdateSurvives, Resolve, Shared;
    if e.op.Delete? {
      StandingRowGoes(spec, rs, u, w, e);
    } else {
      UpdateShape(spec, rs, u, w, e);
      var writer, replica := AtWriter(spec, rs, u, e).row.value, AtReplica(spec, rs, w, e).row.value;
      forall c | c in spec.columns
        ensures writer[c] == replica[c] <==> (c in w.payload ==> UpdateSurvives(spec, rs, w, e, c))
      {
        UpdateColumnIff(spec, rs, u, w, e, c);
      }
      SameRowIff(spec, writer, replica);
    }
  }

  lemma SameRowIff(spec: TableSpec, a: Row, b: Row)
    requires a.Keys == b.Keys == spec.columns
    ensures a == b <==> forall c :: c in spec.columns ==> a[c] == b[c]
  {
  }

  lemma StandingRowGoes(spec: TableSpec, rs: RowState, u: Change, w: Event, e: Event)
    requires Shared(spec, rs) && u.UpdateRow? && Logs(spec, rs, u, w) && e.op.Delete?
    ensures AtWriter(spec, rs, u, e).row == AtReplica(spec, rs, w, e).row == None
  {
    hide Wins, VersionOf;
    UnblockedStays(spec, rs, w);
  }

  /** Both keep a full row, and a logged column is a registered one. */
  lemma UpdateShape(spec: TableSpec, rs: RowState, u: Change, w: Event, e: Event)
    requires Shared(spec, rs) && u.UpdateRow? && Logs(spec, rs, u, w) && !e.op.Delete?
    ensures AtWriter(spec, rs, u, e).row.Some? && AtReplica(spec, rs, w, e).row.Some?
    ensures AtWriter(spec, rs, u, e).row.value.Keys == AtReplica(spec, rs, w, e).row.value.Keys == spec.columns
    ensures w.payload.Keys <= spec.columns
  {
    hide Resolve;
    assert w.payload != map[];
    var c :| c in w.payload;
    assert c in spec.columns;
    UpdateColumnIff(spec, rs, u, w, e, c);
  }

  // ----- Deletes -----

  /** After a local delete both agree exactly when the later event is a delete
      too, is newer than the local one, or beats nothing on record. Otherwise
      the row comes back at the node that deleted it. */
  lemma LocalDeleteSurvivesIff(spec: TableSpec, rs: RowState, d: Change, w: Event, e: Event)
    requires Shared(spec, rs) && d.DeleteRow? && Logs(spec, rs, d, w)
    ensures AtWriter(spec, rs, d, e).row == AtReplica(spec, rs, w, e).row <==>
            || e.op.Delete?
            || Wins(VersionOf(e), VersionOf(w))
            || Winners(spec, rs.vers, e) == map[]
    ensures AtWriter(spec, rs, d, e).row != AtReplica(spec, rs, w, e).row ==>
              AtWriter(spec, rs, d, e).row.Some? && AtReplica(spec, rs, w, e).row.None?
  {
    hide Wins, VersionOf;
    var gone := RowState(None, rs.vers, Some(VersionOf(w)));
    assert Resolve(spec, rs, w) == gone;
    if !e.op.Delete? {
      RowAfterWrite(spec, rs.(row := None), e);
      if Wins(VersionOf(e), VersionOf(w)) {
        RowAfterWrite(spec, gone, e);
      }
    }
  }

  // ----- Inserts -----

  /** Column c of a local insert that a replica takes, at least in part. */
  predicate InsertSurvives(spec: TableSpec, rs: RowState, w: Event, e: Event, c: string)
    requires c in w.payload && c in Blank(spec)
  {
    var takes := !Blocked(rs, e) && Takes(spec, rs.vers, e, c);
    if Beats(rs.vers, w, c)
    then !takes || Wins(VersionOf(e), VersionOf(w)) || e.payload[c] == w.payload[c]
    else takes || w.payload[c] == if Takes(spec, rs.vers, e, c) then e.payload[c] else Blank(spec)[c]
  }

  /** A local insert no replica takes, under a newer tombstone or newer
      versions: only `e` can make the row everywhere. */
  predicate UntakenInsertSurvives(spec: TableSpec, rs: RowState, w: Event, e: Event) {
    && !Blocked(rs, e) && Winners(spec, rs.vers, e) != map[]
    && forall c :: c in spec.columns && c in w.payload ==>
                     Takes(spec, rs.vers, e, c) || w.payload[c] == Blank(spec)[c]
  }

  /** The writer's side of a local insert. */
  lemma InsertAtWriter(spec: TableSpec, rs: RowState, i: Change, w: Event, e: Event, c: string)
    requires Shared(spec, rs) && i.InsertRow? && Logs(spec, rs, i, w) && !e.op.Delete? && c in spec.columns
    ensures w.payload.Keys == spec.columns && rs.row.None?
    ensures var writer := AtWriter(spec, rs, i, e);
            && writer.row.Some? && writer.row.value.Keys == spec.columns
            && writer.row.value[c] ==
               if !Blocked(rs, e) && Takes(spec, rs.vers, e, c) then e.payload[c] else w.payload[c]
  {
    hide Wins, VersionOf, Resolve;
    var written := rs.(row := Some(w.payload));
    assert w.payload.Keys == spec.columns;
    if Blocked(rs, e) {
      BlockedChangesNothing(spec, written, e);
    } else {
      ColumnAfterWrite(spec, written, e, c);
    }
  }

  lemma BlockedChangesNothing(spec: TableSpec, rs: RowState, e: Event)
    requires Blocked(rs, e)
    ensures Resolve(spec, rs, e) == rs
  {
  }

  /** The replica's side when it takes the insert. */
  lemma InsertAtReplica(spec: TableSpec, rs: RowState, i: Change, w: Event, e: Event, c: string)
    requires Shared(spec, rs) && i.InsertRow? && Logs(spec, rs, i, w) && !e.op.Delete? && c in spec.columns
    requires Writes(spec, rs, w) && w.payload.Keys == spec.columns && rs.row.None?
    ensures var replica := AtReplica(spec, rs, w, e);
            && replica.row.Some? && replica.row.value.Keys == spec.columns
            && replica.row.value[c] ==
               if Beats(rs.vers, w, c)
               then (if Carries(spec, e, c) && Wins(VersionOf(e), VersionOf(w)) then e.payload[c] else w.payload[c])
               else (if Takes(spec, rs.vers, e, c) then e.payload[c] else Blank(spec)[c])
  {
    hide Wins, VersionOf, Resolve;
    var taken := Resolve(spec, rs, w);
    RowAfterWrite(spec, rs, w);
    WinnersAre(spec, rs.vers, w, c);
    assert taken.row.value.Keys == spec.columns;
    ColumnAfterWrite(spec, taken, e, c);
  }

  lemma InsertColumnIff(spec: TableSpec, rs: RowState, i: Change, w: Event, e: Event, c: string)
    requires Shared(spec, rs) && i.InsertRow? && Logs(spec, rs, i, w) && !e.op.Delete? && c in spec.columns
    requires Writes(spec, rs, w)
    ensures var writer, replica := AtWriter(spec, rs, i, e), AtReplica(spec, rs, w, e);
            && writer.row.Some? && replica.row.Some? && c in w.payload
            && writer.row.value.Keys == replica.row.value.Keys == spec.columns
            && (writer.row.value[c] == replica.row.value[c] <==> InsertSurvives(spec, rs, w, e, c))
  {
    hide Wins, VersionOf, Resolve, Logs, Shared;
    InsertAtWriter(spec, rs, i, w, e, c);
    InsertAtReplica(spec, rs, i, w, e, c);
    WinsIsTotalOrder(VersionOf(e), VersionOf(w), if c in rs.vers then rs.vers[c] else VersionOf(w));
    WinsIsTotalOrder(VersionOf(e), VersionOf(w), if rs.tomb.Some? then rs.tomb.value else VersionOf(w));
  }

  /** A delete removes the inserted row at both, unless the tombstone the insert
      slipped under blocks it. */
  lemma InsertThenDeleteIff(spec: TableSpec, rs: RowState, i: Change, w: Event, e: Event)
    requires Shared(spec, rs) && i.InsertRow? && Logs(spec, rs, i, w) && e.op.Delete?
    ensures AtWriter(spec, rs, i, e).row == AtReplica(spec, rs, w, e).row <==> !Blocked(rs, e)
  {
    hide Wins, VersionOf;
    WinsIsTotalOrder(VersionOf(e), VersionOf(w), if rs.tomb.Some? then rs.tomb.value else VersionOf(w));
    if !Blocked(rs, w) {
      RowAfterWrite(spec, rs, w);
    }
  }

  lemma UntakenInsertIff(spec: TableSpec, rs: RowState, i: Change, w: Event, e: Event)
    requires Shared(spec, rs) && i.InsertRow? && Logs(spec, rs, i, w) && !e.op.Delete? && !Writes(spec, rs, w)
    ensures AtWriter(spec, rs, i, e).row == AtReplica(spec, rs, w, e).row <==> UntakenInsertSurvives(spec, rs, w, e)
  {
    hide Wins, VersionOf;
    assert Resolve(spec, rs, w) == rs;
    var written := rs.(row := Some(w.payload));
    var won := Winners(spec, rs.vers, e);
    assert w.payload.Keys == spec.columns;
    if !Blocked(rs, e) && won != map[] {
      assert AtReplica(spec, rs, w, e).row == Some(Blank(spec) + won);
      assert AtWriter(spec, rs, i, e).row == Some(w.payload + won);
      forall c | c in spec.columns
        ensures c in won <==> Takes(spec, rs.vers, e, c)
        ensures c in won ==> (w.payload + won)[c] == (Blank(spec) + won)[c]
        ensures c !in won ==> (w.payload + won)[c] == w.payload[c] && (Blank(spec) + won)[c] == Blank(spec)[c]
      {
      }
      if UntakenInsertSurvives(spec, rs, w, e) {
        assert w.payload + won == Blank(spec) + won;
      }
    }
  }

  lemma TakenInsertIff(spec: TableSpec, rs: RowState, i: Change, w: Event, e: Event)
    requires Shared(spec, rs) && i.InsertRow? && Logs(spec, rs, i, w) && !e.op.Delete? && Writes(spec, rs, w)
    ensures AtWriter(spec, rs, i, e).row == AtReplica(spec, rs, w, e).row <==>
            forall c :: c in spec.columns && c in w.payload ==> InsertSurvives(spec, rs, w, e, c)
  {
    hide InsertSurvives, Resolve, Shared, Wins, VersionOf;
    var any :| any in Winners(spec, rs.vers, w);
    InsertColumnIff(spec, rs, i, w, e, any);
    var writer, replica := AtWriter(spec, rs, i, e).row.value, AtReplica(spec, rs, w, e).row.value;
    forall c | c in spec.columns
      ensures c in w.payload && (writer[c] == replica[c] <==> InsertSurvives(spec, rs, w, e, c))
    {
      InsertColumnIff(spec, rs, i, w, e, c);
    }
    SameRowIff(spec, writer, replica);
  }

  // ----- All three -----

  /** Exactly when the node that made a local write and a replica that resolved
      it show the same row once `e` has arrived at both. */
  predicate LocalWriteSurvives(spec: TableSpec, rs: RowState, c: Change, w: Event, e: Event) {
    match c
    case UpdateRow(_, _, _) =>
      e.op.Delete? || forall x :: x in w.payload ==> UpdateSurvives(spec, rs, w, e, x)
    case DeleteRow(_) =>
      e.op.Delete? || Wins(VersionOf(e), VersionOf(w)) || Winners(spec, rs.vers, e) == map[]
    case InsertRow(_, _) =>
      if e.op.Delete? then !Blocked(rs, e)
      else if Writes(spec, rs, w) then
        forall x :: x in spec.columns && x in w.payload ==> InsertSurvives(spec, rs, w, e, x)
      else UntakenInsertSurvives(spec, rs, w, e)
  }

  lemma LocalWriteSurvivesIff(spec: TableSpec, rs: RowState, c: Change, w: Event, e: Event)
    requires Shared(spec, rs) && Logs(spec, rs, c, w)
    ensures AtWriter(spec, rs, c, e).row == AtReplica(spec, rs, w, e).row <==> LocalWriteSurvives(spec, rs, c, w, e)
  {
    hide UpdateSurvives, InsertSurvives, UntakenInsertSurvives, Resolve, Shared, Logs, Wins, VersionOf, Writes, Blocked;
    match c
    case UpdateRow(_, _, _) => LocalUpdateSurvivesIff(spec, rs, c, w, e);
    case DeleteRow(_) => LocalDeleteSurvivesIff(spec, rs, c, w, e);
    case InsertRow(_, _) =>
      if e.op.Delete? {
        InsertThenDeleteIff(spec, rs, c, w, e);
      } else if Writes(spec, rs, w) {
        TakenInsertIff(spec, rs, c, w, e);
      } else {
        UntakenInsertIff(spec, rs, c, w, e);
      }
  }

  // ----- Writes stamped past their row -----

  /** The write is stamped past every version and tombstone of the row. */
  predicate IsPast(rs: RowState, h: HLC) {
    && (forall c :: c in rs.vers ==> Before(rs.vers[c].hlc, h))
    && (rs.tomb.Some? ==> Before(rs.tomb.value.hlc, h))
  }

  lemma PastBeats(rs: RowState, w: Event)
    requires IsPast(rs, w.hlc)
    ensures !Blocked(rs, w) && forall c :: Beats(rs.vers, w, c)
  {
  }

  /** Replicas then take the whole write, and a later event makes a difference
      only where it is older than the write and beats what stood before it. */
  lemma PastWriteSurvivesIff(spec: TableSpec, rs: RowState, c: Change, w: Event, e: Event)
    requires Shared(spec, rs) && Logs(spec, rs, c, w) && IsPast(rs, w.hlc)
    ensures AtWriter(spec, rs, c, e).row == AtReplica(spec, rs, w, e).row <==>
            match c
            case DeleteRow(_) => e.op.Delete? || Wins(VersionOf(e), VersionOf(w)) || Winners(spec, rs.vers, e) == map[]
            case UpdateRow(_, _, _) =>
              e.op.Delete? || forall x :: x in w.payload ==> Agrees(spec, rs, w, e, x)
            case InsertRow(_, _) =>
              if e.op.Delete? then !Blocked(rs, e)
              else spec.columns != {} && (Blocked(rs, e) || forall x :: x in w.payload ==> Agrees(spec, rs, w, e, x))
  {
    hide Resolve, Shared, Wins, VersionOf, Blocked, Beats, Logged, RowAfter;
    PastBeats(rs, w);
    LocalWriteSurvivesIff(spec, rs, c, w, e);
    LoggedColumns(spec, rs, c, w);
    if c.InsertRow? {
      PastWrites(spec, rs, w, e);
    }
  }

  lemma PastWrites(spec: TableSpec, rs: RowState, w: Event, e: Event)
    requires IsPast(rs, w.hlc) && w.payload.Keys == spec.columns && !w.op.Delete?
    ensures Writes(spec, rs, w) <==> spec.columns != {}
    ensures spec.columns == {} ==> Winners(spec, rs.vers, e) == map[]
  {
    hide Wins, VersionOf;
    PastBeats(rs, w);
    forall c
      ensures c in Winners(spec, rs.vers, w) <==> c in spec.columns
    {
      assert Beats(rs.vers, w, c);
      WinnersAre(spec, rs.vers, w, c);
    }
    assert spec.columns != {} ==> exists c :: c in spec.columns;
  }

  /** The event does not take the column, is newer than the write, or brings
      the same value. */
  predicate Agrees(spec: TableSpec, rs: RowState, w: Event, e: Event, x: string)
    requires x in w.payload
  {
    !Takes(spec, rs.vers, e, x) || Wins(VersionOf(e), VersionOf(w)) || e.payload[x] == w.payload[x]
  }

  lemma LoggedColumns(spec: TableSpec, rs: RowState, c: Change, w: Event)
    requires Shared(spec, rs) && Logs(spec, rs, c, w)
    ensures w.payload.Keys <= spec.columns
    ensures c.InsertRow? ==> w.payload.Keys == spec.columns
    ensures c.UpdateRow? ==> w.payload != map[]
    ensures w.op == match c case InsertRow(_, _) => Insert case UpdateRow(_, _, _) => Update case DeleteRow(_) => Delete
  {
  }
}
