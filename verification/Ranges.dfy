/** The range service: FetchRange of internal/store/store.go and sendRanges of
    internal/sync/sync.go. */
module Ranges {
  import opened Changelog
  import opened Store

  // ----- Ascending lists -----

  lemma {:induction false} AscendingIsUnique(a: seq<nat>, b: seq<nat>)
    requires StrictlyAscending(a) && StrictlyAscending(b)
    requires forall x :: x in a <==> x in b
    ensures a == b
  {
    assert a != [] ==> a[0] in b;
    assert b != [] ==> b[0] in a;
    if a != [] && b != [] {
      assert a[0] == b[0];
      var a', b' := a[1..], b[1..];
      forall x
        ensures x in a' <==> x in b'
      {
        assert x in a' ==> x in a && x != a[0];
        assert x in b' ==> x in b && x != b[0];
        assert x in a && x != a[0] ==> x in a';
        assert x in b && x != b[0] ==> x in b';
      }
      AscendingIsUnique(a', b');
      assert a == [a[0]] + a' && b == [b[0]] + b';
    }
  }

  lemma AscendingConcat(a: seq<nat>, b: seq<nat>)
    requires StrictlyAscending(a) && StrictlyAscending(b)
    requires forall x, y :: x in a && y in b ==> x < y
    ensures StrictlyAscending(a + b)
  {
    forall i, j | 0 <= i < j < |a + b|
      ensures (a + b)[i] < (a + b)[j]
    {
      if i < |a| <= j {
        assert a[i] in a && b[j - |a|] in b;
      }
    }
  }

  lemma AscendingSplit(low: set<nat>, high: set<nat>)
    requires forall x, y :: x in low && y in high ==> x < y
    ensures Ascending(low + high) == Ascending(low) + Ascending(high)
  {
    hide Ascending;
    var a, b := Ascending(low), Ascending(high);
    AscendingConcat(a, b);
    forall x
      ensures x in a + b <==> x in Ascending(low + high)
    {
      assert x in a + b <==> x in a || x in b;
      assert x in low + high <==> x in low || x in high;
    }
    AscendingIsUnique(a + b, Ascending(low + high));
  }

  lemma AscendingPrefix(s: set<nat>, k: nat)
    requires 0 < k <= |Ascending(s)|
    ensures Ascending(set n | n in s && n <= Ascending(s)[k - 1]) == Ascending(s)[..k]
  {
    hide Ascending;
    var all := Ascending(s);
    var low := set n | n in s && n <= all[k - 1];
    forall x
      ensures x in all[..k] <==> x in low
    {
      PrefixMember(all, k, x);
    }
    AscendingIsUnique(all[..k], Ascending(low));
  }

  lemma PrefixMember(all: seq<nat>, k: nat, x: nat)
    requires StrictlyAscending(all) && 0 < k <= |all|
    ensures x in all[..k] <==> x in all && x <= all[k - 1]
  {
    if x in all && x <= all[k - 1] {
      var i :| 0 <= i < |all| && all[i] == x;
      assert i < k;
      assert all[..k][i] == x;
    }
  }

  // ----- FetchRange -----

  function SeqsIn(db: Db, o: Origin, from: nat, to: nat): set<nat> {
    set n | n in Present(db, o) && from <= n <= to
  }

  /** A log row as the event it encodes. */
  function EventAt(db: Db, o: Origin, n: nat): Event
    requires n in Present(db, o)
  {
    EventsOf(db, o)[n].(origin := o, originSeq := n)
  }

  function EventsAtSeqs(db: Db, o: Origin, ns: seq<nat>): (es: seq<Event>)
    requires forall n :: n in ns ==> n in Present(db, o)
    ensures |es| == |ns|
  {
    seq(|ns|, i requires 0 <= i < |ns| => assert ns[i] in ns; EventAt(db, o, ns[i]))
  }

  /** SELECT ... WHERE origin_seq BETWEEN from AND to ORDER BY origin_seq. */
  function RowsIn(db: Db, o: Origin, from: nat, to: nat): seq<Event> {
    EventsAtSeqs(db, o, Ascending(SeqsIn(db, o, from, to)))
  }

  datatype Limits = Limits(maxEvents: int, maxBytes: int, payloadBytes: Event -> nat)

  function Budget(lim: Limits, es: seq<Event>): nat {
    if es == [] then 0 else Budget(lim, es[..|es| - 1]) + lim.payloadBytes(es[|es| - 1]) + 128
  }

  predicate Full(lim: Limits, es: seq<Event>) {
    (lim.maxEvents > 0 && |es| >= lim.maxEvents) || (lim.maxBytes > 0 && Budget(lim, es) >= lim.maxBytes)
  }

  /** The shortest non-empty prefix that fills a limit, or everything. */
  ghost predicate IsChunk(lim: Limits, all: seq<Event>, es: seq<Event>) {
    && es <= all
    && (all != [] ==> es != [])
    && (es != all ==> Full(lim, es))
    && forall k :: 0 < k < |es| ==> !Full(lim, es[..k])
  }

  function PayloadBytes(lim: Limits, es: seq<Event>): nat {
    if es == [] then 0 else lim.payloadBytes(es[0]) + PayloadBytes(lim, es[1..])
  }

  /** The estimate is the payload bytes and 128 for each row. */
  lemma {:induction false} BudgetIs(lim: Limits, es: seq<Event>)
    ensures Budget(lim, es) == PayloadBytes(lim, es) + 128 * |es|
  {
    if es != [] {
      BudgetIs(lim, es[..|es| - 1]);
      PayloadBytesSnoc(lim, es[..|es| - 1], es[|es| - 1]);
      assert es == es[..|es| - 1] + [es[|es| - 1]];
    }
  }

  lemma {:induction false} PayloadBytesSnoc(lim: Limits, es: seq<Event>, e: Event)
    ensures PayloadBytes(lim, es + [e]) == PayloadBytes(lim, es) + lim.payloadBytes(e)
  {
    if es == [] {
      assert [] + [e] == [e];
    } else {
      PayloadBytesSnoc(lim, es[1..], e);
      assert (es + [e])[1..] == es[1..] + [e];
    }
  }

  /** No limit was reached before the last row of a chunk, and a chunk that does
      not hold all rows reached one. */
  lemma ChunkStops(lim: Limits, all: seq<Event>, es: seq<Event>)
    requires IsChunk(lim, all, es)
    ensures es != all ==>
              || (lim.maxEvents > 0 && |es| >= lim.maxEvents)
              || (lim.maxBytes > 0 && PayloadBytes(lim, es) + 128 * |es| >= lim.maxBytes)
    ensures forall k :: 0 < k < |es| ==>
                          && (lim.maxEvents > 0 ==> k < lim.maxEvents)
                          && (lim.maxBytes > 0 ==> PayloadBytes(lim, es[..k]) + 128 * k < lim.maxBytes)
    ensures lim.maxEvents > 0 ==> |es| <= lim.maxEvents
  {
    BudgetIs(lim, es);
    forall k | 0 < k < |es|
      ensures (lim.maxEvents > 0 ==> k < lim.maxEvents)
              && (lim.maxBytes > 0 ==> PayloadBytes(lim, es[..k]) + 128 * k < lim.maxBytes)
    {
      BudgetIs(lim, es[..k]);
      assert !Full(lim, es[..k]);
    }
    assert |es| > 1 ==> !Full(lim, es[..|es| - 1]);
  }

  predicate Collected(db: Db, o: Origin, from: nat) {
    from <= Get(db.meta.gcMarks, o)
  }

  /** No limit was reached before the last row. */
  predicate IsBounded(lim: Limits, es: seq<Event>) {
    && (lim.maxEvents > 0 ==> |es| <= lim.maxEvents)
    && (lim.maxBytes > 0 ==> forall k :: 0 < k < |es| ==> PayloadBytes(lim, es[..k]) + 128 * k < lim.maxBytes)
  }

  /** A limit was reached. */
  predicate ReachesLimit(lim: Limits, es: seq<Event>) {
    || (lim.maxEvents > 0 && |es| >= lim.maxEvents)
    || (lim.maxBytes > 0 && PayloadBytes(lim, es) + 128 * |es| >= lim.maxBytes)
  }

  lemma ChunkIsBounded(lim: Limits, all: seq<Event>, es: seq<Event>)
    requires IsChunk(lim, all, es)
    ensures IsBounded(lim, es) && (es != all ==> ReachesLimit(lim, es))
  {
    hide IsChunk;
    ChunkStops(lim, all, es);
  }

  lemma NothingIsBounded(lim: Limits)
    ensures IsBounded(lim, [])
  {
  }

  predicate IsLogRow(db: Db, o: Origin, from: nat, to: nat, e: Event) {
    && e.origin == o && from <= e.originSeq <= to && o in db.log && e.originSeq in db.log[o]
    && e == db.log[o][e.originSeq].(origin := o, originSeq := e.originSeq)
  }

  /** Exactly the log rows of the interval, in sequence order. */
  lemma RowsInAre(db: Db, o: Origin, from: nat, to: nat)
    ensures forall e :: e in RowsIn(db, o, from, to) <==> IsLogRow(db, o, from, to, e)
    ensures forall i, j :: 0 <= i < j < |RowsIn(db, o, from, to)| ==>
                             RowsIn(db, o, from, to)[i].originSeq < RowsIn(db, o, from, to)[j].originSeq
  {
    hide RowsIn;
    forall e
      ensures e in RowsIn(db, o, from, to) <==> IsLogRow(db, o, from, to, e)
    {
      if e in RowsIn(db, o, from, to) {
        RowsInComeFromLog(db, o, from, to, e);
      }
      if IsLogRow(db, o, from, to, e) {
        RowsInMembers(db, o, from, to, e.originSeq);
      }
    }
    RowsAscend(db, o, from, to);
  }

  lemma RowsAscend(db: Db, o: Origin, from: nat, to: nat)
    ensures forall i, j :: 0 <= i < j < |RowsIn(db, o, from, to)| ==>
                             RowsIn(db, o, from, to)[i].originSeq < RowsIn(db, o, from, to)[j].originSeq
  {
    var ns := Ascending(SeqsIn(db, o, from, to));
    assert forall i :: 0 <= i < |ns| ==> ns[i] in ns;
    assert forall i :: 0 <= i < |ns| ==> RowsIn(db, o, from, to)[i] == EventAt(db, o, ns[i]);
  }

  lemma ChunkIsPrefix(lim: Limits, all: seq<Event>, es: seq<Event>)
    requires IsChunk(lim, all, es)
    ensures es <= all && forall i :: 0 <= i < |es| ==> es[i] in all && es[i] == all[i]
  {
  }

  method FetchRange(db: Database, o: Origin, from: nat, to: nat, lim: Limits) returns (r: Result<seq<Event>>)
    ensures from > to ==> r == Ok([])
    ensures from <= to && Collected(db.View(), o, from) ==> r == Err(HistoryTruncated)
    ensures from <= to && !Collected(db.View(), o, from) ==>
              r.Ok? && IsChunk(lim, RowsIn(db.View(), o, from, to), r.value)
    ensures r == Err(HistoryTruncated) <==>
            from <= to && (from == 0 || (o in db.meta.gcMarks && from <= db.meta.gcMarks[o]))
    ensures r.Ok? ==> forall i :: 0 <= i < |r.value| ==> IsLogRow(db.View(), o, from, to, r.value[i])
    ensures r.Ok? ==> forall i, j :: 0 <= i < j < |r.value| ==> r.value[i].originSeq < r.value[j].originSeq
  {
    hide RowsIn, IsChunk;
    if from > to {
      return Ok([]);
    }
    var deletedThrough := if o in db.meta.gcMarks then db.meta.gcMarks[o] else 0;
    if from <= deletedThrough {
      return Err(HistoryTruncated);
    }
    var out := TakeRows(RowsIn(db.View(), o, from, to), lim);
    RowsInAre(db.View(), o, from, to);
    ChunkIsPrefix(lim, RowsIn(db.View(), o, from, to), out);
    return Ok(out);
  }

  /** Scans rows until a limit is reached. */
  method TakeRows(rows: seq<Event>, lim: Limits) returns (out: seq<Event>)
    ensures IsChunk(lim, rows, out)
  {
    hide Full, Budget;
    out := [];
    var budget := 0;
    NoBudget(lim);
    for i := 0 to |rows|
      invariant out == rows[..i] && budget == Budget(lim, out)
      invariant forall k :: 0 < k <= |out| ==> !Full(lim, rows[..k])
    {
      BudgetGrows(lim, rows, i);
      budget := budget + lim.payloadBytes(rows[i]) + 128;
      out := out + [rows[i]];
      assert out == rows[..i + 1];
      if (lim.maxEvents > 0 && |out| >= lim.maxEvents) || (lim.maxBytes > 0 && budget >= lim.maxBytes) {
        FullIs(lim, out, budget);
        break;
      }
      FullIs(lim, out, budget);
    }
    assert forall k :: 0 < k < |out| ==> out[..k] == rows[..k];
  }

  lemma FullIs(lim: Limits, es: seq<Event>, budget: nat)
    requires budget == Budget(lim, es)
    ensures Full(lim, es) <==> (lim.maxEvents > 0 && |es| >= lim.maxEvents)
                               || (lim.maxBytes > 0 && budget >= lim.maxBytes)
  {
  }

  lemma NoBudget(lim: Limits)
    ensures Budget(lim, []) == 0
  {
  }

  lemma BudgetGrows(lim: Limits, rows: seq<Event>, i: nat)
    requires i < |rows|
    ensures Budget(lim, rows[..i + 1]) == Budget(lim, rows[..i]) + lim.payloadBytes(rows[i]) + 128
  {
    assert rows[..i + 1][..i] == rows[..i];
  }

  lemma EventsAtConcat(db: Db, o: Origin, a: seq<nat>, b: seq<nat>)
    requires forall n :: n in a + b ==> n in Present(db, o)
    requires forall n :: n in a || n in b ==> n in a + b
    ensures EventsAtSeqs(db, o, a + b) == EventsAtSeqs(db, o, a) + EventsAtSeqs(db, o, b)
  {
    hide Present, EventAt;
  }

  lemma EventsAtPrefix(db: Db, o: Origin, ns: seq<nat>, k: nat)
    requires k <= |ns| && forall n :: n in ns ==> n in Present(db, o)
    ensures EventsAtSeqs(db, o, ns[..k]) == EventsAtSeqs(db, o, ns)[..k]
  {
    hide Present, EventAt;
  }

  /** A range splits at any point into its two halves. */
  lemma RowsSplit(db: Db, o: Origin, from: nat, mid: nat, to: nat)
    requires from <= mid + 1 && mid <= to
    ensures RowsIn(db, o, from, to) == RowsIn(db, o, from, mid) + RowsIn(db, o, mid + 1, to)
  {
    var low, high := SeqsIn(db, o, from, mid), SeqsIn(db, o, mid + 1, to);
    hide Ascending, EventsAtSeqs;
    assert SeqsIn(db, o, from, to) == low + high;
    AscendingSplit(low, high);
    EventsAtConcat(db, o, Ascending(low), Ascending(high));
  }

  /** A fetched chunk is everything up to its last sequence. */
  lemma ChunkEnds(db: Db, o: Origin, from: nat, to: nat, es: seq<Event>)
    requires es <= RowsIn(db, o, from, to) && es != []
    ensures from <= es[|es| - 1].originSeq <= to
    ensures RowsIn(db, o, from, es[|es| - 1].originSeq) == es
  {
    hide Ascending;
    var s := SeqsIn(db, o, from, to);
    var ns, k := Ascending(s), |es|;
    var last := ns[k - 1];
    assert last in ns;
    assert es[k - 1] == EventAt(db, o, last);
    AscendingPrefix(s, k);
    assert SeqsIn(db, o, from, last) == set n | n in s && n <= last;
    EventsAtPrefix(db, o, ns, k);
  }

  /** A chunk with all rows leaves none. */
  lemma NothingAfter(db: Db, o: Origin, from: nat, to: nat, es: seq<Event>)
    requires es != [] && es <= RowsIn(db, o, from, to)
    ensures es == RowsIn(db, o, from, to) ==> RowsIn(db, o, es[|es| - 1].originSeq + 1, to) == []
  {
    hide RowsIn;
    ChunkEnds(db, o, from, to, es);
    RowsSplit(db, o, from, es[|es| - 1].originSeq, to);
  }

  /** What a range service answers with, row by row. */
  lemma RowsInMembers(db: Db, o: Origin, from: nat, to: nat, n: nat)
    requires n in Present(db, o) && from <= n <= to
    ensures EventAt(db, o, n) in RowsIn(db, o, from, to)
  {
    var ns := Ascending(SeqsIn(db, o, from, to));
    assert n in ns;
    var i :| 0 <= i < |ns| && ns[i] == n;
    assert RowsIn(db, o, from, to)[i] == EventAt(db, o, n);
  }

  lemma RowsInComeFromLog(db: Db, o: Origin, from: nat, to: nat, e: Event)
    requires e in RowsIn(db, o, from, to)
    ensures e.originSeq in Present(db, o) && from <= e.originSeq <= to && e == EventAt(db, o, e.originSeq)
  {
    var ns := Ascending(SeqsIn(db, o, from, to));
    var i :| 0 <= i < |ns| && RowsIn(db, o, from, to)[i] == e;
    assert ns[i] in ns;
  }

  // ----- sendRanges -----

  datatype Batch = Batch(events: seq<Event>, complete: bool)

  /** A range the service answers at all. */
  predicate Valid(r: Range) {
    1 <= r.from <= r.to
  }

  /** The log rows inside the ranges, in request order. */
  function Wanted(db: Db, ranges: seq<Range>): seq<Event> {
    if ranges == [] then []
    else
      var r := ranges[|ranges| - 1];
      Wanted(db, ranges[..|ranges| - 1]) + if Valid(r) then RowsIn(db, r.origin, r.from, r.to) else []
  }

  /** Range after range. */
  lemma {:induction false} WantedAppend(db: Db, a: seq<Range>, b: seq<Range>)
    ensures Wanted(db, a + b) == Wanted(db, a) + Wanted(db, b)
  {
    hide RowsIn;
    if b == [] {
      assert a + b == a;
    } else {
      assert (a + b)[..|a + b| - 1] == a + b[..|b| - 1];
      WantedAppend(db, a, b[..|b| - 1]);
    }
  }

  /** One range asks for its log rows, unless it starts at 0 or ends before it
      starts. */
  lemma WantedOne(db: Db, r: Range)
    ensures r.from == 0 || r.to < r.from ==> Wanted(db, [r]) == []
    ensures 1 <= r.from <= r.to ==> forall e :: e in Wanted(db, [r]) <==> IsLogRow(db, r.origin, r.from, r.to, e)
    ensures forall i, j :: 0 <= i < j < |Wanted(db, [r])| ==>
                             Wanted(db, [r])[i].originSeq < Wanted(db, [r])[j].originSeq
  {
    hide RowsIn;
    RowsInAre(db, r.origin, r.from, r.to);
    assert [r][..0] == [] && Wanted(db, []) == [];
  }

  predicate ReachesBelow(gcMarks: Vector, r: Range) {
    1 <= r.from <= r.to && r.origin in gcMarks && r.from <= gcMarks[r.origin]
  }

  lemma TruncatedAre(db: Db, ranges: seq<Range>)
    ensures Truncated(db, ranges) <==> exists i :: 0 <= i < |ranges| && ReachesBelow(db.meta.gcMarks, ranges[i])
  {
    assert forall i :: 0 <= i < |ranges| ==>
                         (ReachesBelow(db.meta.gcMarks, ranges[i]) <==>
                          Valid(ranges[i]) && Collected(db, ranges[i].origin, ranges[i].from));
  }

  /** Some range reaches into collected history. */
  predicate Truncated(db: Db, ranges: seq<Range>) {
    exists i :: 0 <= i < |ranges| && Valid(ranges[i]) && Collected(db, ranges[i].origin, ranges[i].from)
  }

  function Payload(batches: seq<Batch>): seq<Event> {
    if batches == [] then [] else Payload(batches[..|batches| - 1]) + batches[|batches| - 1].events
  }

  lemma {:induction false} PayloadAppend(a: seq<Batch>, b: seq<Batch>)
    ensures Payload(a + b) == Payload(a) + Payload(b)
  {
    if b == [] {
      assert a + b == a;
    } else {
      assert (a + b)[..|a + b| - 1] == a + b[..|b| - 1];
      PayloadAppend(a, b[..|b| - 1]);
    }
  }

  /** The last sequence the range asks for is in the log. */
  predicate Covered(db: Db, r: Range) {
    Valid(r) && r.to in Present(db, r.origin)
  }

  /** The batches of one range carry its rows, none is empty, and only the last
      can be Complete: it is when the end of the range is in the log. */
  ghost predicate ServesRange(db: Db, r: Range, batches: seq<Batch>) {
    && Payload(batches) == (if Valid(r) then RowsIn(db, r.origin, r.from, r.to) else [])
    && (forall j :: 0 <= j < |batches| ==> batches[j].events != [])
    && (forall j :: 0 <= j < |batches| ==> (batches[j].complete <==> j == |batches| - 1 && Covered(db, r)))
  }

  /** Range after range, in request order. */
  ghost predicate Serves(db: Db, ranges: seq<Range>, batches: seq<Batch>)
    decreases |ranges|, 1
  {
    if ranges == [] then batches == []
    else exists k :: 0 <= k <= |batches| && ServesSplit(db, ranges, batches, k)
  }

  ghost predicate ServesSplit(db: Db, ranges: seq<Range>, batches: seq<Batch>, k: nat)
    requires ranges != [] && k <= |batches|
    decreases |ranges|, 0
  {
    && Serves(db, ranges[..|ranges| - 1], batches[..k])
    && ServesRange(db, ranges[|ranges| - 1], batches[k..])
  }

  /** The last range answered at all reaches its end. */
  predicate EndCovered(db: Db, ranges: seq<Range>) {
    if ranges == [] then false
    else if Valid(ranges[|ranges| - 1]) then Covered(db, ranges[|ranges| - 1])
    else EndCovered(db, ranges[..|ranges| - 1])
  }

  /** Every range is served; an empty Complete batch follows exactly when the
      last range answered does not reach its end, or there is none. */
  ghost predicate IsTransfer(db: Db, ranges: seq<Range>, batches: seq<Batch>) {
    if EndCovered(db, ranges) then Serves(db, ranges, batches)
    else
      && batches != [] && batches[|batches| - 1] == Batch([], true)
      && Serves(db, ranges, batches[..|batches| - 1])
  }

  lemma PayloadSnoc(batches: seq<Batch>, b: Batch)
    ensures Payload(batches + [b]) == Payload(batches) + b.events
  {
    assert (batches + [b])[..|batches|] == batches;
  }

  /** The rows of the ranges before the first truncated one were sent. */
  ghost predicate CutShortAt(db: Db, ranges: seq<Range>, batches: seq<Batch>, i: nat)
    requires i < |ranges|
  {
    && !Truncated(db, ranges[..i]) && Truncated(db, ranges[..i + 1])
    && Serves(db, ranges[..i], batches)
  }

  /** What a served request looks like from outside. */
  lemma {:induction false} ServedBatches(db: Db, ranges: seq<Range>, batches: seq<Batch>)
    requires Serves(db, ranges, batches)
    ensures Payload(batches) == Wanted(db, ranges)
    ensures forall j :: 0 <= j < |batches| ==> batches[j].events != []
    ensures EndCovered(db, ranges) ==> batches != [] && batches[|batches| - 1].complete
  {
    hide RowsIn, Present;
    if ranges != [] {
      var init, r := ranges[..|ranges| - 1], ranges[|ranges| - 1];
      var k :| 0 <= k <= |batches| && ServesSplit(db, ranges, batches, k);
      ServedBatches(db, init, batches[..k]);
      assert batches == batches[..k] + batches[k..];
      PayloadAppend(batches[..k], batches[k..]);
      forall j | 0 <= j < |batches|
        ensures batches[j].events != []
      {
        assert j < k ==> batches[j] == batches[..k][j];
        assert j >= k ==> batches[j] == batches[k..][j - k];
      }
      if Valid(r) && Covered(db, r) {
        CoveredHasRows(db, r);
        NonEmptyPayload(batches[k..]);
      } else if !Valid(r) && EndCovered(db, init) {
        NoPayload(batches[k..]);
      }
    }
  }

  lemma CoveredHasRows(db: Db, r: Range)
    requires Covered(db, r)
    ensures RowsIn(db, r.origin, r.from, r.to) != []
  {
    RowsInMembers(db, r.origin, r.from, r.to, r.to);
  }

  lemma NonEmptyPayload(batches: seq<Batch>)
    requires Payload(batches) != []
    ensures batches != []
  {
  }

  lemma NoPayload(batches: seq<Batch>)
    requires Payload(batches) == [] && forall j :: 0 <= j < |batches| ==> batches[j].events != []
    ensures batches == []
  {
  }

  /** The batches of a transfer carry exactly the wanted rows; at least one is
      sent, the last is Complete and only it may be empty. */
  lemma TransferShape(db: Db, ranges: seq<Range>, batches: seq<Batch>)
    requires IsTransfer(db, ranges, batches)
    ensures Payload(batches) == Wanted(db, ranges)
    ensures batches != [] && batches[|batches| - 1].complete
    ensures forall j :: 0 <= j < |batches| - 1 ==> batches[j].events != []
    ensures batches[|batches| - 1].events == [] <==> !EndCovered(db, ranges)
  {
    hide Wanted, Serves, EndCovered;
    if EndCovered(db, ranges) {
      ServedBatches(db, ranges, batches);
    } else {
      var init := batches[..|batches| - 1];
      ServedBatches(db, ranges, init);
      PayloadSnoc(init, Batch([], true));
      assert init + [Batch([], true)] == batches;
      forall j | 0 <= j < |batches| - 1
        ensures batches[j].events != []
      {
        assert batches[j] == init[j];
      }
    }
  }

  // ----- When an empty Complete batch follows a Complete one -----

  predicate HoldsNothing(db: Db, r: Range) {
    Valid(r) ==> RowsIn(db, r.origin, r.from, r.to) == []
  }

  /** Range i reaches its end, and the ranges after it hold nothing. */
  predicate LastToServe(db: Db, ranges: seq<Range>, i: nat)
    requires i < |ranges|
  {
    Covered(db, ranges[i]) && forall j :: i < j < |ranges| ==> HoldsNothing(db, ranges[j])
  }

  /** Some range reaches its end and is the last to hold any row. */
  ghost predicate ServedToAnEnd(db: Db, ranges: seq<Range>) {
    exists i :: 0 <= i < |ranges| && LastToServe(db, ranges, i)
  }

  /** The last batch served is Complete exactly when the last range that holds
      any row reaches its end. */
  lemma {:induction false} LastServedIsCompleteIff(db: Db, ranges: seq<Range>, batches: seq<Batch>)
    requires Serves(db, ranges, batches)
    ensures batches != [] && batches[|batches| - 1].complete <==> ServedToAnEnd(db, ranges)
  {
    hide RowsIn, Present;
    if ranges != [] {
      var last := |ranges| - 1;
      var init, r := ranges[..last], ranges[last];
      var k :| 0 <= k <= |batches| && ServesSplit(db, ranges, batches, k);
      if HoldsNothing(db, r) {
        NoPayload(batches[k..]);
        assert batches[..k] == batches;
        LastServedIsCompleteIff(db, init, batches);
        EndAmongEarlier(db, ranges);
      } else {
        NonEmptyPayload(batches[k..]);
        assert batches[|batches| - 1] == batches[k..][|batches| - k - 1];
        assert Covered(db, r) ==> LastToServe(db, ranges, last);
        assert forall i :: 0 <= i < last ==> !LastToServe(db, ranges, i);
      }
    }
  }

  lemma EndAmongEarlier(db: Db, ranges: seq<Range>)
    requires ranges != [] && HoldsNothing(db, ranges[|ranges| - 1])
    ensures ServedToAnEnd(db, ranges) <==> ServedToAnEnd(db, ranges[..|ranges| - 1])
  {
    hide RowsIn, Present;
    var last := |ranges| - 1;
    var init := ranges[..last];
    if i :| 0 <= i < |init| && LastToServe(db, init, i) {
      assert forall j :: i < j < last ==> ranges[j] == init[j];
      assert LastToServe(db, ranges, i);
    }
    if i :| 0 <= i < |ranges| && LastToServe(db, ranges, i) {
      if i == last {
        CoveredHasRows(db, ranges[last]);
        assert false;
      }
      assert LastToServe(db, init, i);
    }
  }

  ghost predicate RedundantEnd(batches: seq<Batch>) {
    |batches| >= 2 && batches[|batches| - 1] == Batch([], true) && batches[|batches| - 2].complete
  }

  /** The comment at sendRanges rules out a trailing batch after a Complete one.
      One follows exactly when the last range that holds any row reaches its
      end, yet the last range answered does not: it holds no row at all. */
  lemma RedundantEndIff(db: Db, ranges: seq<Range>, batches: seq<Batch>)
    requires IsTransfer(db, ranges, batches)
    ensures RedundantEnd(batches) <==> ServedToAnEnd(db, ranges) && !EndCovered(db, ranges)
  {
    hide Serves, EndCovered, ServedToAnEnd;
    TransferShape(db, ranges, batches);
    if !EndCovered(db, ranges) {
      LastServedIsCompleteIff(db, ranges, batches[..|batches| - 1]);
    }
  }

  // ----- Sending -----

  method SendRanges(db: Database, ranges: seq<Range>, lim: Limits) returns (batches: seq<Batch>, r: Result<()>)
    ensures !Truncated(db.View(), ranges) ==> r == Ok(()) && IsTransfer(db.View(), ranges, batches)
    ensures Truncated(db.View(), ranges) ==> r == Err(HistoryTruncated)
    ensures r.Err? ==> exists i :: 0 <= i < |ranges| && CutShortAt(db.View(), ranges, batches, i)
    ensures r.Err? <==> exists i :: 0 <= i < |ranges| && ReachesBelow(db.meta.gcMarks, ranges[i])
    ensures forall j :: 0 <= j < |batches| ==> IsBounded(lim, batches[j].events)
  {
    hide IsBounded, ReachesLimit;
    hide RowsIn, Collected, IsChunk, Payload, Truncated, Serves, ServesRange, EndCovered, Present;
    ghost var v := db.View();
    batches := [];
    var terminated := false;
    NothingServed(v, ranges);
    TruncatedAre(v, ranges);
    for i := 0 to |ranges|
      invariant !Truncated(v, ranges[..i])
      invariant Serves(v, ranges[..i], batches)
      invariant terminated == EndCovered(v, ranges[..i])
      invariant forall j :: 0 <= j < |batches| ==> IsBounded(lim, batches[j].events)
    {
      var q := ranges[i];
      OneMoreRange(v, ranges, i);
      if q.from < 1 || q.to < q.from {
        ServesOneMore(v, ranges, i, batches, []) by { NothingForInvalid(v, q); }
        assert batches + [] == batches;
        continue;
      }
      var more, ended := SendRange(db, q, lim);
      if more.Err? {
        assert CutShortAt(v, ranges, batches, i);
        return batches, Err(HistoryTruncated);
      }
      ServesOneMore(v, ranges, i, batches, more.value);
      terminated := ended;
      batches := batches + more.value;
    }
    assert ranges[..|ranges|] == ranges;
    if !terminated {
      assert (batches + [Batch([], true)])[..|batches|] == batches;
      assert IsBounded(lim, []) by { NothingIsBounded(lim); }
      batches := batches + [Batch([], true)];
    }
    r := Ok(());
  }

  lemma NothingServed(db: Db, ranges: seq<Range>)
    ensures Serves(db, ranges[..0], []) && !Truncated(db, ranges[..0]) && !EndCovered(db, ranges[..0])
  {
  }

  lemma NothingForInvalid(db: Db, r: Range)
    requires !Valid(r)
    ensures ServesRange(db, r, [])
  {
  }

  lemma ServesOneMore(db: Db, ranges: seq<Range>, i: nat, batches: seq<Batch>, more: seq<Batch>)
    requires i < |ranges| && Serves(db, ranges[..i], batches) && ServesRange(db, ranges[i], more)
    ensures Serves(db, ranges[..i + 1], batches + more)
  {
    hide ServesRange;
    var all := ranges[..i + 1];
    assert all[..i] == ranges[..i] && all[i] == ranges[i];
    assert (batches + more)[..|batches|] == batches && (batches + more)[|batches|..] == more;
    assert ServesSplit(db, all, batches + more, |batches|);
  }

  lemma OneMoreRange(db: Db, ranges: seq<Range>, i: nat)
    requires i < |ranges|
    ensures EndCovered(db, ranges[..i + 1]) ==
            if Valid(ranges[i]) then Covered(db, ranges[i]) else EndCovered(db, ranges[..i])
    ensures Truncated(db, ranges[..i + 1]) <==>
            Truncated(db, ranges[..i]) || (Valid(ranges[i]) && Collected(db, ranges[i].origin, ranges[i].from))
    ensures Truncated(db, ranges[..i + 1]) ==> Truncated(db, ranges)
  {
    hide RowsIn, Collected, Covered;
    var more := ranges[..i + 1];
    assert more[..i] == ranges[..i] && more[i] == ranges[i];
    assert Valid(more[i]) && Collected(db, more[i].origin, more[i].from) ==> Truncated(db, more);
    assert forall j :: 0 <= j < i ==> more[j] == ranges[..i][j] == ranges[j];
  }

  /** The inner loop for one range; `terminated` says its end was covered. */
  method SendRange(db: Database, q: Range, lim: Limits) returns (r: Result<seq<Batch>>, terminated: bool)
    requires Valid(q)
    ensures Collected(db.View(), q.origin, q.from) ==> r == Err(HistoryTruncated)
    ensures !Collected(db.View(), q.origin, q.from) ==> r.Ok? && ServesRange(db.View(), q, r.value)
    ensures r.Ok? ==> (terminated <==> q.to in Present(db.View(), q.origin))
    ensures r.Ok? ==> forall j :: 0 <= j < |r.value| ==> IsBounded(lim, r.value[j].events)
    ensures r.Ok? ==> forall j :: 0 <= j < |r.value| - 1 ==> ReachesLimit(lim, r.value[j].events)
  {
    hide RowsIn, Payload, Full, Present, IsBounded, ReachesLimit;
    ghost var v := db.View();
    var batches: seq<Batch> := [];
    var from := q.from;
    terminated := false;
    assert Payload(batches) == [] by { PayloadAppend([], []); assert batches + batches == batches; }
    assert RowsIn(v, q.origin, q.from, q.from - 1) == [] by { EmptyRange(v, q.origin, q.from); }
    while from <= q.to
      invariant q.from <= from <= q.to && !terminated
      invariant from > q.from ==> !Collected(v, q.origin, q.from)
      invariant Payload(batches) == RowsIn(v, q.origin, q.from, from - 1)
      invariant forall j :: 0 <= j < |batches| ==> batches[j].events != [] && !batches[j].complete
      invariant forall j :: 0 <= j < |batches| ==> IsBounded(lim, batches[j].events)
      invariant forall j :: 0 <= j < |batches| - 1 ==> ReachesLimit(lim, batches[j].events)
      invariant batches != [] && !ReachesLimit(lim, batches[|batches| - 1].events) ==>
                  RowsIn(v, q.origin, from, q.to) == []
      decreases q.to - from
    {
      var fetched := FetchRange(db, q.origin, from, q.to, lim);
      if fetched.Err? {
        return Err(HistoryTruncated), false;
      }
      var events := fetched.value;
      RowsSplit(v, q.origin, q.from, from - 1, q.to);
      if |events| == 0 {
        NoRowsNoEnd(v, q, from);
        return Ok(batches), false;
      }
      ChunkIsBounded(lim, RowsIn(v, q.origin, from, q.to), events);
      var last := events[|events| - 1].originSeq;
      ChunkEnds(v, q.origin, from, q.to, events);
      NothingAfter(v, q.origin, from, q.to, events);
      LastIsPresent(v, q.origin, from, q.to, events);
      RowsSplit(v, q.origin, q.from, from - 1, last);
      var complete := last >= q.to;
      PayloadSnoc(batches, Batch(events, complete));
      batches := batches + [Batch(events, complete)];
      terminated := complete;
      if last < from {
        assert false;
        break;
      }
      from := last + 1;
      if complete {
        break;
      }
    }
    return Ok(batches), terminated;
  }

  /** An empty fetch means the end of the range is absent. */
  lemma NoRowsNoEnd(db: Db, q: Range, from: nat)
    requires from <= q.to && RowsIn(db, q.origin, from, q.to) == []
    ensures q.to !in Present(db, q.origin)
  {
    if q.to in Present(db, q.origin) {
      RowsInMembers(db, q.origin, from, q.to, q.to);
    }
  }

  lemma LastIsPresent(db: Db, o: Origin, from: nat, to: nat, es: seq<Event>)
    requires es <= RowsIn(db, o, from, to) && es != []
    ensures es[|es| - 1].originSeq in Present(db, o)
  {
    assert es[|es| - 1] in RowsIn(db, o, from, to);
    RowsInComeFromLog(db, o, from, to, es[|es| - 1]);
  }

  lemma EmptyRange(db: Db, o: Origin, from: nat)
    requires from >= 1
    ensures RowsIn(db, o, from, from - 1) == []
  {
    assert SeqsIn(db, o, from, from - 1) == {};
  }

  // ----- There is always an answer -----

  lemma OneBatch(es: seq<Event>, complete: bool)
    ensures Payload([Batch(es, complete)]) == es
  {
    PayloadSnoc([], Batch(es, complete));
    assert [] + [Batch(es, complete)] == [Batch(es, complete)];
  }

  lemma ServiceOfOne(db: Db, r: Range) returns (batches: seq<Batch>)
    ensures ServesRange(db, r, batches)
  {
    hide RowsIn, Present;
    batches := [];
    if Valid(r) && RowsIn(db, r.origin, r.from, r.to) != [] {
      batches := [Batch(RowsIn(db, r.origin, r.from, r.to), Covered(db, r))];
      OneBatch(RowsIn(db, r.origin, r.from, r.to), Covered(db, r));
    }
  }

  lemma {:induction false} ServiceExists(db: Db, ranges: seq<Range>) returns (batches: seq<Batch>)
    ensures Serves(db, ranges, batches)
  {
    hide ServesRange;
    batches := [];
    if ranges != [] {
      var last := |ranges| - 1;
      var init := ServiceExists(db, ranges[..last]);
      var more := ServiceOfOne(db, ranges[last]);
      ServesOneMore(db, ranges, last, init, more);
      assert ranges[..last + 1] == ranges;
      batches := init + more;
    }
  }

  lemma {:induction false} CutExists(db: Db, ranges: seq<Range>)
    requires Truncated(db, ranges)
    ensures exists i :: 0 <= i < |ranges| && Truncated(db, ranges[..i + 1]) && !Truncated(db, ranges[..i])
  {
    var last := |ranges| - 1;
    var init := ranges[..last];
    if Truncated(db, init) {
      CutExists(db, init);
      var i :| 0 <= i < |init| && Truncated(db, init[..i + 1]) && !Truncated(db, init[..i]);
      assert init[..i + 1] == ranges[..i + 1] && init[..i] == ranges[..i];
    } else {
      assert ranges[..last + 1] == ranges;
    }
  }

  lemma AnswerExists(db: Db, ranges: seq<Range>) returns (sent: seq<Batch>)
    ensures !Truncated(db, ranges) ==> IsTransfer(db, ranges, sent)
    ensures Truncated(db, ranges) ==> exists i :: 0 <= i < |ranges| && CutShortAt(db, ranges, sent, i)
  {
    hide Truncated, Serves, EndCovered;
    if !Truncated(db, ranges) {
      sent := ServiceExists(db, ranges);
      if !EndCovered(db, ranges) {
        assert (sent + [Batch([], true)])[..|sent|] == sent;
        sent := sent + [Batch([], true)];
      }
    } else {
      CutExists(db, ranges);
      var i :| 0 <= i < |ranges| && Truncated(db, ranges[..i + 1]) && !Truncated(db, ranges[..i]);
      sent := ServiceExists(db, ranges[..i]);
      assert CutShortAt(db, ranges, sent, i);
    }
  }
}
