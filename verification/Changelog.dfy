/** Events, origins and replication vectors of internal/changelog/event.go. */
module Changelog {
  import opened Hlc
  import opened Conflict

  datatype Option<+T> = None | Some(value: T)

  datatype Result<+T> = Ok(value: T) | Err(error: Error)

  datatype Error =
    | InvalidKey
    | InvalidEvent
    | RetiredIncarnation
    | HistoryTruncated
    | StaleMembership
    | PeerRejected
    | NotEmpty
    | UnexpectedMessage
    | Disconnected

  /** One event log: the node and the incarnation that produced it. */
  datatype Origin = Origin(nodeId: string, incarnationId: string)

  // ----- Canonical keys -----

  function Key(o: Origin): (key: string)
    ensures |key| == |o.nodeId| + 1 + |o.incarnationId| && key[|o.nodeId|] == ':'
    ensures key[..|o.nodeId|] == o.nodeId && key[|o.nodeId| + 1..] == o.incarnationId
  {
    o.nodeId + ":" + o.incarnationId
  }

  /** Position of the first colon, or the length when there is none. */
  function Cut(s: string): (n: nat)
    ensures n <= |s|
    ensures n < |s| ==> s[n] == ':'
    ensures ':' !in s[..n]
  {
    if s == [] || s[0] == ':' then 0 else 1 + Cut(s[1..])
  }

  function ParseKey(key: string): Result<Origin> {
    var n := Cut(key);
    if n == |key| || key[..n] == [] || key[n + 1..] == [] then Err(InvalidKey)
    else Ok(Origin(key[..n], key[n + 1..]))
  }

  predicate WellFormed(o: Origin) {
    o.nodeId != [] && o.incarnationId != [] && ':' !in o.nodeId
  }

  lemma {:induction false} CutAt(a: string, b: string)
    requires ':' !in a
    ensures Cut(a + ":" + b) == |a|
  {
    if a != [] {
      CutAt(a[1..], b);
      assert (a + ":" + b)[1..] == a[1..] + ":" + b;
    }
  }

  /** A key parses back to its origin exactly for well-formed origins; hence
      keying vectors by origin or by key is the same thing for them. */
  lemma KeyRoundTrip(o: Origin)
    ensures ParseKey(Key(o)) == Ok(o) <==> WellFormed(o)
  {
    var key := Key(o);
    if WellFormed(o) {
      CutAt(o.nodeId, o.incarnationId);
      assert key[..|o.nodeId|] == o.nodeId && key[|o.nodeId| + 1..] == o.incarnationId;
    }
  }

  /** A text is accepted exactly when it is the key of a well-formed origin. */
  lemma ParseKeyIff(key: string, o: Origin)
    ensures ParseKey(key) == Ok(o) <==> WellFormed(o) && Key(o) == key
  {
    if ParseKey(key) == Ok(o) {
      var n := Cut(key);
      assert key == key[..n] + ":" + key[n + 1..];
    }
    if WellFormed(o) && Key(o) == key {
      KeyRoundTrip(o);
    }
  }

  lemma KeyInjective(a: Origin, b: Origin)
    requires WellFormed(a) && WellFormed(b) && Key(a) == Key(b)
    ensures a == b
  {
    KeyRoundTrip(a);
    KeyRoundTrip(b);
  }

  // ----- Events -----

  datatype Operation = Insert | Update | Delete | Unknown(text: string)

  /** A decoded scalar. Only equality and the SQL NULL matter here. */
  datatype Value = Null | Scalar(text: string)

  datatype Event = Event(origin: Origin, originSeq: nat, changeId: string, table: string, rowId: string,
                         op: Operation, hlc: HLC, payload: map<string, Value>)

  predicate ValidEvent(e: Event) {
    && e.origin.nodeId != "" && e.origin.incarnationId != ""
    && e.originSeq >= 1
    && e.table != "" && e.rowId != ""
    && !e.op.Unknown?
    && (e.op.Delete? ==> |e.payload| == 0)
  }

  function VersionOf(e: Event): Version {
    Version(e.hlc, e.origin.nodeId, e.originSeq)
  }

  predicate SameIdentity(a: Event, b: Event) {
    a.origin == b.origin && a.originSeq == b.originSeq
  }

  /** A history in which an identity names one event and distinct events have
      distinct versions. */
  ghost predicate Coherent(history: set<Event>) {
    forall a, b :: a in history && b in history && (SameIdentity(a, b) || VersionOf(a) == VersionOf(b)) ==> a == b
  }

  // ----- Vectors -----

  /** Highest contiguous sequence known per origin. */
  type Vector = map<Origin, nat>

  function Get(v: Vector, o: Origin): nat {
    if o in v then v[o] else 0
  }

  function Larger(a: nat, b: nat): nat {
    if a >= b then a else b
  }

  /** Pointwise order; an absent origin reads 0. */
  ghost predicate AtMost(v: Vector, w: Vector) {
    forall o :: Get(v, o) <= Get(w, o)
  }

  /** Moves one cursor forward, never back. */
  function Raise(v: Vector, o: Origin, n: nat): Vector {
    v[o := Larger(Get(v, o), n)]
  }

  /** A missing interval, both ends inclusive. */
  datatype Range = Range(origin: Origin, from: nat, to: nat)

  predicate InRange(r: Range, o: Origin, n: nat) {
    r.origin == o && r.from <= n <= r.to
  }

  ghost predicate Requested(ranges: seq<Range>, o: Origin, n: nat) {
    exists i :: 0 <= i < |ranges| && InRange(ranges[i], o, n)
  }

  /** The ranges ask for exactly the sequences `want` covers and `have` does
      not, each origin at most once. */
  ghost predicate IsMissing(have: Vector, want: Vector, ranges: seq<Range>) {
    && (forall o, n: nat :: Requested(ranges, o, n) <==> Get(have, o) < n <= Get(want, o))
    && (forall i :: 0 <= i < |ranges| ==> 1 <= ranges[i].from <= ranges[i].to)
    && (forall i, j :: 0 <= i < j < |ranges| ==> ranges[i].origin != ranges[j].origin)
  }

  /** Sorted by key, as the source's deterministic iteration wants it. */
  predicate KeysAscend(os: seq<Origin>) {
    forall i, j :: 0 <= i < j < |os| ==> KeyAtMost(os[i], os[j])
  }

  predicate KeyAtMost(a: Origin, b: Origin) {
    CompareText(Key(a), Key(b)) <= 0
  }

  lemma KeyOrder(a: Origin, b: Origin, c: Origin)
    ensures KeyAtMost(a, b) || KeyAtMost(b, a)
    ensures KeyAtMost(a, b) && KeyAtMost(b, c) ==> KeyAtMost(a, c)
  {
    TextFlip(Key(a), Key(b));
    TextFlip(Key(b), Key(c));
    TextFlip(Key(a), Key(c));
    if CompareText(Key(c), Key(b)) > 0 && CompareText(Key(b), Key(a)) > 0 {
      TextTransitive(Key(c), Key(b), Key(a));
    }
  }

  lemma {:induction false} LeastKey(os: set<Origin>) returns (least: Origin)
    requires os != {}
    ensures least in os && forall o :: o in os ==> KeyAtMost(least, o)
  {
    hide KeyAtMost;
    least :| least in os;
    var rest := os - {least};
    KeyOrder(least, least, least);
    assert forall o :: o in os <==> o == least || o in rest;
    if rest != {} {
      var other := LeastKey(rest);
      KeyOrder(least, other, other);
      forall o | o in os
        ensures KeyAtMost(if KeyAtMost(least, other) then least else other, o)
      {
        KeyOrder(least, other, o);
      }
      least := if KeyAtMost(least, other) then least else other;
    }
  }

  /** The origins of a vector in key order. */
  method SortedOrigins(v: Vector) returns (os: seq<Origin>)
    ensures forall o :: o in os <==> o in v
    ensures forall i, j :: 0 <= i < j < |os| ==> os[i] != os[j]
    ensures forall i, j :: 0 <= i < j < |os| ==> !TextLess(Key(os[j]), Key(os[i]))
    ensures KeysAscend(os)
  {
    hide KeyAtMost, TextLess;
    os := [];
    var todo := v.Keys;
    while todo != {}
      invariant todo <= v.Keys
      invariant forall o :: o in os <==> o in v && o !in todo
      invariant forall i, j :: 0 <= i < j < |os| ==> os[i] != os[j]
      invariant KeysAscend(os)
      invariant forall o, p :: o in os && p in todo ==> KeyAtMost(o, p)
    {
      ghost var least := LeastKey(todo);
      var o :| o in todo && forall p :: p in todo ==> KeyAtMost(o, p);
      os := os + [o];
      todo := todo - {o};
    }
    forall i, j | 0 <= i < j < |os|
      ensures !TextLess(Key(os[j]), Key(os[i]))
    {
      KeyAtMostIff(os[i], os[j]);
    }
  }

  /** The first key does not come after the second. */
  lemma KeyAtMostIff(a: Origin, b: Origin)
    ensures KeyAtMost(a, b) <==> !TextLess(Key(b), Key(a))
  {
    CompareTextIff(Key(a), Key(b));
  }

  method Missing(have: Vector, want: Vector) returns (ranges: seq<Range>)
    ensures IsMissing(have, want, ranges)
    ensures forall i, j :: 0 <= i < j < |ranges| ==> !TextLess(Key(ranges[j].origin), Key(ranges[i].origin))
  {
    hide KeyAtMost, TextLess, IsMissing, Restrict, FirstOf;
    ranges := [];
    var os := SortedOrigins(want);
    NothingBefore(have, want, os);
    for i := 0 to |os|
      invariant IsMissing(have, Restrict(want, FirstOf(os, i)), ranges)
      invariant forall j :: 0 <= j < |ranges| ==> ranges[j].origin in FirstOf(os, i)
      invariant forall j, k :: 0 <= j < |ranges| && i <= k < |os| ==> KeyAtMost(ranges[j].origin, os[k])
      invariant forall j, k :: 0 <= j < k < |ranges| ==> KeyAtMost(ranges[j].origin, ranges[k].origin)
    {
      FirstOfNext(os, i);
      var o := os[i];
      assert o in want;
      AllOf(want, os);
      if want[o] > Get(have, o) {
        OneMoreMissing(have, want, FirstOf(os, i + 1), o, ranges);
        ranges := ranges + [Range(o, Get(have, o) + 1, want[o])];
      } else {
        NoMoreMissing(have, want, FirstOf(os, i + 1), o, ranges);
      }
    }
    AllOf(want, os);
    forall i, j | 0 <= i < j < |ranges|
      ensures !TextLess(Key(ranges[j].origin), Key(ranges[i].origin))
    {
      KeyAtMostIff(ranges[i].origin, ranges[j].origin);
    }
  }

  /** The first `i` of them. */
  ghost function FirstOf(os: seq<Origin>, i: nat): set<Origin>
    requires i <= |os|
  {
    set j | 0 <= j < i :: os[j]
  }

  lemma FirstOfNext(os: seq<Origin>, i: nat)
    requires i < |os| && forall j, k :: 0 <= j < k < |os| ==> os[j] != os[k]
    ensures os[i] in FirstOf(os, i + 1) && FirstOf(os, i + 1) - {os[i]} == FirstOf(os, i)
  {
  }

  lemma AllOf(v: Vector, os: seq<Origin>)
    requires forall o :: o in os <==> o in v
    ensures Restrict(v, FirstOf(os, |os|)) == v && forall i :: 0 <= i <= |os| ==> FirstOf(os, i) <= v.Keys
  {
  }

  lemma NothingBefore(have: Vector, want: Vector, os: seq<Origin>)
    ensures IsMissing(have, Restrict(want, FirstOf(os, 0)), [])
  {
    NothingMissing(have, Restrict(want, {}));
  }

  function Restrict(v: Vector, os: set<Origin>): Vector {
    map o | o in v && o in os :: v[o]
  }

  lemma NothingMissing(have: Vector, want: Vector)
    requires want == map[]
    ensures IsMissing(have, want, [])
  {
  }

  // Some answer to Missing exists for any two vectors.

  lemma {:induction false} MissingOver(have: Vector, want: Vector, todo: set<Origin>) returns (ranges: seq<Range>)
    requires todo <= want.Keys
    ensures forall i :: 0 <= i < |ranges| ==> ranges[i].origin in todo
    ensures IsMissing(have, Restrict(want, todo), ranges)
  {
    if todo == {} {
      ranges := [];
    } else {
      var o :| o in todo;
      ranges := MissingOver(have, want, todo - {o});
      if want[o] > Get(have, o) {
        OneMoreMissing(have, want, todo, o, ranges);
        ranges := ranges + [Range(o, Get(have, o) + 1, want[o])];
      } else {
        NoMoreMissing(have, want, todo, o, ranges);
      }
    }
  }

  lemma NoMoreMissing(have: Vector, want: Vector, todo: set<Origin>, o: Origin, ranges: seq<Range>)
    requires todo <= want.Keys && o in todo && want[o] <= Get(have, o)
    requires IsMissing(have, Restrict(want, todo - {o}), ranges)
    ensures IsMissing(have, Restrict(want, todo), ranges)
  {
    forall p: Origin, n: nat
      ensures Requested(ranges, p, n) <==> Get(have, p) < n <= Get(Restrict(want, todo), p)
    {
      assert p != o ==> Get(Restrict(want, todo), p) == Get(Restrict(want, todo - {o}), p);
    }
  }

  lemma OneMoreMissing(have: Vector, want: Vector, todo: set<Origin>, o: Origin, ranges: seq<Range>)
    requires todo <= want.Keys && o in todo && want[o] > Get(have, o)
    requires forall i :: 0 <= i < |ranges| ==> ranges[i].origin in todo - {o}
    requires IsMissing(have, Restrict(want, todo - {o}), ranges)
    ensures IsMissing(have, Restrict(want, todo), ranges + [Range(o, Get(have, o) + 1, want[o])])
  {
    var r := Range(o, Get(have, o) + 1, want[o]);
    var more := ranges + [r];
    forall p: Origin, n: nat
      ensures Requested(more, p, n) <==> Requested(ranges, p, n) || InRange(r, p, n)
    {
      if Requested(ranges, p, n) {
        var i :| 0 <= i < |ranges| && InRange(ranges[i], p, n);
        assert InRange(more[i], p, n);
      }
      assert more[|ranges|] == r;
    }
    forall p: Origin, n: nat
      ensures Requested(more, p, n) <==> Get(have, p) < n <= Get(Restrict(want, todo), p)
    {
      assert Requested(ranges, p, n) <==> Get(have, p) < n <= Get(Restrict(want, todo - {o}), p);
      assert p != o ==> Get(Restrict(want, todo), p) == Get(Restrict(want, todo - {o}), p);
    }
  }

  lemma MissingExists(have: Vector, want: Vector) returns (ranges: seq<Range>)
    ensures IsMissing(have, want, ranges)
  {
    ranges := MissingOver(have, want, want.Keys);
    assert Restrict(want, want.Keys) == want;
  }

  /** `m` is the least entry any of the vectors has for `o`. */
  ghost predicate IsLeastAt(vectors: seq<Vector>, o: Origin, m: nat) {
    && (forall i :: 0 <= i < |vectors| ==> m <= Get(vectors[i], o))
    && (exists i :: 0 <= i < |vectors| && m == Get(vectors[i], o))
  }

  method Min(vectors: seq<Vector>) returns (out: Vector)
    ensures forall o :: o in out <==> exists i :: 0 <= i < |vectors| && o in vectors[i]
    ensures forall o :: o in out ==> IsLeastAt(vectors, o, out[o])
  {
    var keys: set<Origin> := {};
    for i := 0 to |vectors|
      invariant forall o :: o in keys <==> exists j :: 0 <= j < i && o in vectors[j]
    {
      keys := keys + vectors[i].Keys;
    }
    out := map[];
    var todo := keys;
    while todo != {}
      invariant todo <= keys && out.Keys == keys - todo
      invariant forall o :: o in out ==> IsLeastAt(vectors, o, out[o])
    {
      var o :| o in todo;
      var least, first := 0, true;
      for i := 0 to |vectors|
        invariant first <==> i == 0
        invariant !first ==> IsLeastAt(vectors[..i], o, least)
      {
        var n := Get(vectors[i], o);
        assert vectors[..i + 1][..i] == vectors[..i] && vectors[..i + 1][i] == vectors[i];
        if first || n < least {
          least, first := n, false;
        }
      }
      assert vectors[..|vectors|] == vectors;
      out := out[o := least];
      todo := todo - {o};
    }
  }
}
