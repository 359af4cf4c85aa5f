/** Version order of internal/conflict/conflict.go. */
module Conflict {
  import opened Hlc

  /** The write that won a field or a tombstone. */
  datatype Version = Version(hlc: HLC, originId: string, originSeq: nat)

  /** Lexicographic text comparison. */
  function CompareText(a: string, b: string): (r: int)
    ensures r in {-1, 0, 1}
  {
    if a == [] then (if b == [] then 0 else -1)
    else if b == [] then 1
    else if a[0] < b[0] then -1
    else if a[0] > b[0] then 1
    else CompareText(a[1..], b[1..])
  }

  function CompareVersions(a: Version, b: Version): (r: int)
    ensures r in {-1, 0, 1}
  {
    if Compare(a.hlc, b.hlc) != 0 then Compare(a.hlc, b.hlc)
    else if CompareText(a.originId, b.originId) != 0 then CompareText(a.originId, b.originId)
    else if a.originSeq < b.originSeq then -1
    else if a.originSeq > b.originSeq then 1
    else 0
  }

  /** The incoming write supersedes the stored one; a tie does not. */
  predicate Wins(incoming: Version, stored: Version) {
    CompareVersions(incoming, stored) > 0
  }

  lemma {:induction false} TextFlip(a: string, b: string)
    ensures CompareText(a, b) == -CompareText(b, a)
    ensures CompareText(a, b) == 0 <==> a == b
  {
    if a != [] && b != [] && a[0] == b[0] {
      TextFlip(a[1..], b[1..]);
      assert a == [a[0]] + a[1..] && b == [b[0]] + b[1..];
    }
  }

  lemma {:induction false} TextTransitive(a: string, b: string, c: string)
    requires CompareText(a, b) > 0 && CompareText(b, c) > 0
    ensures CompareText(a, c) > 0
  {
    if c != [] && a[0] == b[0] == c[0] {
      TextTransitive(a[1..], b[1..], c[1..]);
    }
  }

  /** `a` ends where `b` goes on, or has the smaller character at the first
      place where they differ. */
  predicate TextLess(a: string, b: string) {
    exists k :: 0 <= k <= |a| && SplitsAt(a, b, k)
  }

  predicate SplitsAt(a: string, b: string, k: nat)
    requires k <= |a|
  {
    && k < |b| && a[..k] == b[..k]
    && (k < |a| ==> a[k] < b[k])
  }

  lemma {:induction false} CompareTextIff(a: string, b: string)
    ensures CompareText(a, b) < 0 <==> TextLess(a, b)
    ensures CompareText(a, b) > 0 <==> TextLess(b, a)
    ensures CompareText(a, b) == 0 <==> a == b
  {
    TextFlip(a, b);
    if a == [] || b == [] || a[0] != b[0] {
      FirstPlace(a, b);
      FirstPlace(b, a);
    } else {
      CompareTextIff(a[1..], b[1..]);
      SharedFirst(a, b);
      SharedFirst(b, a);
    }
  }

  lemma FirstPlace(a: string, b: string)
    requires a == [] || b == [] || a[0] != b[0]
    ensures TextLess(a, b) <==> b != [] && (a == [] || a[0] < b[0])
  {
    if b != [] && (a == [] || a[0] < b[0]) {
      assert SplitsAt(a, b, 0);
    }
    if TextLess(a, b) {
      var k :| 0 <= k <= |a| && SplitsAt(a, b, k);
      if k > 0 {
        SplitShares(a, b, k);
        assert false;
      }
    }
  }

  lemma SplitShares(a: string, b: string, k: nat)
    requires 0 < k <= |a| && SplitsAt(a, b, k)
    ensures b != [] && a[0] == b[0]
  {
    assert a[..k][0] == b[..k][0];
  }

  lemma SharedFirst(a: string, b: string)
    requires a != [] && b != [] && a[0] == b[0]
    ensures TextLess(a, b) <==> TextLess(a[1..], b[1..])
  {
    if TextLess(a, b) {
      var k :| 0 <= k <= |a| && SplitsAt(a, b, k);
      assert a[..k][1..] == a[1..][..k - 1] && b[..k][1..] == b[1..][..k - 1];
      assert SplitsAt(a[1..], b[1..], k - 1);
    }
    if TextLess(a[1..], b[1..]) {
      var k :| 0 <= k <= |a[1..]| && SplitsAt(a[1..], b[1..], k);
      assert a[..k + 1] == [a[0]] + a[1..][..k] && b[..k + 1] == [b[0]] + b[1..][..k];
      assert SplitsAt(a, b, k + 1);
    }
  }

  /** Newer time first, then the greater node ID, then the later sequence. */
  lemma WinsIff(incoming: Version, stored: Version)
    ensures Wins(incoming, stored) <==>
            || Before(stored.hlc, incoming.hlc)
            || (stored.hlc == incoming.hlc && TextLess(stored.originId, incoming.originId))
            || (stored.hlc == incoming.hlc && stored.originId == incoming.originId
                && stored.originSeq < incoming.originSeq)
  {
    CompareTextIff(incoming.originId, stored.originId);
  }

  /** `Wins` is a strict total order, so every node picks the same winner. */
  lemma WinsIsTotalOrder(a: Version, b: Version, c: Version)
    ensures !Wins(a, a)
    ensures a != b ==> Wins(a, b) || Wins(b, a)
    ensures !(Wins(a, b) && Wins(b, a))
    ensures Wins(a, b) && Wins(b, c) ==> Wins(a, c)
  {
    TextFlip(a.originId, a.originId);
    TextFlip(a.originId, b.originId);
    TextFlip(b.originId, c.originId);
    TextFlip(a.originId, c.originId);
    if CompareText(a.originId, b.originId) > 0 && CompareText(b.originId, c.originId) > 0 {
      TextTransitive(a.originId, b.originId, c.originId);
    }
  }
}
