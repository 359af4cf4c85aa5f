/** Contiguous cursors of internal/store/progress.go: the windowed gap scan
    refines "the largest N with everything up to N present". */
module Progress {
  import opened Changelog
  import opened Store

  const SCAN_WINDOW: nat := 4096

  /** `n` is the end of the unbroken run of sequences that starts after `cursor`. */
  ghost predicate IsContiguousEnd(present: set<nat>, cursor: nat, n: nat) {
    && cursor <= n
    && (forall k :: cursor < k <= n ==> k in present)
    && n + 1 !in present
  }

  function ContiguousEnd(present: set<nat>, cursor: nat): (n: nat)
    ensures IsContiguousEnd(present, cursor, n)
    decreases set k | k in present && cursor < k
  {
    if cursor + 1 in present then
      ghost var above := set k | k in present && cursor < k;
      assert cursor + 1 in above;
      ContiguousEnd(present, cursor + 1)
    else cursor
  }

  lemma {:induction false} ContiguousEndIsUnique(present: set<nat>, cursor: nat, n: nat)
    requires IsContiguousEnd(present, cursor, n)
    ensures n == ContiguousEnd(present, cursor)
  {
    var m := ContiguousEnd(present, cursor);
    assert m < n ==> m + 1 in present;
    assert n < m ==> n + 1 in present;
  }

  /** SELECT origin_seq ... WHERE origin_seq > cursor ORDER BY origin_seq LIMIT window. */
  function ReadWindow(present: set<nat>, cursor: nat, window: nat): seq<nat> {
    var all := Ascending(set k | k in present && cursor < k);
    if |all| <= window then all else all[..window]
  }

  /** The consecutive prefix of a window is in the log. */
  lemma WindowPrefixPresent(present: set<nat>, cursor: nat, window: nat, count: nat)
    requires count <= |ReadWindow(present, cursor, window)|
    requires forall i :: 0 <= i < count ==> ReadWindow(present, cursor, window)[i] == cursor + 1 + i
    ensures forall k :: cursor < k <= cursor + count ==> k in present
  {
    var all := Ascending(set k | k in present && cursor < k);
    forall k | cursor < k <= cursor + count
      ensures k in present
    {
      assert ReadWindow(present, cursor, window)[k - cursor - 1] == all[k - cursor - 1];
      assert all[k - cursor - 1] in all;
    }
  }

  /** In a list that starts at a lower bound and goes up by one `count` times,
      the next number can only sit at index `count`. */
  lemma NextSitsAtCount(all: seq<nat>, cursor: nat, count: nat)
    requires StrictlyAscending(all) && count <= |all|
    requires forall x :: x in all ==> cursor < x
    requires forall i :: 0 <= i < count ==> all[i] == cursor + 1 + i
    requires cursor + count + 1 in all
    ensures count < |all| && all[count] == cursor + count + 1
  {
    var i :| 0 <= i < |all| && all[i] == cursor + count + 1;
    assert count > 0 ==> all[count - 1] == cursor + count;
    assert i >= count;
    assert all[count] in all;
  }

  /** Once the prefix stops short of the window, the next sequence is absent. */
  lemma WindowPrefixStops(present: set<nat>, cursor: nat, window: nat, count: nat)
    requires count <= |ReadWindow(present, cursor, window)|
    requires forall i :: 0 <= i < count ==> ReadWindow(present, cursor, window)[i] == cursor + 1 + i
    requires if count < |ReadWindow(present, cursor, window)|
             then ReadWindow(present, cursor, window)[count] != cursor + 1 + count
             else count < window
    ensures cursor + count + 1 !in present
  {
    var above := set k | k in present && cursor < k;
    var all := Ascending(above);
    assert forall i :: 0 <= i < count ==> all[i] == ReadWindow(present, cursor, window)[i];
    if cursor + count + 1 in present {
      assert cursor + count + 1 in above;
      NextSitsAtCount(all, cursor, count);
    }
  }

  /** The scan of one origin's log rows, for any window of at least one. */
  method ScanContiguous(present: set<nat>, start: nat, window: nat) returns (cur: nat)
    requires window >= 1
    ensures cur == ContiguousEnd(present, start)
  {
    cur := start;
    while true
      invariant start <= cur && forall k :: start < k <= cur ==> k in present
      decreases set k | k in present && cur < k
    {
      var read := ReadWindow(present, cur, window);
      var next, count, gap := cur + 1, 0, false;
      for i := 0 to |read|
        invariant !gap && count == i && next == cur + 1 + i
        invariant forall j :: 0 <= j < i ==> read[j] == cur + 1 + j
      {
        count := count + 1;
        if read[i] != next {
          gap := true;
          break;
        }
        next := next + 1;
      }
      var consecutive := next - 1 - cur;
      WindowPrefixPresent(present, cur, window, consecutive);
      if gap || count < window {
        WindowPrefixStops(present, cur, window, consecutive);
      }
      ghost var above := set k | k in present && cur < k;
      if next - 1 > cur {
        assert cur + 1 in above;
      }
      cur := next - 1;
      if gap || count < window {
        break;
      }
    }
    ContiguousEndIsUnique(present, start, cur);
  }

  /** The own log has no gaps by construction: its cursor is current_seq. */
  function NewCursor(db: Db, o: Origin): nat {
    if o == db.local.self then db.local.currentSeq else ContiguousEnd(Present(db, o), Cursor(db, o))
  }

  /** The own cursor is written only when it grows. */
  predicate WritesCursor(db: Db, o: Origin) {
    o == db.local.self ==> db.local.currentSeq > Cursor(db, o)
  }

  /** AdvanceContiguous for one origin. */
  function Advanced(db: Db, o: Origin): Db {
    if WritesCursor(db, o) then WithProgress(db, db.local.self, o, NewCursor(db, o)) else db
  }

  method AdvanceContiguous(db: Database, receiver: Origin, o: Origin) returns (cursor: nat)
    requires receiver == db.local.self
    modifies db`progress
    ensures db.View() == Advanced(old(db.View()), o)
    ensures cursor == NewCursor(old(db.View()), o)
    ensures o == receiver ==> cursor == db.local.currentSeq
    ensures o == receiver ==>
              EntryIn(db.progress, receiver, o) ==
              if db.local.currentSeq > Get(ProgressOf(old(db.View()), receiver), o) then Some(db.local.currentSeq)
              else EntryIn(old(db.progress), receiver, o)
    ensures o != receiver ==>
              && IsContiguousEnd(Present(db.View(), o), Get(ProgressOf(old(db.View()), receiver), o), cursor)
              && EntryIn(db.progress, receiver, o) == Some(cursor)
    ensures forall r, p :: (r, p) != (receiver, o) ==> EntryIn(db.progress, r, p) == EntryIn(old(db.progress), r, p)
  {
    var row := if receiver in db.progress then db.progress[receiver] else map[];
    var cur := Get(row, o);
    if o == receiver {
      var n := db.local.currentSeq;
      if n > cur {
        db.SetProgress(receiver, o, n);
      }
      return n;
    }
    var present := if o in db.log then db.log[o].Keys else {};
    cursor := ScanContiguous(present, cur, SCAN_WINDOW);
    db.SetProgress(receiver, o, cursor);
  }

  /** The cursors written for the origins a batch touched. */
  function Moved(db: Db, touched: set<Origin>): Vector {
    map o | o in touched && WritesCursor(db, o) :: NewCursor(db, o)
  }

  function AdvancedAll(db: Db, touched: set<Origin>): Db {
    var moved := Moved(db, touched);
    if moved == map[] then db
    else db.(progress := db.progress[db.local.self := ProgressOf(db, db.local.self) + moved])
  }

  lemma MovedOneMore(db: Db, touched: set<Origin>, o: Origin)
    requires o !in touched
    ensures Moved(db, touched + {o}) ==
            if WritesCursor(db, o) then Moved(db, touched)[o := NewCursor(db, o)] else Moved(db, touched)
  {
  }

  lemma AdvancedVector(db: Db, touched: set<Origin>)
    ensures ProgressOf(AdvancedAll(db, touched), db.local.self) == ProgressOf(db, db.local.self) + Moved(db, touched)
  {
    assert ProgressOf(db, db.local.self) + map[] == ProgressOf(db, db.local.self);
  }

  /** Advancing other origins leaves what this origin's advance depends on. */
  lemma AdvanceIsLocal(db: Db, touched: set<Origin>, o: Origin)
    requires o !in touched
    ensures WritesCursor(AdvancedAll(db, touched), o) == WritesCursor(db, o)
    ensures NewCursor(AdvancedAll(db, touched), o) == NewCursor(db, o)
  {
    var after := AdvancedAll(db, touched);
    assert after.log == db.log && after.local == db.local;
    AdvancedVector(db, touched);
    assert Cursor(after, o) == Cursor(db, o);
  }

  lemma RaiseMerged(v: Vector, m: Vector, o: Origin, n: nat)
    requires o !in m && Get(v, o) <= n
    ensures Raise(v + m, o, n) == v + m[o := n]
  {
    assert (v + m)[o := n] == v + m[o := n];
  }

  lemma AdvanceOneMore(db: Db, touched: set<Origin>, o: Origin)
    requires o !in touched
    ensures Advanced(AdvancedAll(db, touched), o) == AdvancedAll(db, touched + {o})
  {
    var self := db.local.self;
    var v, m, n := ProgressOf(db, self), Moved(db, touched), NewCursor(db, o);
    AdvanceIsLocal(db, touched, o);
    AdvancedVector(db, touched);
    MovedOneMore(db, touched, o);
    if WritesCursor(db, o) {
      RaiseMerged(v, m, o, n);
      OverwriteTwice(db.progress, self, v + m, v + m[o := n]);
    }
  }

  lemma OverwriteTwice<K, V>(m: map<K, V>, k: K, a: V, b: V)
    ensures m[k := a][k := b] == m[k := b]
  {
  }

  method AdvanceTouched(db: Database, touched: set<Origin>)
    modifies db`progress
    ensures db.View() == AdvancedAll(old(db.View()), touched)
  {
    ghost var before := db.View();
    var todo := touched;
    assert touched - todo == {};
    while todo != {}
      invariant todo <= touched
      invariant db.View() == AdvancedAll(before, touched - todo)
    {
      var o :| o in todo;
      AdvanceOneMore(before, touched - todo, o);
      assert touched - (todo - {o}) == (touched - todo) + {o};
      var _ := AdvanceContiguous(db, db.local.self, o);
      todo := todo - {o};
    }
    assert touched - todo == touched;
  }

  /** Where each cursor stands after a batch. */
  lemma AdvancedCursors(db: Db, touched: set<Origin>, o: Origin)
    ensures o in touched && o != db.local.self ==>
              IsContiguousEnd(Present(db, o), Cursor(db, o), Cursor(AdvancedAll(db, touched), o))
    ensures o !in touched ==> Cursor(AdvancedAll(db, touched), o) == Cursor(db, o)
    ensures o == db.local.self && o in touched ==>
              Cursor(AdvancedAll(db, touched), o) == Larger(Cursor(db, o), db.local.currentSeq)
    ensures forall r :: r != db.local.self ==> ProgressOf(AdvancedAll(db, touched), r) == ProgressOf(db, r)
  {
    assert o in touched && o != db.local.self ==> o in Moved(db, touched);
  }
}
