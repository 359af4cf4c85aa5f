/** The replication tables of internal/store as one in-memory database.
    `Db` is a value of all tables; `Database` is the mutable store whose
    methods are the statements, each one atomic. */
module Store {
  import opened Hlc
  import opened Conflict
  import opened Changelog

  datatype RowKey = RowKey(table: string, id: string)

  /** A business row: one value for every registered column. */
  type Row = map<string, Value>

  const JOINING := "JOINING"
  const ACTIVE := "ACTIVE"
  const RETIRED := "RETIRED"

  datatype NodeRow = NodeRow(incarnationId: string, name: string, status: string,
                             epoch: nat, schemaVersion: nat, addr: string)

  datatype BootstrapStatus = Started | Completed | Aborted

  datatype Bootstrap = Bootstrap(joining: Origin, status: BootstrapStatus, schemaVersion: nat)

  /** Business rows with the resolver's field versions and tombstones. */
  datatype Tables = Tables(rows: map<RowKey, Row>,
                           versions: map<RowKey, map<string, Version>>,
                           tombs: map<RowKey, Version>)

  /** The singleton replication_local_state row. */
  datatype LocalState = LocalState(self: Origin, currentSeq: nat, hlc: HLC)

  /** replication_meta: persisted GC marks and the membership epoch. */
  datatype Meta = Meta(gcMarks: Vector, epoch: nat)

  /** Seed sessions and their retention pins, both by bootstrap id. */
  datatype Seeds = Seeds(bootstraps: map<string, Bootstrap>, pins: map<string, Vector>)

  datatype Db = Db(
    log: map<Origin, map<nat, Event>>,
    tables: Tables,
    progress: map<Origin, Vector>,
    local: LocalState,
    nodes: map<string, NodeRow>,
    meta: Meta,
    seeds: Seeds)

  /** A fresh database: only the local state row exists. */
  function Fresh(self: Origin): Db {
    Db(map[], Tables(map[], map[], map[]), map[], LocalState(self, 0, HLC(0, 0)), map[], Meta(map[], 0),
       Seeds(map[], map[]))
  }

  // ----- Log -----

  function EventsOf(db: Db, o: Origin): map<nat, Event> {
    if o in db.log then db.log[o] else map[]
  }

  function Present(db: Db, o: Origin): set<nat> {
    EventsOf(db, o).Keys
  }

  predicate Stored(db: Db, e: Event) {
    e.originSeq in Present(db, e.origin)
  }

  function WithEvent(db: Db, e: Event): Db {
    db.(log := db.log[e.origin := EventsOf(db, e.origin)[e.originSeq := e]])
  }

  function WithoutEvents(db: Db, o: Origin, victims: set<nat>): Db {
    db.(log := db.log[o := EventsOf(db, o) - victims])
  }

  // ----- Progress -----

  function ProgressOf(db: Db, receiver: Origin): Vector {
    if receiver in db.progress then db.progress[receiver] else map[]
  }

  function Cursor(db: Db, o: Origin): nat {
    Get(ProgressOf(db, db.local.self), o)
  }

  function WithProgress(db: Db, receiver: Origin, o: Origin, n: nat): Db {
    db.(progress := db.progress[receiver := Raise(ProgressOf(db, receiver), o, n)])
  }

  /** Pointwise maximum. */
  function Join(v: Vector, w: Vector): Vector {
    map o | o in v.Keys + w.Keys :: Larger(Get(v, o), Get(w, o))
  }

  /** One upsert per entry; an empty vector writes no row. */
  function WithProgressMany(db: Db, receiver: Origin, v: Vector): Db {
    if v == map[] then db else db.(progress := db.progress[receiver := Join(ProgressOf(db, receiver), v)])
  }

  lemma JoinRaises(v: Vector, done: Vector, o: Origin, n: nat)
    requires o !in done
    ensures Raise(Join(v, done), o, n) == Join(v, done[o := n])
  {
    var a, b := Raise(Join(v, done), o, n), Join(v, done[o := n]);
    assert a.Keys == b.Keys;
    forall p | p in a
      ensures a[p] == b[p]
    {
      assert p != o ==> Get(done, p) == Get(done[o := n], p);
    }
  }

  lemma JoinOneMore(db: Db, receiver: Origin, done: Vector, o: Origin, n: nat)
    requires o !in done
    ensures WithProgress(WithProgressMany(db, receiver, done), receiver, o, n)
         == WithProgressMany(db, receiver, done[o := n])
  {
    hide Join, Raise;
    var row := ProgressOf(db, receiver);
    JoinRaises(row, done, o, n);
    JoinNothing(row);
  }

  lemma JoinNothing(v: Vector)
    ensures Join(v, map[]) == v
  {
  }

  /** The advertised vector: stored cursors, and current_seq for the own log. */
  function LocalVector(db: Db): Vector {
    ProgressOf(db, db.local.self)[db.local.self := db.local.currentSeq]
  }

  // ----- Clock row and membership -----

  /** The stored clock after SaveHLC: the statement's assignments run left to
      right, so the logical part still sees the old physical part. */
  function SavedHlc(s: HLC, h: HLC): HLC {
    if h.physical > s.physical then HLC(h.physical, 0)
    else if h.physical == s.physical then HLC(s.physical, Larger(s.logical, h.logical))
    else s
  }

  /** CheckIncarnation refuses exactly the incarnation recorded as retired. */
  predicate IsRetired(nodes: map<string, NodeRow>, o: Origin) {
    o.nodeId in nodes && nodes[o.nodeId].incarnationId == o.incarnationId && nodes[o.nodeId].status == RETIRED
  }

  // ----- Ordered reads -----

  predicate IsLeastIn(s: set<nat>, m: nat) {
    m in s && forall x :: x in s ==> m <= x
  }

  lemma {:induction false} LeastExists(s: set<nat>)
    requires s != {}
    ensures exists m :: IsLeastIn(s, m)
  {
    var x :| x in s;
    if s == {x} {
      assert IsLeastIn(s, x);
    } else {
      var rest := s - {x};
      LeastExists(rest);
      var m :| IsLeastIn(rest, m);
      assert s == rest + {x};
      assert IsLeastIn(s, if m <= x then m else x);
    }
  }

  function LeastOf(s: set<nat>): (m: nat)
    requires s != {}
    ensures m in s && forall x :: x in s ==> m <= x
  {
    LeastExists(s);
    var m :| IsLeastIn(s, m);
    m
  }

  ghost predicate StrictlyAscending(s: seq<nat>) {
    forall i, j :: 0 <= i < j < |s| ==> s[i] < s[j]
  }

  /** ORDER BY ... ASC. */
  function Ascending(s: set<nat>): (r: seq<nat>)
    ensures StrictlyAscending(r) && |r| == |s|
    ensures forall x :: x in r <==> x in s
  {
    if s == {} then []
    else
      var m := LeastOf(s);
      var rest := Ascending(s - {m});
      assert forall i :: 0 <= i < |rest| ==> rest[i] in s - {m};
      [m] + rest
  }

  /** One row of replication_progress. */
  function EntryIn(progress: map<Origin, Vector>, receiver: Origin, o: Origin): Option<nat> {
    if receiver in progress && o in progress[receiver] then Some(progress[receiver][o]) else None
  }

  class Database {
    var log: map<Origin, map<nat, Event>>
    var tables: Tables
    var progress: map<Origin, Vector>
    var local: LocalState
    var nodes: map<string, NodeRow>
    var meta: Meta
    var seeds: Seeds

    constructor (db: Db)
      ensures View() == db
    {
      log, tables, progress, local := db.log, db.tables, db.progress, db.local;
      nodes, meta, seeds := db.nodes, db.meta, db.seeds;
    }

    function View(): Db
      reads this
    {
      Db(log, tables, progress, local, nodes, meta, seeds)
    }

    /** Rolls the open transaction back to the state it began in. */
    method Rollback(saved: Db)
      modifies this
      ensures View() == saved
    {
      log, tables, progress, local := saved.log, saved.tables, saved.progress, saved.local;
      nodes, meta, seeds := saved.nodes, saved.meta, saved.seeds;
    }

    /** INSERT IGNORE: a known identity leaves the log as it is. */
    method InsertEvent(e: Event) returns (inserted: Result<bool>)
      modifies `log
      ensures !ValidEvent(e) ==> inserted == Err(InvalidEvent) && View() == old(View())
      ensures ValidEvent(e) ==> inserted == Ok(!Stored(old(View()), e))
      ensures ValidEvent(e) ==> View() == if Stored(old(View()), e) then old(View()) else WithEvent(old(View()), e)
      ensures inserted == Ok(false) ==> e.origin in log && e.originSeq in log[e.origin] && log == old(log)
      ensures inserted == Ok(true) ==> e.origin in log && e.originSeq in log[e.origin]
                                       && log[e.origin][e.originSeq] == e
      ensures inserted == Ok(true) ==> !(e.origin in old(log) && e.originSeq in old(log)[e.origin])
      ensures forall o, n :: (o, n) != (e.origin, e.originSeq) ==>
                               (o in log && n in log[o] <==> o in old(log) && n in old(log)[o])
      ensures forall o, n :: o in old(log) && n in old(log)[o] ==> o in log && n in log[o]
                                                                   && log[o][n] == old(log)[o][n]
    {
      if !ValidEvent(e) {
        return Err(InvalidEvent);
      }
      var known := if e.origin in log then log[e.origin] else map[];
      if e.originSeq in known {
        return Ok(false);
      }
      log := log[e.origin := known[e.originSeq := e]];
      return Ok(true);
    }

    method CheckIncarnation(o: Origin) returns (refused: bool)
      ensures refused <==> IsRetired(nodes, o)
      ensures refused <==> o.nodeId in nodes && nodes[o.nodeId].incarnationId == o.incarnationId
                           && nodes[o.nodeId].status == "RETIRED"
    {
      if o.nodeId !in nodes {
        return false;
      }
      var n := nodes[o.nodeId];
      refused := n.incarnationId == o.incarnationId && n.status == RETIRED;
    }

    method SetProgress(receiver: Origin, o: Origin, n: nat)
      modifies `progress
      ensures View() == WithProgress(old(View()), receiver, o, n)
      ensures forall r, p :: (r, p) != (receiver, o) ==> EntryIn(progress, r, p) == EntryIn(old(progress), r, p)
      ensures var stored := EntryIn(old(progress), receiver, o);
              EntryIn(progress, receiver, o) == Some(if stored.Some? && stored.value >= n then stored.value else n)
    {
      var row := if receiver in progress then progress[receiver] else map[];
      var moved := if o in row && row[o] >= n then row[o] else n;
      assert moved == Larger(Get(row, o), n);
      progress := progress[receiver := row[o := moved]];
    }

    method SetProgressMany(receiver: Origin, v: Vector)
      modifies `progress
      ensures View() == WithProgressMany(old(View()), receiver, v)
      ensures forall r, p :: r != receiver || p !in v ==> EntryIn(progress, r, p) == EntryIn(old(progress), r, p)
      ensures forall p :: p in v ==>
                            var stored := EntryIn(old(progress), receiver, p);
                            EntryIn(progress, receiver, p)
                            == Some(if stored.Some? && stored.value >= v[p] then stored.value else v[p])
    {
      ghost var before := View();
      ghost var done: Vector := map[];
      var todo := v.Keys;
      while todo != {}
        invariant todo <= v.Keys && done.Keys == v.Keys - todo
        invariant forall o :: o in done ==> done[o] == v[o]
        invariant View() == WithProgressMany(before, receiver, done)
      {
        var o :| o in todo;
        JoinOneMore(before, receiver, done, o, v[o]);
        SetProgress(receiver, o, v[o]);
        done := done[o := v[o]];
        todo := todo - {o};
      }
      assert done == v;
    }

    method SaveHLC(h: HLC)
      modifies `local
      ensures View() == old(View()).(local := old(local).(hlc := SavedHlc(old(local.hlc), h)))
      ensures h.physical > old(local.hlc.physical) ==> local.hlc == HLC(h.physical, 0)
      ensures h.physical < old(local.hlc.physical) ==> local.hlc == old(local.hlc)
      ensures h.physical == old(local.hlc.physical) ==>
                local.hlc == HLC(h.physical, if old(local.hlc.logical) >= h.logical then old(local.hlc.logical)
                                 else h.logical)
    {
      var s := local.hlc;
      var logical :=
        if h.physical > s.physical then 0
        else if h.physical == s.physical then (if s.logical >= h.logical then s.logical else h.logical)
        else s.logical;
      var physical := if s.physical >= h.physical then s.physical else h.physical;
      local := local.(hlc := HLC(physical, logical));
    }

    method ReadLocalVector() returns (v: Vector)
      ensures v == LocalVector(View())
      ensures local.self in v && v[local.self] == local.currentSeq
      ensures forall o :: o != local.self ==>
                            if EntryIn(progress, local.self, o).Some?
                            then o in v && v[o] == EntryIn(progress, local.self, o).value else o !in v
    {
      v := if local.self in progress then progress[local.self] else map[];
      v := v[local.self := local.currentSeq];
    }
  }
}
