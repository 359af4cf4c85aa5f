/** Membership transitions: internal/membership/membership.go over the node
    rows of internal/store/nodes.go. */
module Membership {
  import opened Changelog
  import opened Store
  import opened Gc

  /** A gossiped member record. Status texts are not checked on arrival. */
  datatype Member = Member(nodeId: string, incarnationId: string, name: string, status: string,
                           schemaVersion: nat, epoch: nat, addr: string)

  datatype Heartbeat = Heartbeat(sender: Member, members: seq<Member>)

  /** Node rows, the persisted epoch, and the epoch cached in memory. */
  datatype State = State(nodes: map<string, NodeRow>, persisted: nat, memory: nat)

  datatype Op =
    | Add(id: string, incarnationId: string, name: string, addr: string, schemaVersion: nat)
    | Activate(id: string)
    | Retire(id: string)
    | Beat(heartbeat: Heartbeat)
    | EnsureSelf(name: string, addr: string, schemaVersion: nat)
    | Load

  // ----- Row statements -----

  /** INSERT ... ON DUPLICATE KEY UPDATE: an existing row keeps its status and
      the greater epoch. */
  function Upserted(nodes: map<string, NodeRow>, id: string, n: NodeRow): map<string, NodeRow> {
    nodes[id := if id in nodes then n.(status := nodes[id].status, epoch := Larger(nodes[id].epoch, n.epoch)) else n]
  }

  function WithStatus(nodes: map<string, NodeRow>, id: string, status: string, epoch: nat): map<string, NodeRow> {
    if id in nodes then nodes[id := nodes[id].(status := status, epoch := epoch)] else nodes
  }

  // ----- Transitions -----

  function Bumped(s: State): State {
    s.(persisted := s.persisted + 1, memory := s.persisted + 1)
  }

  function Added(s: State, op: Op): (State, bool)
    requires op.Add?
  {
    var known := op.id in s.nodes;
    if known && s.nodes[op.id].status == RETIRED && s.nodes[op.id].incarnationId == op.incarnationId then (s, false)
    else if known && s.nodes[op.id].status != RETIRED then (s.(memory := s.persisted + 1), false)
    else
      var n := NodeRow(op.incarnationId, op.name, JOINING, s.persisted + 1, op.schemaVersion, op.addr);
      (Bumped(s).(nodes := Upserted(s.nodes, op.id, n)), true)
  }

  function Activated(s: State, id: string): (State, bool) {
    if id !in s.nodes || s.nodes[id].status == RETIRED then (s, false)
    else if s.nodes[id].status == ACTIVE then (s, true)
    else (Bumped(s).(nodes := WithStatus(s.nodes, id, ACTIVE, s.persisted + 1)), true)
  }

  function Retired(s: State, id: string): (State, bool) {
    if id !in s.nodes then (s, false)
    else (Bumped(s).(nodes := WithStatus(s.nodes, id, RETIRED, s.persisted + 1)), true)
  }

  function RowOf(m: Member, status: string): NodeRow {
    NodeRow(m.incarnationId, m.name, status, m.epoch, m.schemaVersion, m.addr)
  }

  function Merged(nodes: map<string, NodeRow>, m: Member): map<string, NodeRow> {
    if m.nodeId !in nodes then
      Upserted(nodes, m.nodeId, RowOf(m, if m.status == RETIRED then RETIRED else JOINING))
    else
      var stored := nodes[m.nodeId];
      if stored.status == RETIRED then nodes
      else if m.incarnationId != stored.incarnationId && m.status == RETIRED then nodes
      else if m.epoch > stored.epoch then
        if m.status == ACTIVE then Upserted(nodes, m.nodeId, RowOf(m, stored.status))
        else WithStatus(nodes, m.nodeId, m.status, m.epoch)
      else if m.epoch == stored.epoch && m.status == RETIRED then WithStatus(nodes, m.nodeId, RETIRED, m.epoch)
      else if m.addr != "" && m.addr != stored.addr then Upserted(nodes, m.nodeId, stored.(addr := m.addr))
      else nodes
  }

  function MergedAll(nodes: map<string, NodeRow>, ms: seq<Member>, self: string): map<string, NodeRow> {
    if ms == [] then nodes
    else
      var before, m := MergedAll(nodes, ms[..|ms| - 1], self), ms[|ms| - 1];
      if m.nodeId == "" || m.nodeId == self then before else Merged(before, m)
  }

  /** Adopts a higher epoch in memory and on disk. */
  function Adopted(s: State, n: nat): State {
    if n <= s.memory then s else s.(persisted := n, memory := n)
  }

  function Beaten(s: State, hb: Heartbeat, self: string): State {
    if hb.sender.nodeId == "" || hb.sender.nodeId == self then s
    else
      var adopted := Adopted(s, hb.sender.epoch);
      adopted.(nodes := MergedAll(s.nodes, [hb.sender] + hb.members, self))
  }

  function After(s: State, op: Op, self: Origin): State {
    match op
    case Add(_, _, _, _, _) => Added(s, op).0
    case Activate(id) => Activated(s, id).0
    case Retire(id) => Retired(s, id).0
    case Beat(hb) => Beaten(s, hb, self.nodeId)
    case EnsureSelf(name, addr, v) =>
      if self.nodeId in s.nodes then s
      else s.(nodes := Upserted(s.nodes, self.nodeId, NodeRow(self.incarnationId, name, JOINING, s.memory, v, addr)))
    case Load => s.(memory := s.persisted)
  }

  function AfterAll(s: State, ops: seq<Op>, self: Origin): State {
    if ops == [] then s else After(AfterAll(s, ops[..|ops| - 1], self), ops[|ops| - 1], self)
  }

  class Manager {
    const db: Database
    const self: Origin
    const name: string
    const schemaVersion: nat
    const addr: string
    var epoch: nat

    constructor (db: Database, self: Origin, name: string, schemaVersion: nat, addr: string)
      ensures this.db == db && this.self == self && this.name == name && this.schemaVersion == schemaVersion
      ensures this.addr == addr && epoch == 0
    {
      this.db, this.self, this.name, this.schemaVersion, this.addr, epoch := db, self, name, schemaVersion, addr, 0;
    }

    function View(): State
      reads this, db
    {
      State(db.nodes, db.meta.epoch, epoch)
    }

    method UpsertNode(id: string, n: NodeRow)
      modifies db`nodes
      ensures db.nodes == Upserted(old(db.nodes), id, n)
    {
      if id in db.nodes {
        var stored := db.nodes[id];
        var greatest := if stored.epoch >= n.epoch then stored.epoch else n.epoch;
        db.nodes := db.nodes[id := NodeRow(n.incarnationId, n.name, stored.status, greatest, n.schemaVersion, n.addr)];
      } else {
        db.nodes := db.nodes[id := n];
      }
    }

    method SetNodeStatus(id: string, status: string, epoch: nat)
      modifies db`nodes
      ensures db.nodes == WithStatus(old(db.nodes), id, status, epoch)
    {
      if id in db.nodes {
        db.nodes := db.nodes[id := db.nodes[id].(status := status, epoch := epoch)];
      }
    }

    /** The cached epoch is set before the transaction commits. */
    method BumpEpoch() returns (next: nat)
      modifies db`meta, `epoch
      ensures next == old(db.meta.epoch) + 1 == db.meta.epoch == epoch
      ensures db.meta.gcMarks == old(db.meta.gcMarks)
    {
      next := db.meta.epoch + 1;
      db.meta := db.meta.(epoch := next);
      epoch := next;
    }

    method SetEpoch(n: nat)
      modifies db`meta, `epoch
      ensures View() == Adopted(old(View()), n) && db.meta.gcMarks == old(db.meta.gcMarks)
    {
      if n <= epoch {
        return;
      }
      epoch := n;
      db.meta := db.meta.(epoch := n);
    }

    method LoadEpoch()
      modifies `epoch
      ensures View() == After(old(View()), Load, self)
    {
      epoch := db.meta.epoch;
    }

    method EnsureSelfRow()
      modifies db`nodes
      ensures View() == After(old(View()), EnsureSelf(name, addr, schemaVersion), self)
    {
      if self.nodeId in db.nodes {
        return;
      }
      UpsertNode(self.nodeId, NodeRow(self.incarnationId, name, JOINING, epoch, schemaVersion, addr));
    }

    /** A refused addition rolls the rows and the persisted epoch back, not the
        cached epoch. */
    method AddNode(id: string, incarnationId: string, name: string, addr: string, schemaVersion: nat) returns (ok: bool)
      modifies db, `epoch
      ensures (View(), ok) == Added(old(View()), Add(id, incarnationId, name, addr, schemaVersion))
      ensures db.View() == old(db.View()).(nodes := db.nodes, meta := db.meta)
              && db.meta.gcMarks == old(db.meta.gcMarks)
    {
      var saved := db.View();
      var known := id in db.nodes;
      if known && db.nodes[id].status == RETIRED && db.nodes[id].incarnationId == incarnationId {
        return false;
      }
      var next := BumpEpoch();
      if known && db.nodes[id].status != RETIRED {
        db.Rollback(saved);
        return false;
      }
      UpsertNode(id, NodeRow(incarnationId, name, JOINING, next, schemaVersion, addr));
      return true;
    }

    method ActivateNode(id: string) returns (ok: bool)
      modifies db`nodes, db`meta, `epoch
      ensures (View(), ok) == Activated(old(View()), id) && db.meta.gcMarks == old(db.meta.gcMarks)
    {
      if id !in db.nodes || db.nodes[id].status == RETIRED {
        return false;
      }
      if db.nodes[id].status == ACTIVE {
        return true;
      }
      var next := BumpEpoch();
      SetNodeStatus(id, ACTIVE, next);
      return true;
    }

    method RetireNode(id: string) returns (ok: bool)
      modifies db`nodes, db`meta, `epoch
      ensures (View(), ok) == Retired(old(View()), id) && db.meta.gcMarks == old(db.meta.gcMarks)
    {
      if id !in db.nodes {
        return false;
      }
      var next := BumpEpoch();
      SetNodeStatus(id, RETIRED, next);
      return true;
    }

    method MergeMember(en: Member)
      modifies db`nodes
      ensures db.nodes == Merged(old(db.nodes), en)
    {
      if en.nodeId !in db.nodes {
        var status := en.status;
        if status == ACTIVE {
          status := JOINING;
        }
        if status != JOINING && status != RETIRED {
          status := JOINING;
        }
        UpsertNode(en.nodeId, RowOf(en, status));
        return;
      }
      var stored := db.nodes[en.nodeId];
      if stored.status == RETIRED {
        return;
      }
      if en.incarnationId != stored.incarnationId && en.status == RETIRED {
        return;
      }
      if en.epoch > stored.epoch {
        if en.status == ACTIVE {
          UpsertNode(en.nodeId, RowOf(en, stored.status));
        } else {
          SetNodeStatus(en.nodeId, en.status, en.epoch);
        }
      } else if en.epoch == stored.epoch && en.status == RETIRED {
        SetNodeStatus(en.nodeId, RETIRED, en.epoch);
      } else if en.addr != "" && en.addr != stored.addr {
        UpsertNode(en.nodeId, stored.(addr := en.addr));
      }
    }

    method HandleHeartbeat(hb: Heartbeat)
      modifies db`nodes, db`meta, `epoch
      ensures View() == After(old(View()), Beat(hb), self) && db.meta.gcMarks == old(db.meta.gcMarks)
    {
      hide Merged;
      if hb.sender.nodeId == "" || hb.sender.nodeId == self.nodeId {
        return;
      }
      if hb.sender.epoch > epoch {
        SetEpoch(hb.sender.epoch);
      }
      var entries := [hb.sender] + hb.members;
      ghost var nodes := db.nodes;
      for i := 0 to |entries|
        modifies db`nodes
        invariant db.nodes == MergedAll(nodes, entries[..i], self.nodeId)
      {
        assert entries[..i + 1][..i] == entries[..i] && entries[..i + 1][i] == entries[i];
        if entries[i].nodeId == "" || entries[i].nodeId == self.nodeId {
          continue;
        }
        MergeMember(entries[i]);
      }
      assert entries[..|entries|] == entries;
    }

    /** The HELLO check: refuses exactly a recorded retired incarnation. */
    method CheckPeer(peer: Origin) returns (refused: bool)
      ensures refused <==> IsRetired(db.nodes, peer)
    {
      if peer.nodeId !in db.nodes {
        return false;
      }
      var n := db.nodes[peer.nodeId];
      return n.incarnationId == peer.incarnationId && n.status == RETIRED;
    }
  }

  // ----- Retirement -----

  predicate HasStatus(s: State, id: string, status: string) {
    id in s.nodes && s.nodes[id].status == status
  }

  lemma MergedKeeps(nodes: map<string, NodeRow>, m: Member, id: string)
    requires id in nodes
    ensures id in Merged(nodes, m)
    ensures nodes[id].status == RETIRED ==> Merged(nodes, m)[id] == nodes[id]
    ensures Merged(nodes, m)[id].status == ACTIVE ==> nodes[id].status == ACTIVE
  {
  }

  lemma MergedNeverActivates(nodes: map<string, NodeRow>, m: Member, id: string)
    requires id in Merged(nodes, m) && Merged(nodes, m)[id].status == ACTIVE
    ensures id in nodes && nodes[id].status == ACTIVE
  {
  }

  lemma {:induction false} MergedAllKeeps(nodes: map<string, NodeRow>, ms: seq<Member>, self: string, id: string)
    ensures id in nodes ==> id in MergedAll(nodes, ms, self)
    ensures id in nodes && nodes[id].status == RETIRED ==> MergedAll(nodes, ms, self)[id] == nodes[id]
    ensures id in MergedAll(nodes, ms, self) && MergedAll(nodes, ms, self)[id].status == ACTIVE ==>
              id in nodes && nodes[id].status == ACTIVE
  {
    hide Merged;
    if ms != [] {
      var before, m := MergedAll(nodes, ms[..|ms| - 1], self), ms[|ms| - 1];
      MergedAllKeeps(nodes, ms[..|ms| - 1], self, id);
      if id in before {
        MergedKeeps(before, m, id);
      }
      if id in Merged(before, m) && Merged(before, m)[id].status == ACTIVE {
        MergedNeverActivates(before, m, id);
      }
    }
  }

  lemma OpKeepsRetired(s: State, op: Op, self: Origin, id: string)
    requires HasStatus(s, id, RETIRED)
    ensures HasStatus(After(s, op, self), id, RETIRED)
    ensures !(op.Add? && op.id == id) ==> After(s, op, self).nodes[id].incarnationId == s.nodes[id].incarnationId
  {
    if op.Beat? {
      MergedAllKeeps(s.nodes, [op.heartbeat.sender] + op.heartbeat.members, self.nodeId, id);
    }
  }

  /** Retirement is final: no sequence of operations leaves it. */
  lemma {:induction false} RetiredForever(s: State, ops: seq<Op>, self: Origin, id: string)
    requires HasStatus(s, id, RETIRED)
    ensures HasStatus(AfterAll(s, ops, self), id, RETIRED)
  {
    hide After;
    if ops != [] {
      RetiredForever(s, ops[..|ops| - 1], self, id);
      OpKeepsRetired(AfterAll(s, ops[..|ops| - 1], self), ops[|ops| - 1], self, id);
    }
  }

  /** Until the node ID is added again, its retired incarnation is refused as a
      session peer and as an event origin. */
  lemma {:induction false} RetiredIsRefused(s: State, ops: seq<Op>, self: Origin, o: Origin)
    requires IsRetired(s.nodes, o)
    requires forall i :: 0 <= i < |ops| ==> !(ops[i].Add? && ops[i].id == o.nodeId)
    ensures IsRetired(AfterAll(s, ops, self).nodes, o)
  {
    hide After;
    if ops != [] {
      RetiredIsRefused(s, ops[..|ops| - 1], self, o);
      OpKeepsRetired(AfterAll(s, ops[..|ops| - 1], self), ops[|ops| - 1], self, o.nodeId);
    }
  }

  /** An operation makes a node ACTIVE exactly when it is an Activate of that
      node while it is known, neither RETIRED nor already ACTIVE. */
  lemma ActiveOnlyByActivate(s: State, op: Op, self: Origin, id: string)
    ensures HasStatus(After(s, op, self), id, ACTIVE) && !HasStatus(s, id, ACTIVE) <==>
            op == Activate(id) && id in s.nodes && s.nodes[id].status != RETIRED && s.nodes[id].status != ACTIVE
  {
    if op.Beat? {
      MergedAllKeeps(s.nodes, [op.heartbeat.sender] + op.heartbeat.members, self.nodeId, id);
    }
  }

  // ----- What the statements and operations write -----

  /** An upsert takes everything from the record but status and epoch. */
  lemma UpsertedIs(nodes: map<string, NodeRow>, id: string, n: NodeRow)
    ensures Upserted(nodes, id, n).Keys == nodes.Keys + {id}
    ensures forall other :: other in nodes && other != id ==> Upserted(nodes, id, n)[other] == nodes[other]
    ensures id !in nodes ==> Upserted(nodes, id, n)[id] == n
    ensures id in nodes ==>
              var row := Upserted(nodes, id, n)[id];
              && row.incarnationId == n.incarnationId && row.name == n.name && row.addr == n.addr
              && row.schemaVersion == n.schemaVersion && row.status == nodes[id].status
              && row.epoch == if n.epoch > nodes[id].epoch then n.epoch else nodes[id].epoch
  {
  }

  /** An addition is refused for a known node, unless it is RETIRED under
      another incarnation; only the cached epoch may move then. A new node is
      JOINING at the next epoch. */
  lemma AddedIs(s: State, op: Op)
    requires op.Add?
    ensures Added(s, op).1 <==>
            op.id !in s.nodes || (s.nodes[op.id].status == "RETIRED"
                                  && s.nodes[op.id].incarnationId != op.incarnationId)
    ensures !Added(s, op).1 ==>
              Added(s, op).0 == s.(memory := if s.nodes[op.id].status == "RETIRED" then s.memory else s.persisted + 1)
    ensures Added(s, op).1 ==>
              var after := Added(s, op).0;
              && after.persisted == after.memory == s.persisted + 1
              && after.nodes.Keys == s.nodes.Keys + {op.id}
              && (forall id :: id in s.nodes && id != op.id ==> after.nodes[id] == s.nodes[id])
              && var row := after.nodes[op.id];
              && row.incarnationId == op.incarnationId && row.name == op.name && row.addr == op.addr
              && row.schemaVersion == op.schemaVersion
              && row.status == (if op.id in s.nodes then "RETIRED" else "JOINING")
              && row.epoch == if op.id in s.nodes && s.nodes[op.id].epoch > s.persisted + 1
                              then s.nodes[op.id].epoch else s.persisted + 1
  {
  }

  /** Activation and retirement write one row's status and epoch, the next one. */
  lemma StatusChangeIs(s: State, id: string)
    ensures Activated(s, id).1 <==> id in s.nodes && s.nodes[id].status != "RETIRED"
    ensures Retired(s, id).1 <==> id in s.nodes
    ensures Activated(s, id).0 ==
            if id in s.nodes && s.nodes[id].status != "RETIRED" && s.nodes[id].status != "ACTIVE"
            then State(s.nodes[id := s.nodes[id].(status := "ACTIVE", epoch := s.persisted + 1)],
                       s.persisted + 1, s.persisted + 1)
            else s
    ensures Retired(s, id).0 ==
            if id in s.nodes
            then State(s.nodes[id := s.nodes[id].(status := "RETIRED", epoch := s.persisted + 1)],
                       s.persisted + 1, s.persisted + 1)
            else s
  {
  }

  /** What a merge makes of one gossiped record: the whole row, for every kind
      of record. */
  lemma MergedIs(nodes: map<string, NodeRow>, m: Member)
    ensures Merged(nodes, m).Keys == nodes.Keys + {m.nodeId}
    ensures forall id :: id in nodes && id != m.nodeId ==> Merged(nodes, m)[id] == nodes[id]
    ensures m.nodeId !in nodes ==>
              Merged(nodes, m)[m.nodeId] ==
              NodeRow(m.incarnationId, m.name, if m.status == "RETIRED" then "RETIRED" else "JOINING",
                      m.epoch, m.schemaVersion, m.addr)
    ensures m.nodeId in nodes && (nodes[m.nodeId].status == "RETIRED"
                                  || (m.status == "RETIRED" && m.incarnationId != nodes[m.nodeId].incarnationId)) ==>
              Merged(nodes, m) == nodes
    ensures m.nodeId in nodes && nodes[m.nodeId].status != "RETIRED" && m.epoch > nodes[m.nodeId].epoch ==>
              var was, row := nodes[m.nodeId], Merged(nodes, m)[m.nodeId];
              && (m.status == "ACTIVE" ==>
                    row == NodeRow(m.incarnationId, m.name, was.status, m.epoch, m.schemaVersion, m.addr))
              && (m.status != "ACTIVE" && m.status != "RETIRED" ==>
                    row == was.(status := m.status, epoch := m.epoch))
              && (m.status == "RETIRED" && m.incarnationId == was.incarnationId ==>
                    row == was.(status := "RETIRED", epoch := m.epoch))
    ensures m.nodeId in nodes && nodes[m.nodeId].status != "RETIRED" && m.epoch <= nodes[m.nodeId].epoch ==>
              var was, row := nodes[m.nodeId], Merged(nodes, m)[m.nodeId];
              && (m.status == "RETIRED" && m.incarnationId == was.incarnationId && m.epoch == was.epoch ==>
                    row == was.(status := "RETIRED"))
              && (m.status != "RETIRED" || (m.incarnationId == was.incarnationId && m.epoch < was.epoch) ==>
                    row == if m.addr == "" then was else was.(addr := m.addr))
  {
  }

  /** A higher epoch is adopted in memory and on disk, any other in neither. */
  lemma AdoptedIs(s: State, n: nat)
    ensures Adopted(s, n) == if n > s.memory then State(s.nodes, n, n) else s
  {
  }

  /** Startup: the own row only when missing, the cached epoch from disk. */
  lemma StartupIs(s: State, self: Origin, name: string, addr: string, schemaVersion: nat)
    ensures After(s, Load, self) == State(s.nodes, s.persisted, s.persisted)
    ensures var after := After(s, EnsureSelf(name, addr, schemaVersion), self);
            if self.nodeId in s.nodes then after == s
            else after == s.(nodes := s.nodes[self.nodeId :=
                          NodeRow(self.incarnationId, name, "JOINING", s.memory, schemaVersion, addr)])
  {
  }

  /** A heartbeat adopts the sender's epoch and merges sender and members in
      order, skipping nameless entries and the node itself; a nameless sender
      or the node's own heartbeat is ignored. */
  lemma BeatIs(s: State, hb: Heartbeat, self: Origin)
    ensures hb.sender.nodeId in {"", self.nodeId} ==> After(s, Beat(hb), self) == s
    ensures hb.sender.nodeId !in {"", self.nodeId} ==>
              var after := After(s, Beat(hb), self);
              && after.persisted == (if hb.sender.epoch > s.memory then hb.sender.epoch else s.persisted)
              && after.memory == (if hb.sender.epoch > s.memory then hb.sender.epoch else s.memory)
              && after.nodes == MergedAll(Merged(s.nodes, hb.sender), hb.members, self.nodeId)
  {
    hide Merged;
    if hb.sender.nodeId !in {"", self.nodeId} {
      MergedAllFrom(s.nodes, hb.sender, hb.members, self.nodeId);
    }
  }

  lemma {:induction false} MergedAllFrom(nodes: map<string, NodeRow>, m: Member, ms: seq<Member>, self: string)
    requires m.nodeId !in {"", self}
    ensures MergedAll(nodes, [m] + ms, self) == MergedAll(Merged(nodes, m), ms, self)
  {
    hide Merged;
    if ms == [] {
      assert [m] + ms == [m] && [m][..0] == [];
    } else {
      assert ([m] + ms)[..|ms|] == [m] + ms[..|ms| - 1];
      MergedAllFrom(nodes, m, ms[..|ms| - 1], self);
    }
  }

  /** One record after the other, nameless entries and the own ID skipped. */
  lemma MergedAllStep(nodes: map<string, NodeRow>, ms: seq<Member>, m: Member, self: string)
    ensures MergedAll(nodes, [], self) == nodes
    ensures MergedAll(nodes, ms + [m], self) ==
            if m.nodeId == "" || m.nodeId == self then MergedAll(nodes, ms, self)
            else Merged(MergedAll(nodes, ms, self), m)
  {
    hide Merged;
    assert (ms + [m])[..|ms|] == ms;
  }

  // ----- The RETIRED incarnation -----

  /** The record retires o: it says so, and the node is unknown, or recorded
      under o's incarnation, not RETIRED, at an epoch that is not newer. */
  predicate Retires(nodes: map<string, NodeRow>, m: Member, o: Origin) {
    && m.nodeId == o.nodeId && m.incarnationId == o.incarnationId && m.status == "RETIRED"
    && (m.nodeId in nodes ==>
          && nodes[m.nodeId].incarnationId == o.incarnationId && nodes[m.nodeId].status != "RETIRED"
          && nodes[m.nodeId].epoch <= m.epoch)
  }

  lemma MergedRetiredIff(nodes: map<string, NodeRow>, m: Member, o: Origin)
    ensures IsRetired(Merged(nodes, m), o) <==> IsRetired(nodes, o) || Retires(nodes, m, o)
  {
  }

  predicate RetiresAt(nodes: map<string, NodeRow>, ms: seq<Member>, self: string, o: Origin, i: nat)
    requires i < |ms|
  {
    ms[i].nodeId != "" && ms[i].nodeId != self && Retires(MergedAll(nodes, ms[..i], self), ms[i], o)
  }

  predicate AnyRetires(nodes: map<string, NodeRow>, ms: seq<Member>, self: string, o: Origin) {
    exists i :: 0 <= i < |ms| && RetiresAt(nodes, ms, self, o, i)
  }

  lemma {:induction false} MergedAllRetiredIff(nodes: map<string, NodeRow>, ms: seq<Member>, self: string, o: Origin)
    ensures IsRetired(MergedAll(nodes, ms, self), o) <==> IsRetired(nodes, o) || AnyRetires(nodes, ms, self, o)
  {
    hide Merged, IsRetired, Retires;
    if ms != [] {
      var init, last := ms[..|ms| - 1], |ms| - 1;
      MergedAllRetiredIff(nodes, init, self, o);
      MergedRetiredIff(MergedAll(nodes, init, self), ms[last], o);
      forall i: nat | i < last
        ensures RetiresAt(nodes, ms, self, o, i) <==> RetiresAt(nodes, init, self, o, i)
      {
        assert ms[..i] == init[..i] && ms[i] == init[i];
      }
      assert ms[..last] == init;
      assert AnyRetires(nodes, ms, self, o) <==> AnyRetires(nodes, init, self, o)
                                                 || RetiresAt(nodes, ms, self, o, last) by {
        if i :| 0 <= i < |init| && RetiresAt(nodes, init, self, o, i) {
          assert RetiresAt(nodes, ms, self, o, i);
        }
      }
    }
  }

  /** Exactly which incarnations are RETIRED after an operation: retirement by
      the administrator, by gossip, or by re-adding a retired node ID. */
  lemma RetiredIncarnationIff(s: State, op: Op, self: Origin, o: Origin)
    ensures IsRetired(After(s, op, self).nodes, o) <==>
            match op
            case Retire(id) =>
              IsRetired(s.nodes, o) || (id == o.nodeId && id in s.nodes && s.nodes[id].incarnationId == o.incarnationId)
            case Beat(hb) =>
              || IsRetired(s.nodes, o)
              || (hb.sender.nodeId !in {"", self.nodeId}
                  && AnyRetires(s.nodes, [hb.sender] + hb.members, self.nodeId, o))
            case Add(id, incarnationId, _, _, _) =>
              if id == o.nodeId && id in s.nodes && s.nodes[id].status == "RETIRED"
              then o.incarnationId == incarnationId
              else IsRetired(s.nodes, o)
            case _ => IsRetired(s.nodes, o)
  {
    hide AnyRetires, MergedAll;
    if op.Beat? {
      MergedAllRetiredIff(s.nodes, [op.heartbeat.sender] + op.heartbeat.members, self.nodeId, o);
    }
  }

  // ----- The ACTIVE incarnation -----

  /** The record replaces the incarnation of an ACTIVE row by o's. */
  predicate BringsIn(nodes: map<string, NodeRow>, m: Member, o: Origin) {
    && m.nodeId == o.nodeId && m.nodeId in nodes && nodes[m.nodeId].status == ACTIVE
    && nodes[m.nodeId].incarnationId != o.incarnationId && m.incarnationId == o.incarnationId
    && m.status == ACTIVE && m.epoch > nodes[m.nodeId].epoch
  }

  /** The record replaces o's incarnation by another, or its ACTIVE status. */
  predicate PutsOut(nodes: map<string, NodeRow>, m: Member, o: Origin) {
    && m.nodeId == o.nodeId && m.nodeId in nodes
    && if m.epoch > nodes[m.nodeId].epoch
       then (m.incarnationId != o.incarnationId && m.status != RETIRED)
            || (m.incarnationId == o.incarnationId && m.status != ACTIVE)
       else m.epoch == nodes[m.nodeId].epoch && m.status == RETIRED && m.incarnationId == o.incarnationId
  }

  lemma MergedActiveIff(nodes: map<string, NodeRow>, m: Member, o: Origin)
    ensures IsActive(Merged(nodes, m), o) <==>
            BringsIn(nodes, m, o) || (IsActive(nodes, o) && !PutsOut(nodes, m, o))
  {
  }

  /** Entry i, in its turn, brings o in or puts it out. */
  predicate Enters(nodes: map<string, NodeRow>, ms: seq<Member>, self: string, o: Origin, i: nat)
    requires i < |ms|
  {
    ms[i].nodeId != "" && ms[i].nodeId != self && BringsIn(MergedAll(nodes, ms[..i], self), ms[i], o)
  }

  predicate Leaves(nodes: map<string, NodeRow>, ms: seq<Member>, self: string, o: Origin, i: nat)
    requires i < |ms|
  {
    ms[i].nodeId != "" && ms[i].nodeId != self && PutsOut(MergedAll(nodes, ms[..i], self), ms[i], o)
  }

  predicate StaysFrom(nodes: map<string, NodeRow>, ms: seq<Member>, self: string, o: Origin, i: nat) {
    forall j :: i <= j < |ms| ==> !Leaves(nodes, ms, self, o, j)
  }

  predicate EntersToStay(nodes: map<string, NodeRow>, ms: seq<Member>, self: string, o: Origin) {
    exists i :: 0 <= i < |ms| && Enters(nodes, ms, self, o, i) && StaysFrom(nodes, ms, self, o, i + 1)
  }

  lemma EntriesBefore(nodes: map<string, NodeRow>, ms: seq<Member>, self: string, o: Origin, i: nat)
    requires i < |ms| - 1
    ensures Enters(nodes, ms, self, o, i) <==> Enters(nodes, ms[..|ms| - 1], self, o, i)
    ensures Leaves(nodes, ms, self, o, i) <==> Leaves(nodes, ms[..|ms| - 1], self, o, i)
  {
    hide MergedAll, BringsIn, PutsOut;
    var init := ms[..|ms| - 1];
    assert ms[..i] == init[..i] && ms[i] == init[i];
  }

  lemma OneMoreEntry(nodes: map<string, NodeRow>, ms: seq<Member>, self: string, o: Origin)
    requires ms != []
    ensures var init, last := ms[..|ms| - 1], |ms| - 1;
            && (StaysFrom(nodes, ms, self, o, 0) <==>
                StaysFrom(nodes, init, self, o, 0) && !Leaves(nodes, ms, self, o, last))
            && (EntersToStay(nodes, ms, self, o) <==>
                || Enters(nodes, ms, self, o, last)
                || (EntersToStay(nodes, init, self, o) && !Leaves(nodes, ms, self, o, last)))
  {
    hide Enters, Leaves;
    var init, last := ms[..|ms| - 1], |ms| - 1;
    forall i: nat | i < last
      ensures Enters(nodes, ms, self, o, i) <==> Enters(nodes, init, self, o, i)
      ensures Leaves(nodes, ms, self, o, i) <==> Leaves(nodes, init, self, o, i)
    {
      EntriesBefore(nodes, ms, self, o, i);
    }
    if Enters(nodes, ms, self, o, last) {
      assert StaysFrom(nodes, ms, self, o, last + 1);
    }
    if EntersToStay(nodes, init, self, o) && !Leaves(nodes, ms, self, o, last) {
      var i :| 0 <= i < |init| && Enters(nodes, init, self, o, i) && StaysFrom(nodes, init, self, o, i + 1);
      assert Enters(nodes, ms, self, o, i) && StaysFrom(nodes, ms, self, o, i + 1);
    }
    if EntersToStay(nodes, ms, self, o) && !Enters(nodes, ms, self, o, last) {
      var i :| 0 <= i < |ms| && Enters(nodes, ms, self, o, i) && StaysFrom(nodes, ms, self, o, i + 1);
      assert Enters(nodes, init, self, o, i) && StaysFrom(nodes, init, self, o, i + 1);
    }
  }

  lemma {:induction false} MergedAllActiveIff(nodes: map<string, NodeRow>, ms: seq<Member>, self: string, o: Origin)
    ensures IsActive(MergedAll(nodes, ms, self), o) <==>
            EntersToStay(nodes, ms, self, o) || (IsActive(nodes, o) && StaysFrom(nodes, ms, self, o, 0))
  {
    hide Merged, IsActive, BringsIn, PutsOut, EntersToStay, StaysFrom;
    if ms == [] {
      assert !EntersToStay(nodes, [], self, o) && StaysFrom(nodes, [], self, o, 0) by { NoEntries(nodes, self, o); }
    } else {
      var init, m := ms[..|ms| - 1], ms[|ms| - 1];
      MergedAllActiveIff(nodes, init, self, o);
      OneMoreEntry(nodes, ms, self, o);
      MergedActiveIff(MergedAll(nodes, init, self), m, o);
    }
  }

  lemma NoEntries(nodes: map<string, NodeRow>, self: string, o: Origin)
    ensures !EntersToStay(nodes, [], self, o) && StaysFrom(nodes, [], self, o, 0)
  {
  }

  /** Collection counts incarnations. One becomes ACTIVE by an Activate while
      the row names it, or by gossip alone: a heartbeat with a newer ACTIVE
      record of another incarnation takes over an ACTIVE row. It stops being
      ACTIVE by such a record, by a newer one that is not ACTIVE, or when it is
      retired. */
  lemma ActiveIncarnationIff(s: State, op: Op, self: Origin, o: Origin)
    ensures IsActive(After(s, op, self).nodes, o) <==>
            match op
            case Activate(id) =>
              IsActive(s.nodes, o) || (id == o.nodeId && id in s.nodes && s.nodes[id].status != RETIRED
                                       && s.nodes[id].incarnationId == o.incarnationId)
            case Retire(id) => IsActive(s.nodes, o) && id != o.nodeId
            case Beat(hb) =>
              if hb.sender.nodeId == "" || hb.sender.nodeId == self.nodeId then IsActive(s.nodes, o)
              else
                var entries := [hb.sender] + hb.members;
                || EntersToStay(s.nodes, entries, self.nodeId, o)
                || (IsActive(s.nodes, o) && StaysFrom(s.nodes, entries, self.nodeId, o, 0))
            case _ => IsActive(s.nodes, o)
  {
    hide EntersToStay, StaysFrom, MergedAll;
    if op.Beat? {
      MergedAllActiveIff(s.nodes, [op.heartbeat.sender] + op.heartbeat.members, self.nodeId, o);
    }
  }

  /** Adding a node is meant to bring it in as JOINING. The statement never
      writes status over an existing row, so that holds exactly for node IDs
      seen for the first time; a re-added retired ID stays RETIRED. */
  lemma AddJoinsIff(s: State, op: Op)
    requires op.Add? && Added(s, op).1
    ensures HasStatus(Added(s, op).0, op.id, JOINING) <==> op.id !in s.nodes
    ensures HasStatus(Added(s, op).0, op.id, RETIRED) <==> op.id in s.nodes
  {
  }

  /** So after re-adding a retired ID the node refuses the new incarnation, and
      no longer refuses the retired one. */
  lemma AddSwapsRefusal(s: State, op: Op)
    requires op.Add? && Added(s, op).1 && op.id in s.nodes
    ensures var before, after := s.nodes, Added(s, op).0.nodes;
            && IsRetired(before, Origin(op.id, before[op.id].incarnationId))
            && !IsRetired(after, Origin(op.id, before[op.id].incarnationId))
            && IsRetired(after, Origin(op.id, op.incarnationId))
            && !Activated(Added(s, op).0, op.id).1
  {
  }

  // ----- Epochs -----

  /** The cached epoch is the persisted one, or one ahead of it after a refused
      addition. */
  predicate EpochInv(s: State) {
    s.persisted <= s.memory <= s.persisted + 1
  }

  /** Over any operations the persisted epoch never goes back and the cached
      epoch stays within one of it. */
  lemma {:induction false} EpochsStayClose(s: State, ops: seq<Op>, self: Origin)
    requires EpochInv(s)
    ensures EpochInv(AfterAll(s, ops, self)) && AfterAll(s, ops, self).persisted >= s.persisted
  {
    if ops != [] {
      EpochsStayClose(s, ops[..|ops| - 1], self);
    }
  }

  /** A heartbeat normally lifts the persisted epoch to the sender's. It fails
      to exactly when a refused addition had moved the cached epoch ahead and
      the sender is at that epoch. */
  lemma AdoptionLagsIff(s: State, hb: Heartbeat, self: Origin)
    requires EpochInv(s) && hb.sender.nodeId != "" && hb.sender.nodeId != self.nodeId
    ensures After(s, Beat(hb), self).persisted < hb.sender.epoch <==>
            s.memory == s.persisted + 1 && hb.sender.epoch == s.memory
  {
  }

  // ----- When gossip pauses collection -----

  /** Some row carries an epoch newer than the persisted one; collection pauses
      exactly then. */
  predicate Behind(s: State) {
    AnyAbove(s.nodes, s.persisted)
  }

  predicate AnyAbove(nodes: map<string, NodeRow>, bar: nat) {
    exists id :: id in nodes && nodes[id].epoch > bar
  }

  lemma BehindIsStale(db: Db, memory: nat)
    ensures Behind(State(db.nodes, db.meta.epoch, memory)) <==> StaleView(db)
  {
  }

  /** The record changes the row's epoch if it is the newer: not once the row is
      RETIRED, nor for the retirement of another incarnation. */
  predicate Heeded(nodes: map<string, NodeRow>, m: Member) {
    || m.nodeId !in nodes
    || (nodes[m.nodeId].status != RETIRED
        && (m.incarnationId == nodes[m.nodeId].incarnationId || m.status != RETIRED))
  }

  lemma MergedEpoch(nodes: map<string, NodeRow>, m: Member, id: string)
    ensures id in Merged(nodes, m) <==> id in nodes || id == m.nodeId
    ensures id in nodes && (id != m.nodeId || !Heeded(nodes, m)) ==> Merged(nodes, m)[id].epoch == nodes[id].epoch
    ensures id == m.nodeId && Heeded(nodes, m) ==>
              Merged(nodes, m)[id].epoch == if id in nodes then Larger(nodes[id].epoch, m.epoch) else m.epoch
  {
  }

  /** Entry i of a heartbeat lifts a row above the bar. */
  predicate Lifts(nodes: map<string, NodeRow>, ms: seq<Member>, self: string, bar: nat, i: nat)
    requires i < |ms|
  {
    && ms[i].nodeId != "" && ms[i].nodeId != self && ms[i].epoch > bar
    && Heeded(MergedAll(nodes, ms[..i], self), ms[i])
  }

  predicate AnyLifts(nodes: map<string, NodeRow>, ms: seq<Member>, self: string, bar: nat) {
    exists i :: 0 <= i < |ms| && Lifts(nodes, ms, self, bar, i)
  }

  /** Rows end up above the bar exactly when one was, or some entry lifts one. */
  lemma {:induction false} MergedAboveIff(nodes: map<string, NodeRow>, ms: seq<Member>, self: string, bar: nat)
    ensures AnyAbove(MergedAll(nodes, ms, self), bar) <==>
            AnyAbove(nodes, bar) || AnyLifts(nodes, ms, self, bar)
  {
    hide Merged, Heeded;
    if ms != [] {
      var last := |ms| - 1;
      var init, m := ms[..last], ms[last];
      MergedAboveIff(nodes, init, self, bar);
      LiftsOneMore(nodes, ms, self, bar);
      OneMoreAbove(MergedAll(nodes, init, self), m, bar);
    }
  }

  lemma LiftsOneMore(nodes: map<string, NodeRow>, ms: seq<Member>, self: string, bar: nat)
    requires ms != []
    ensures AnyLifts(nodes, ms, self, bar) <==>
            AnyLifts(nodes, ms[..|ms| - 1], self, bar) || Lifts(nodes, ms, self, bar, |ms| - 1)
  {
    hide Heeded, MergedAll;
    var init := ms[..|ms| - 1];
    forall i | 0 <= i < |init|
      ensures Lifts(nodes, ms, self, bar, i) <==> Lifts(nodes, init, self, bar, i)
    {
      assert ms[..i] == init[..i] && ms[i] == init[i];
    }
    if i :| 0 <= i < |init| && Lifts(nodes, init, self, bar, i) {
      assert Lifts(nodes, ms, self, bar, i);
    }
  }

  lemma OneMoreAbove(nodes: map<string, NodeRow>, m: Member, bar: nat)
    ensures AnyAbove(Merged(nodes, m), bar) <==> AnyAbove(nodes, bar) || (m.epoch > bar && Heeded(nodes, m))
  {
    hide Merged;
    MergedEpoch(nodes, m, m.nodeId);
    if id :| id in nodes && nodes[id].epoch > bar {
      MergedEpoch(nodes, m, id);
      assert id in Merged(nodes, m) && Merged(nodes, m)[id].epoch > bar;
    }
    if m.epoch > bar && Heeded(nodes, m) {
      assert m.nodeId in Merged(nodes, m) && Merged(nodes, m)[m.nodeId].epoch > bar;
    }
    if id :| id in Merged(nodes, m) && Merged(nodes, m)[id].epoch > bar {
      MergedEpoch(nodes, m, id);
      assert id in nodes && nodes[id].epoch <= bar ==> id == m.nodeId && Heeded(nodes, m);
    }
  }

  /** Exactly when a heartbeat leaves collection paused: a row was ahead of the
      epoch the node now persists, or some entry, in its turn, lifts one. */
  lemma HeartbeatPausesIff(s: State, hb: Heartbeat, self: Origin)
    requires hb.sender.nodeId != "" && hb.sender.nodeId != self.nodeId
    ensures var entries, bar := [hb.sender] + hb.members, Adopted(s, hb.sender.epoch).persisted;
            Behind(After(s, Beat(hb), self)) <==>
            || AnyAbove(s.nodes, bar)
            || AnyLifts(s.nodes, entries, self.nodeId, bar)
  {
    hide AnyAbove, MergedAll, AnyLifts;
    MergedAboveIff(s.nodes, [hb.sender] + hb.members, self.nodeId, Adopted(s, hb.sender.epoch).persisted);
  }

  /** For a sender alone, from a view that was current: collection pauses
      exactly when a refused addition had moved the cached epoch ahead, the
      sender is at that epoch, and its record is heeded. */
  lemma LoneHeartbeatPausesIff(s: State, sender: Member, self: Origin)
    requires EpochInv(s) && !Behind(s) && sender.nodeId != "" && sender.nodeId != self.nodeId
    ensures Behind(After(s, Beat(Heartbeat(sender, [])), self)) <==>
            s.memory == s.persisted + 1 && sender.epoch == s.memory && Heeded(s.nodes, sender)
  {
    hide Heeded, Merged;
    var bar := Adopted(s, sender.epoch).persisted;
    HeartbeatPausesIff(s, Heartbeat(sender, []), self);
    assert [sender] + [] == [sender] && [sender][..0] == [];
    assert MergedAll(s.nodes, [], self.nodeId) == s.nodes;
    assert AnyLifts(s.nodes, [sender], self.nodeId, bar) <==> Lifts(s.nodes, [sender], self.nodeId, bar, 0);
    assert !AnyAbove(s.nodes, bar);
  }
}
