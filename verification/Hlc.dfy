/** The hybrid logical clock of internal/clock/hlc.go, and what it promises
    over any distributed run. Wall readings are parameters. */
module Hlc {

  datatype HLC = HLC(physical: nat, logical: nat)

  predicate Before(a: HLC, b: HLC) {
    a.physical < b.physical || (a.physical == b.physical && a.logical < b.logical)
  }

  function Compare(a: HLC, b: HLC): (r: int)
    ensures r == -1 <==> Before(a, b)
    ensures r == 1 <==> Before(b, a)
    ensures r == 0 <==> a == b
  {
    if a.physical < b.physical then -1
    else if a.physical > b.physical then 1
    else if a.logical < b.logical then -1
    else if a.logical > b.logical then 1
    else 0
  }

  function Max(a: HLC, b: HLC): (m: HLC)
    ensures m in {a, b} && !Before(m, a) && !Before(m, b)
  {
    if Compare(a, b) >= 0 then a else b
  }

  /** `t` is the earliest timestamp after both `a` and `b` whose physical part
      has reached the wall reading. */
  ghost predicate EarliestAfter(t: HLC, a: HLC, b: HLC, wall: nat) {
    && Before(a, t) && Before(b, t) && wall <= t.physical
    && forall u :: Before(a, u) && Before(b, u) && wall <= u.physical ==> !Before(u, t)
  }

  function TickFrom(c: HLC, wall: nat): (t: HLC)
    ensures EarliestAfter(t, c, c, wall)
  {
    if wall > c.physical then HLC(wall, 0) else HLC(c.physical, c.logical + 1)
  }

  function UpdateFrom(c: HLC, wall: nat, remote: HLC): (t: HLC)
    ensures EarliestAfter(t, c, remote, wall)
  {
    if wall > c.physical && wall > remote.physical then HLC(wall, 0)
    else if c.physical > remote.physical then HLC(c.physical, c.logical + 1)
    else if remote.physical > c.physical then HLC(remote.physical, remote.logical + 1)
    else HLC(c.physical, (if remote.logical > c.logical then remote.logical else c.logical) + 1)
  }

  class Clock {
    var physical: nat
    var logical: nat

    constructor ()
      ensures Load() == HLC(0, 0)
    {
      physical, logical := 0, 0;
    }

    function Load(): HLC
      reads this
    {
      HLC(physical, logical)
    }

    /** Startup: adopts `h` when it is ahead, so a restart reissues nothing. */
    method Restore(h: HLC)
      modifies this
      ensures Load() == Max(old(Load()), h)
    {
      if h.physical > physical || (h.physical == physical && h.logical > logical) {
        physical, logical := h.physical, h.logical;
      }
    }

    method Tick(wall: nat) returns (t: HLC)
      modifies this
      ensures t == Load() == TickFrom(old(Load()), wall)
      ensures EarliestAfter(t, old(Load()), old(Load()), wall)
    {
      if wall > physical {
        physical, logical := wall, 0;
      } else {
        logical := logical + 1;
      }
      t := HLC(physical, logical);
    }

    method Update(wall: nat, remote: HLC) returns (t: HLC)
      modifies this
      ensures t == Load() == UpdateFrom(old(Load()), wall, remote)
      ensures EarliestAfter(t, old(Load()), remote, wall)
    {
      if wall > physical && wall > remote.physical {
        physical, logical := wall, 0;
      } else if physical > remote.physical {
        logical := logical + 1;
      } else if remote.physical > physical {
        physical, logical := remote.physical, remote.logical + 1;
      } else {
        if remote.logical > logical {
          logical := remote.logical;
        }
        logical := logical + 1;
      }
      t := HLC(physical, logical);
    }
  }

  // ----- Distributed runs -----

  /** One clock operation of process `p`: a local stamp, or the observation of
      the stamp that step `source` produced. */
  datatype Step =
    | Stamp(p: nat, wall: nat)
    | Observe(p: nat, wall: nat, source: nat)

  ghost predicate IsRun(run: seq<Step>) {
    forall i :: 0 <= i < |run| && run[i].Observe? ==> run[i].source < i
  }

  /** Process p's clock after the first n steps. */
  ghost function ClockAt(run: seq<Step>, n: nat, p: nat): HLC
    requires IsRun(run) && n <= |run|
    decreases n, 0
  {
    if n == 0 then HLC(0, 0)
    else if run[n - 1].p == p then StampOf(run, n - 1)
    else ClockAt(run, n - 1, p)
  }

  /** The timestamp step i returns. */
  ghost function StampOf(run: seq<Step>, i: nat): HLC
    requires IsRun(run) && i < |run|
    decreases i, 1
  {
    match run[i]
    case Stamp(p, wall) => TickFrom(ClockAt(run, i, p), wall)
    case Observe(p, wall, source) => UpdateFrom(ClockAt(run, i, p), wall, StampOf(run, source))
  }

  ghost predicate Edge(run: seq<Step>, i: nat, j: nat) {
    && i < j < |run|
    && (run[i].p == run[j].p || (run[j].Observe? && run[j].source == i))
  }

  /** A chain of program-order and message edges. */
  ghost predicate Chain(run: seq<Step>, path: seq<nat>) {
    && |path| >= 2
    && forall k :: 0 <= k < |path| - 1 ==> Edge(run, path[k], path[k + 1])
  }

  ghost predicate HappensBefore(run: seq<Step>, i: nat, j: nat) {
    exists path :: Chain(run, path) && path[0] == i && path[|path| - 1] == j
  }

  lemma {:induction false} ClockCoversStamps(run: seq<Step>, i: nat, n: nat)
    requires IsRun(run) && i < n <= |run|
    ensures !Before(ClockAt(run, n, run[i].p), StampOf(run, i))
  {
    if i < n - 1 {
      ClockCoversStamps(run, i, n - 1);
    }
  }

  lemma {:induction false} EdgeOrders(run: seq<Step>, i: nat, j: nat)
    requires IsRun(run) && Edge(run, i, j)
    ensures Before(StampOf(run, i), StampOf(run, j))
  {
    if run[i].p == run[j].p {
      ClockCoversStamps(run, i, j);
    }
  }

  lemma {:induction false} ChainOrders(run: seq<Step>, path: seq<nat>)
    requires IsRun(run) && Chain(run, path)
    ensures path[0] < |run| && path[|path| - 1] < |run|
    ensures Before(StampOf(run, path[0]), StampOf(run, path[|path| - 1]))
  {
    var last := |path| - 1;
    assert Edge(run, path[last - 1], path[last]);
    EdgeOrders(run, path[last - 1], path[last]);
    if last > 1 {
      var init := path[..last];
      assert forall k :: 0 <= k < |init| - 1 ==> Edge(run, init[k], init[k + 1]);
      ChainOrders(run, init);
    }
  }

  /** Causality: whatever happens before carries the strictly smaller stamp. */
  lemma HappensBeforeOrdersStamps(run: seq<Step>, i: nat, j: nat)
    requires IsRun(run) && HappensBefore(run, i, j)
    ensures i < |run| && j < |run| && Before(StampOf(run, i), StampOf(run, j))
  {
    var path :| Chain(run, path) && path[0] == i && path[|path| - 1] == j;
    ChainOrders(run, path);
  }

  ghost predicate WallsUpTo(run: seq<Step>, n: nat, top: nat)
    requires n <= |run|
  {
    forall i :: 0 <= i < n ==> run[i].wall <= top
  }

  /** Physical time never runs ahead of the largest wall reading taken so far
      anywhere, and the logical counter never exceeds the steps taken. */
  lemma {:induction false} StampBounds(run: seq<Step>, i: nat, top: nat)
    requires IsRun(run) && i < |run| && WallsUpTo(run, i + 1, top)
    ensures StampOf(run, i).physical <= top && StampOf(run, i).logical <= i + 1
    decreases i, 1
  {
    ClockBounds(run, i, run[i].p, top);
    if run[i].Observe? {
      StampBounds(run, run[i].source, top);
    }
  }

  lemma {:induction false} ClockBounds(run: seq<Step>, n: nat, p: nat, top: nat)
    requires IsRun(run) && n <= |run| && WallsUpTo(run, n, top)
    ensures ClockAt(run, n, p).physical <= top && ClockAt(run, n, p).logical <= n
    decreases n, 0
  {
    if n > 0 {
      if run[n - 1].p == p {
        StampBounds(run, n - 1, top);
      } else {
        ClockBounds(run, n - 1, p, top);
      }
    }
  }
}
