/**
  internal/loadbalancer/algorithms.go: the least-connection choice, and the
  balance it keeps when each pick is followed by an increment.
 */
module LeastConnection {
  import opened Bytes
  import opened Balancing

  /** What Select reads of a backend. */
  datatype Load = Load(healthy: bool, count: int)

  /** The index of the choice, or -1: the first healthy backend of least count, below MaxInt32. */
  function LeastIndex(loads: seq<Load>): (i: int)
    ensures -1 <= i < |loads|
    ensures i >= 0 ==>
              && loads[i].healthy && loads[i].count < MAX_INT32
              && (forall j :: 0 <= j < |loads| && loads[j].healthy ==> loads[i].count <= loads[j].count)
              && (forall j :: 0 <= j < i && loads[j].healthy ==> loads[i].count < loads[j].count)
    ensures i < 0 <==> forall j :: 0 <= j < |loads| && loads[j].healthy ==> loads[j].count >= MAX_INT32
  {
    if loads == [] then -1 else
      var n := |loads| - 1;
      var best := LeastIndex(loads[..n]);
      var limit := if best < 0 then MAX_INT32 else loads[best].count;
      assert forall j :: 0 <= j < n ==> loads[..n][j] == loads[j];
      if loads[n].healthy && loads[n].count < limit then n else best
  }

  function LoadsOf(backends: seq<Backend>): (loads: seq<Load>)
    reads backends
    ensures |loads| == |backends|
    ensures forall i :: 0 <= i < |loads| ==> loads[i] == Load(backends[i].healthy, backends[i].connections)
  {
    seq(|backends|, i requires 0 <= i < |backends| reads backends => Load(backends[i].healthy, backends[i].connections))
  }

  method Select(backends: seq<Backend>) returns (pick: Backend?)
    ensures pick == if LeastIndex(LoadsOf(backends)) < 0 then null else backends[LeastIndex(LoadsOf(backends))]
  {
    pick := null;
    var leastConn := MAX_INT32;
    ghost var best := -1;
    for i := 0 to |backends|
      invariant best == LeastIndex(LoadsOf(backends)[..i])
      invariant pick == if best < 0 then null else backends[best]
      invariant leastConn == if best < 0 then MAX_INT32 else backends[best].connections
    {
      assert LoadsOf(backends)[..i + 1][..i] == LoadsOf(backends)[..i];
      if !backends[i].healthy { continue; }
      if backends[i].connections < leastConn {
        leastConn := backends[i].connections;
        pick := backends[i];
        best := i;
      }
    }
    assert LoadsOf(backends)[..|backends|] == LoadsOf(backends);
  }

  /** atomic.AddInt32(&b.Connections, 1). */
  method IncrementConnections(backend: Backend)
    requires -0x8000_0000 <= backend.connections <= MAX_INT32
    modifies backend
    ensures backend.connections
            == if old(backend.connections) == MAX_INT32 then -0x8000_0000 else old(backend.connections) + 1
    ensures backend.healthy == old(backend.healthy)
  {
    backend.connections := if backend.connections == MAX_INT32 then -0x8000_0000 else backend.connections + 1;
  }

  // Greedy runs.

  /** A pick followed by its increment; nothing happens when there is no pick. */
  function PickAndCount(loads: seq<Load>): (loads': seq<Load>)
    ensures |loads'| == |loads|
    ensures forall i :: 0 <= i < |loads| ==> loads'[i].healthy == loads[i].healthy
  {
    var i := LeastIndex(loads);
    if i < 0 then loads else loads[i := loads[i].(count := loads[i].count + 1)]
  }

  function Greedy(loads: seq<Load>, k: nat): (loads': seq<Load>)
    ensures |loads'| == |loads|
    ensures forall i :: 0 <= i < |loads| ==> loads'[i].healthy == loads[i].healthy
  {
    if k == 0 then loads else PickAndCount(Greedy(loads, k - 1))
  }

  /** Healthy counts differ by at most `d`. */
  predicate SpreadWithin(loads: seq<Load>, d: int) {
    forall i, j :: 0 <= i < |loads| && 0 <= j < |loads| && loads[i].healthy && loads[j].healthy ==>
      loads[i].count - loads[j].count <= d
  }

  lemma {:induction false} SpreadNeverGrows(loads: seq<Load>, d: int, k: nat)
    requires SpreadWithin(loads, d) && d >= 1
    ensures SpreadWithin(Greedy(loads, k), d)
  {
    if k > 0 {
      SpreadNeverGrows(loads, d, k - 1);
    }
  }

  /** How many increments the healthy counts lack to reach `m`. */
  function Deficit(loads: seq<Load>, m: int): int {
    if loads == [] then 0
    else Deficit(loads[..|loads| - 1], m) + if loads[|loads| - 1].healthy then m - loads[|loads| - 1].count else 0
  }

  predicate AtMost(loads: seq<Load>, m: int) {
    forall i :: 0 <= i < |loads| && loads[i].healthy ==> loads[i].count <= m
  }

  predicate Level(loads: seq<Load>, m: int) {
    forall i :: 0 <= i < |loads| && loads[i].healthy ==> loads[i].count == m
  }

  lemma {:induction false} DeficitZero(loads: seq<Load>, m: int)
    requires AtMost(loads, m)
    ensures Deficit(loads, m) >= 0
    ensures Deficit(loads, m) == 0 <==> Level(loads, m)
  {
    if loads != [] {
      var n := |loads| - 1;
      assert forall i :: 0 <= i < n ==> loads[..n][i] == loads[i];
      DeficitZero(loads[..n], m);
      if Level(loads, m) {
        assert Level(loads[..n], m);
      }
    }
  }

  lemma {:induction false} DeficitUpdate(loads: seq<Load>, m: int, i: nat)
    requires i < |loads| && loads[i].healthy
    ensures Deficit(loads[i := loads[i].(count := loads[i].count + 1)], m) == Deficit(loads, m) - 1
    decreases |loads|
  {
    var n := |loads| - 1;
    var loads' := loads[i := loads[i].(count := loads[i].count + 1)];
    if i == n {
      assert loads'[..n] == loads[..n];
    } else {
      DeficitUpdate(loads[..n], m, i);
      assert loads'[..n] == loads[..n][i := loads[i].(count := loads[i].count + 1)];
    }
  }

  /**
    Greedy balance: from healthy counts of at most m, every pick closes one unit
    of the deficit until none is left; so all healthy counts equal m after
    exactly the initial deficit in picks, and not before.
   */
  lemma {:induction false} LevelsExactly(loads: seq<Load>, m: int, k: nat)
    requires AtMost(loads, m) && m <= MAX_INT32 && k <= Deficit(loads, m)
    ensures AtMost(Greedy(loads, k), m)
    ensures Deficit(Greedy(loads, k), m) == Deficit(loads, m) - k
    ensures Level(Greedy(loads, k), m) <==> k == Deficit(loads, m)
  {
    if k > 0 {
      LevelsExactly(loads, m, k - 1);
      DeficitStep(Greedy(loads, k - 1), m);
    }
    DeficitZero(Greedy(loads, k), m);
  }

  /** While some healthy count is below m, a pick raises one that is. */
  lemma DeficitStep(loads: seq<Load>, m: int)
    requires AtMost(loads, m) && m <= MAX_INT32 && !Level(loads, m)
    ensures AtMost(PickAndCount(loads), m) && Deficit(PickAndCount(loads), m) == Deficit(loads, m) - 1
  {
    hide Deficit;
    DeficitUpdate(loads, m, LeastIndex(loads));
  }

  /** The methods take the steps of Greedy; an object listed twice is counted at both places. */
  method SelectAndCount(backends: seq<Backend>) returns (pick: Backend?)
    requires forall i :: 0 <= i < |backends| ==> -0x8000_0000 <= backends[i].connections <= MAX_INT32
    modifies backends
    ensures var least := LeastIndex(old(LoadsOf(backends)));
            pick == if least < 0 then null else backends[least]
    ensures forall i :: 0 <= i < |backends| ==>
              && backends[i].healthy == old(backends[i].healthy)
              && backends[i].connections == old(backends[i].connections) + if backends[i] == pick then 1 else 0
    ensures (forall i, j :: 0 <= i < j < |backends| ==> backends[i] != backends[j]) ==>
              LoadsOf(backends) == PickAndCount(old(LoadsOf(backends)))
  {
    hide LeastIndex;
    pick := Select(backends);
    if pick != null {
      IncrementConnections(pick);
    }
  }
}
