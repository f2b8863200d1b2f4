/**
  internal/loadbalancer/algorithms.go: weighted and plain round robin over a
  32-bit counter.
 */
module Balancing {

  const MODULUS := 0x1_0000_0000

  /** A count as a uint32 holds it. */
  function Wrapped(count: nat): (c: nat)
    ensures c < MODULUS
  {
    count % MODULUS
  }

  /** atomic.AddUint32(&c, 1). */
  function Increment(counter: nat): (next: nat) { Wrapped(counter + 1) }

  class Backend {
    const address: string
    const serviceName: string
    const weight: int
    var healthy: bool
    var connections: int

    constructor (address: string, serviceName: string, weight: int, healthy: bool)
      ensures this.address == address && this.serviceName == serviceName && this.weight == weight
      ensures this.healthy == healthy && this.connections == 0
    {
      this.address := address;
      this.serviceName := serviceName;
      this.weight := weight;
      this.healthy := healthy;
      this.connections := 0;
    }
  }

  datatype Weight = Weight(serviceName: string, weight: int)

  function Sum(ws: seq<int>): int {
    if ws == [] then 0 else ws[0] + Sum(ws[1..])
  }

  lemma {:induction false} SumAppend(ws: seq<int>, w: int)
    ensures Sum(ws + [w]) == Sum(ws) + w
  {
    if ws != [] {
      assert (ws + [w])[1..] == ws[1..] + [w];
      SumAppend(ws[1..], w);
    } else {
      assert ws + [w] == [w];
    }
  }

  predicate Positive(ws: seq<int>) {
    forall i :: 0 <= i < |ws| ==> ws[i] >= 1
  }

  /** Where walking down the weights from `point` goes below zero; |ws| if it never does. */
  function PickIndex(ws: seq<int>, point: int): (i: nat)
    ensures i <= |ws|
  {
    if ws == [] || point < ws[0] then 0 else 1 + PickIndex(ws[1..], point - ws[0])
  }

  predicate FirstEntry(table: seq<Weight>, serviceName: string, i: int) {
    && 0 <= i < |table| && table[i].serviceName == serviceName
    && forall j :: 0 <= j < i ==> table[j].serviceName != serviceName
  }

  /** `w` is what the first entry of the service says, or without one the backend itself; zero counts as one. */
  ghost predicate Configured(table: seq<Weight>, serviceName: string, own: int, w: int) {
    && (forall i :: FirstEntry(table, serviceName, i) ==>
          w == if table[i].weight == 0 then 1 else table[i].weight)
    && ((forall i :: 0 <= i < |table| ==> table[i].serviceName != serviceName) ==>
          w == if own == 0 then 1 else own)
  }

  /** The weight of a backend. */
  function EffectiveWeight(table: seq<Weight>, serviceName: string, own: int): (w: int)
    ensures Configured(table, serviceName, own, w)
  {
    assert forall i :: FirstEntry(table, serviceName, i) && i > 0 ==> FirstEntry(table[1..], serviceName, i - 1);
    if table == [] then (if own == 0 then 1 else own)
    else if table[0].serviceName == serviceName then (if table[0].weight == 0 then 1 else table[0].weight)
    else EffectiveWeight(table[1..], serviceName, own)
  }

  lemma {:induction false} EffectiveIsPositive(table: seq<Weight>, serviceName: string, own: int)
    requires own >= 0 && forall i :: 0 <= i < |table| ==> table[i].weight >= 0
    ensures EffectiveWeight(table, serviceName, own) >= 1
  {
    if table != [] && table[0].serviceName != serviceName {
      EffectiveIsPositive(table[1..], serviceName, own);
    }
  }

  method ResolveWeight(table: seq<Weight>, backend: Backend) returns (w: int)
    ensures Configured(table, backend.serviceName, backend.weight, w)
    ensures w == EffectiveWeight(table, backend.serviceName, backend.weight)
  {
    w := backend.weight;
    var i := 0;
    while i < |table|
      invariant 0 <= i <= |table| && w == backend.weight
      invariant EffectiveWeight(table, backend.serviceName, backend.weight)
                == EffectiveWeight(table[i..], backend.serviceName, backend.weight)
    {
      assert table[i..][1..] == table[i + 1..];
      if table[i].serviceName == backend.serviceName {
        w := table[i].weight;
        break;
      }
      i := i + 1;
    }
    if w == 0 { w := 1; }
  }

  /** The healthy backends, in order. */
  ghost function HealthyOf(backends: seq<Backend>): (healthy: seq<Backend>)
    reads backends
    ensures forall i :: 0 <= i < |healthy| ==> healthy[i] in backends && healthy[i].healthy
    ensures forall i :: 0 <= i < |backends| && backends[i].healthy ==> backends[i] in healthy
  {
    if backends == [] then [] else
      var n := |backends| - 1;
      var rest := HealthyOf(backends[..n]);
      if backends[n].healthy then rest + [backends[n]] else rest
  }

  /** How many of the first `i` backends are healthy. */
  ghost function HealthyBefore(backends: seq<Backend>, i: nat): (n: nat)
    requires i <= |backends|
    reads backends
  {
    |set j | 0 <= j < i && backends[j].healthy|
  }

  lemma HealthyStep(backends: seq<Backend>, i: nat)
    requires i < |backends|
    ensures HealthyBefore(backends, i + 1) == HealthyBefore(backends, i) + if backends[i].healthy then 1 else 0
  {
    var before := set j | 0 <= j < i && backends[j].healthy;
    assert (set j | 0 <= j < i + 1 && backends[j].healthy) == if backends[i].healthy then before + {i} else before;
  }

  lemma HealthyInFront(backends: seq<Backend>, front: seq<Backend>, i: nat)
    requires i <= |front| && front <= backends
    ensures HealthyBefore(backends, i) == HealthyBefore(front, i)
  {
    assert (set j | 0 <= j < i && backends[j].healthy) == (set j | 0 <= j < i && front[j].healthy);
  }

  /** The place of a backend is that of the healthy ones listed before it. */
  ghost predicate HealthyPlace(backends: seq<Backend>, i: nat)
    requires i < |backends|
    reads backends
  {
    && HealthyBefore(backends, i) < |HealthyOf(backends)|
    && HealthyOf(backends)[HealthyBefore(backends, i)] == backends[i]
  }

  /** Every healthy backend is at its place, and nothing else is in the result. */
  lemma {:induction false} HealthyInOrder(backends: seq<Backend>)
    ensures |HealthyOf(backends)| == HealthyBefore(backends, |backends|)
    ensures forall i :: 0 <= i < |backends| && backends[i].healthy ==> HealthyPlace(backends, i)
    decreases |backends|
  {
    hide HealthyBefore;
    if backends == [] {
      NoneHealthy();
    } else {
      var n := |backends| - 1;
      var front := backends[..n];
      HealthyInOrder(front);
      HealthyInFront(backends, front, n);
      HealthyStep(backends, n);
      forall i | 0 <= i < |backends| && backends[i].healthy ensures HealthyPlace(backends, i) {
        if i < n {
          HealthyInFront(backends, front, i);
          assert front[i] == backends[i] && HealthyPlace(front, i);
        }
      }
    }
  }

  lemma NoneHealthy()
    ensures HealthyBefore([], 0) == 0
  {
  }

  ghost function WeightsOf(table: seq<Weight>, backends: seq<Backend>): (ws: seq<int>)
    ensures |ws| == |backends|
    ensures forall i :: 0 <= i < |ws| ==> ws[i] == EffectiveWeight(table, backends[i].serviceName, backends[i].weight)
  {
    seq(|backends|, i requires 0 <= i < |backends| =>
      EffectiveWeight(table, backends[i].serviceName, backends[i].weight))
  }

  class RoundRobin {
    /** The counter of each service seen so far. */
    var states: map<string, nat>

    constructor ()
      ensures states == map[]
    {
      states := map[];
    }

    ghost function Counter(serviceName: string): nat
      reads this
    {
      if serviceName in states then states[serviceName] else 0
    }

    /** Plain round robin; unhealthy backends are not skipped, and uint32(len) must not be zero. */
    method Select(backends: seq<Backend>, serviceName: string) returns (pick: Backend?)
      requires backends != [] ==> Wrapped(|backends|) != 0
      modifies this
      ensures backends == [] ==> pick == null && states == old(states)
      ensures backends != [] ==>
                && states == old(states)[serviceName := Increment(old(Counter(serviceName)))]
                && pick == backends[Increment(old(Counter(serviceName))) % Wrapped(|backends|)]
    {
      if |backends| == 0 { return null; }
      if serviceName !in states {
        states := states[serviceName := 0];
      }
      var current := Increment(states[serviceName]);
      states := states[serviceName := current];
      return backends[current % Wrapped(|backends|)];
    }
  }

  class WeightedRoundRobin {
    var states: map<string, nat>
    const weights: seq<Weight>

    constructor (weights: seq<Weight>)
      ensures states == map[] && this.weights == weights
    {
      states := map[];
      this.weights := weights;
    }

    ghost function Counter(serviceName: string): nat
      reads this
    {
      if serviceName in states then states[serviceName] else 0
    }

    method Select(backends: seq<Backend>, serviceName: string) returns (pick: Backend?)
      modifies this
      ensures backends == [] ==> pick == null && states == old(states)
      ensures var healthy := old(HealthyOf(backends));
              var ws := WeightsOf(weights, healthy);
              var ticket := Increment(old(Counter(serviceName)));
              backends != [] ==>
                if Sum(ws) == 0 then
                  && pick == null
                  && states == old(states)[serviceName := old(Counter(serviceName))]
                else
                  && states == old(states)[serviceName := ticket]
                  && healthy != []
                  && var i := PickIndex(ws, ticket % Sum(ws));
                     pick == healthy[if i < |ws| then i else 0]
    {
      hide PickIndex, HealthyOf, WeightsOf, Wrapped;
      if |backends| == 0 { return null; }
      if serviceName !in states {
        states := states[serviceName := 0];
      }
      var healthy, ws, total := Collect(backends);
      if total == 0 { return null; }
      var current := Increment(states[serviceName]);
      states := states[serviceName := current];
      // A non-negative dividend has one remainder here and in Go, whatever the sign of the divisor.
      pick := Walk(healthy, ws, current % total);
    }

    /** The healthy backends with their weights and the total. */
    method Collect(backends: seq<Backend>) returns (healthy: seq<Backend>, ws: seq<int>, total: int)
      ensures healthy == HealthyOf(backends) && ws == WeightsOf(weights, healthy) && total == Sum(ws)
    {
      healthy, ws, total := [], [], 0;
      for i := 0 to |backends|
        invariant healthy == HealthyOf(backends[..i])
        invariant |ws| == |healthy| && ws == WeightsOf(weights, healthy)
        invariant total == Sum(ws)
      {
        assert backends[..i + 1][..i] == backends[..i];
        if backends[i].healthy {
          var w := ResolveWeight(weights, backends[i]);
          healthy := healthy + [backends[i]];
          SumAppend(ws, w);
          ws := ws + [w];
          total := total + w;
        }
      }
      assert backends[..|backends|] == backends;
    }

    /** The last loop of Select, with its fallback. */
    static method Walk(healthy: seq<Backend>, ws: seq<int>, start: int) returns (pick: Backend)
      requires |healthy| == |ws| > 0
      ensures pick == healthy[if PickIndex(ws, start) < |ws| then PickIndex(ws, start) else 0]
    {
      var point := start;
      for i := 0 to |healthy|
        invariant PickIndex(ws, start) == i + PickIndex(ws[i..], point)
      {
        assert ws[i..][1..] == ws[i + 1..];
        point := point - ws[i];
        if point < 0 { return healthy[i]; }
      }
      return healthy[0];
    }
  }
}
