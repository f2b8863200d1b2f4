/** Rounds of NextBackend calls on an unchanged registry. */
module Passes {
  import opened Balancing
  import opened Fairness
  import opened Tickets
  import opened Registry

  lemma FollowNothing(s: seq<Backend>, service: string)
    ensures Follow(s, [], service) == s
  {
  }

  /** A call by turns on ticket `t`. */
  method OneTurn(registry: BackendRegistry, service: string, turns: RoundRobin, ghost list: seq<Backend>, ghost t: nat)
    returns (pick: Backend)
    requires registry.Valid() && registry.Contents(service) == list && 0 < |list| < MODULUS
    requires Increment(turns.Counter(service)) == Wrapped(t)
    modifies registry, registry.Repr, turns
    ensures registry.Valid() && fresh(registry.Repr - old(registry.Repr)) && registry.Contents(service) == list
    ensures pick == list[Wrapped(t) % |list|]
    ensures Increment(turns.Counter(service)) == Wrapped(t + 1)
  {
    hide Wrapped, NoChoice, Follow, LoadTaken, WeightTaken;
    WholeList(|list|);
    var copy, choice := NextBackend(registry, service, ByTurns(turns), []);
    FollowNothing(list, service);
    IncrementOf(0, t);
    pick := choice;
  }

  /** A call by weight on ticket `t`. */
  method OneDraw(registry: BackendRegistry, service: string, balancer: WeightedRoundRobin,
                 ghost list: seq<Backend>, ghost healthy: seq<Backend>, ghost ws: seq<int>, ghost t: nat)
    returns (pick: Backend)
    requires registry.Valid() && registry.Contents(service) == list
    requires healthy == HealthyOf(list) && ws == WeightsOf(balancer.weights, healthy) && Positive(ws) && ws != []
    requires Increment(balancer.Counter(service)) == Wrapped(t)
    modifies registry, registry.Repr, balancer
    ensures registry.Valid() && fresh(registry.Repr - old(registry.Repr)) && registry.Contents(service) == list
    ensures 0 <= Chosen(ws, Ticket, t) < |healthy| && pick == healthy[Chosen(ws, Ticket, t)]
    ensures Increment(balancer.Counter(service)) == Wrapped(t + 1)
  {
    hide Wrapped, NoChoice, Follow, LoadTaken, TurnTaken, HealthyOf, WeightsOf, PickIndex, Chosen;
    hide EffectiveWeight, Configured;
    SelectPicksNext(ws, balancer.Counter(service));
    DrawIs(ws, balancer.Counter(service), t);
    var copy, choice := NextBackend(registry, service, ByWeight(balancer), []);
    FollowNothing(list, service);
    IncrementOf(0, t);
    pick := choice;
  }

  lemma DrawIs(ws: seq<int>, counter: nat, t: nat)
    requires Increment(counter) == Wrapped(t)
    ensures Chosen(ws, Ticket, counter + 1) == Chosen(ws, Ticket, t)
  {
    WrappedPick(ws, counter + 1);
    WrappedPick(ws, t);
  }

  /**
    By turns, as many calls as the service has backends return the backend of
    every place once, over a window that does not show the wrap of the counter.
   */
  method TurnsPass(registry: BackendRegistry, service: string, turns: RoundRobin)
    returns (picks: seq<Backend>, ghost places: seq<int>)
    requires registry.Valid() && 0 < |registry.Contents(service)| < MODULUS
    requires Regular(|registry.Contents(service)|, turns.Counter(service) + 1)
    modifies registry, registry.Repr, turns
    ensures registry.Valid() && registry.Contents(service) == old(registry.Contents(service))
    ensures var list := old(registry.Contents(service));
            && |picks| == |places| == |list|
            && (forall j :: 0 <= j < |picks| ==> 0 <= places[j] < |list| && picks[j] == list[places[j]])
            && (forall i :: 0 <= i < |list| ==> multiset(places)[i] == 1)
  {
    hide Wrapped, Regular, Tally, Chosen, Follow, NoChoice, Ones, Sum;
    var snapshot := registry.Snapshot(service);
    var n := snapshot.Length;
    ghost var list, count := snapshot[..], turns.Counter(service);
    OnesSum(n);
    picks, places := [], [];
    for j := 0 to n
      invariant registry.Valid() && fresh(registry.Repr - old(registry.Repr)) && registry.Contents(service) == list
      invariant Increment(turns.Counter(service)) == Wrapped(count + j + 1)
      invariant |picks| == |places| == j
      invariant forall i :: 0 <= i < j ==> places[i] == Chosen(Ones(n), Ticket, count + i + 1)
      invariant forall i :: 0 <= i < j ==> 0 <= places[i] < n && picks[i] == list[places[i]]
    {
      var pick := OneTurn(registry, service, turns, list, count + j + 1);
      TurnIsPlace(n, count + j + 1);
      picks, places := picks + [pick], places + [Chosen(Ones(n), Ticket, count + j + 1)];
    }
    FairPlaces(Ones(n), count, places);
  }

  lemma NotEmpty(ws: seq<int>)
    requires Sum(ws) > 0
    ensures ws != []
  {
  }

  lemma WholeList(n: nat)
    requires n < MODULUS
    ensures Wrapped(n) == n
  {
  }

  lemma TurnIsPlace(n: nat, t: nat)
    requires 0 < n
    ensures Chosen(Ones(n), Ticket, t) == Wrapped(t) % n
  {
    RoundRobinIsUnitWeights(n, t);
  }

  method Draws(registry: BackendRegistry, service: string, balancer: WeightedRoundRobin, n: nat,
               ghost list: seq<Backend>, ghost healthy: seq<Backend>, ghost ws: seq<int>)
    returns (picks: seq<Backend>, ghost places: seq<int>)
    requires registry.Valid() && registry.Contents(service) == list
    requires healthy == HealthyOf(list) && ws == WeightsOf(balancer.weights, healthy)
    requires Positive(ws) && ws != [] && Sum(ws) > 0
    modifies registry, registry.Repr, balancer
    ensures registry.Valid() && registry.Contents(service) == old(registry.Contents(service))
    ensures |picks| == |places| == n
    ensures forall j :: 0 <= j < n ==> places[j] == Chosen(ws, Ticket, old(balancer.Counter(service)) + j + 1)
    ensures forall j :: 0 <= j < n ==> 0 <= places[j] < |healthy| && picks[j] == healthy[places[j]]
  {
    hide HealthyOf, WeightsOf, Wrapped, Chosen, Sum, Positive;
    ghost var count := balancer.Counter(service);
    picks, places := [], [];
    for j := 0 to n
      invariant registry.Valid() && fresh(registry.Repr - old(registry.Repr)) && registry.Contents(service) == list
      invariant healthy == HealthyOf(list) && ws == WeightsOf(balancer.weights, healthy)
      invariant Increment(balancer.Counter(service)) == Wrapped(count + j + 1)
      invariant |picks| == |places| == j
      invariant forall i :: 0 <= i < j ==> places[i] == Chosen(ws, Ticket, count + i + 1)
      invariant forall i :: 0 <= i < j ==> 0 <= places[i] < |healthy| && picks[i] == healthy[places[i]]
    {
      var pick := OneDraw(registry, service, balancer, list, healthy, ws, count + j + 1);
      picks, places := picks + [pick], places + [Chosen(ws, Ticket, count + j + 1)];
    }
  }

  /**
    By weight, as many calls as the healthy weights add up to return every
    healthy backend exactly its weight times, over such a window.
   */
  method WeightPass(registry: BackendRegistry, service: string, balancer: WeightedRoundRobin)
    returns (picks: seq<Backend>, ghost places: seq<int>)
    requires registry.Valid()
    requires forall i :: 0 <= i < |balancer.weights| ==> balancer.weights[i].weight >= 0
    requires forall i :: 0 <= i < |registry.Contents(service)| ==> registry.Contents(service)[i].weight >= 0
    requires var ws := WeightsOf(balancer.weights, HealthyOf(registry.Contents(service)));
             Sum(ws) > 0 && Regular(Sum(ws), balancer.Counter(service) + 1)
    modifies registry, registry.Repr, balancer
    ensures registry.Valid() && registry.Contents(service) == old(registry.Contents(service))
    ensures var healthy := HealthyOf(old(registry.Contents(service)));
            && |picks| == |places| == Sum(WeightsOf(balancer.weights, healthy))
            && (forall j :: 0 <= j < |picks| ==> 0 <= places[j] < |healthy| && picks[j] == healthy[places[j]])
            && (forall i :: 0 <= i < |healthy| ==>
                  Configured(balancer.weights, healthy[i].serviceName, healthy[i].weight, multiset(places)[i]))
  {
    hide HealthyOf, WeightsOf, Regular, Configured, EffectiveWeight, Chosen, Sum, Positive;
    var snapshot := registry.Snapshot(service);
    ghost var list, count := snapshot[..], balancer.Counter(service);
    assert list == old(registry.Contents(service));
    var healthy, ws, total := balancer.Collect(snapshot[..]);
    WeightsArePositive(balancer.weights, list, healthy);
    NotEmpty(ws);
    picks, places := Draws(registry, service, balancer, total, list, healthy, ws);
    FairPlaces(ws, count, places);
    assert HealthyOf(list) == healthy;
  }
}
