/**
  Concurrent Select calls: under the lock a call finds or creates the counter
  of its service, then draws a ticket with one atomic add. Every schedule.
 */
module Tickets {
  import opened Balancing
  import opened Fairness

  /** Where a call is: before the lock, holding its counter, or done with a ticket. */
  datatype Pc = Entering | Holding(counter: nat) | Done(ticket: nat)

  datatype Call = Call(service: string, pc: Pc)

  /**
    `states` maps services to counters, which are cells of `cells`; `order` is
    the history of the calls in the order of their atomic adds.
   */
  datatype State = State(states: map<string, nat>, cells: seq<nat>, calls: seq<Call>, order: seq<nat>)

  function Step(s: State, t: nat): (s': State)
    requires t < |s.calls|
  {
    var call := s.calls[t];
    match call.pc
    case Entering =>
      if call.service in s.states
      then s.(calls := s.calls[t := call.(pc := Holding(s.states[call.service]))])
      else s.(states := s.states[call.service := |s.cells|], cells := s.cells + [0],
              calls := s.calls[t := call.(pc := Holding(|s.cells|))])
    case Holding(c) =>
      if c < |s.cells|
      then s.(cells := s.cells[c := Increment(s.cells[c])],
              calls := s.calls[t := call.(pc := Done(Increment(s.cells[c])))],
              order := s.order + [t])
      else s
    case Done(_) => s
  }

  function Run(s: State, schedule: seq<nat>): (s': State)
    requires forall i :: 0 <= i < |schedule| ==> schedule[i] < |s.calls|
    ensures |s'.calls| == |s.calls|
  {
    if schedule == [] then s else
      var before := Run(s, schedule[..|schedule| - 1]);
      Step(before, schedule[|schedule| - 1])
  }

  /** The calls of one service, in the order of their adds. */
  function OrderOf(s: State, service: string): (ids: seq<nat>)
    requires forall i :: 0 <= i < |s.order| ==> s.order[i] < |s.calls|
  {
    Filter(s.order, s.calls, service)
  }

  function Filter(order: seq<nat>, calls: seq<Call>, service: string): (ids: seq<nat>)
    requires forall i :: 0 <= i < |order| ==> order[i] < |calls|
    ensures forall i :: 0 <= i < |ids| ==> ids[i] < |calls|
    ensures forall t :: t in ids <==> t in order && calls[t].service == service
  {
    if order == [] then [] else
      var n := |order| - 1;
      var rest := Filter(order[..n], calls, service);
      if calls[order[n]].service == service then rest + [order[n]] else rest
  }

  /** All calls yet to start, and one counter per service that has one. */
  predicate Initial(s: State) {
    && s.order == []
    && (forall t :: 0 <= t < |s.calls| ==> s.calls[t].pc == Entering)
    && (forall name :: name in s.states ==> s.states[name] < |s.cells|)
    && (forall n1, n2 :: n1 in s.states && n2 in s.states && s.states[n1] == s.states[n2] ==> n1 == n2)
    && (forall c :: 0 <= c < |s.cells| ==> s.cells[c] < MODULUS)
  }

  /** The counter a service starts from. */
  function Base(init: State, service: string): (base: nat)
    requires forall name :: name in init.states ==> init.states[name] < |init.cells|
  {
    if service in init.states then init.cells[init.states[service]] else 0
  }

  /** The counters: one cell per service, never replaced once it is there. */
  ghost predicate CountersInv(init: State, s: State) {
    && (forall name :: name in s.states ==> s.states[name] < |s.cells|)
    && (forall n1, n2 :: n1 in s.states && n2 in s.states && s.states[n1] == s.states[n2] ==> n1 == n2)
    && (forall name :: name in init.states ==> name in s.states && s.states[name] == init.states[name])
    && |s.calls| == |init.calls|
    && (forall t :: 0 <= t < |s.calls| ==> s.calls[t].service == init.calls[t].service)
    && (forall t :: 0 <= t < |s.calls| && s.calls[t].pc != Entering ==> s.calls[t].service in s.states)
    && (forall t :: 0 <= t < |s.calls| && s.calls[t].pc.Holding? ==>
          s.calls[t].pc.counter == s.states[s.calls[t].service])
  }

  predicate NoRepeats(ids: seq<nat>) {
    forall i, j :: 0 <= i < j < |ids| ==> ids[i] != ids[j]
  }

  /** The history: exactly the finished calls, once each. */
  ghost predicate OrderInv(s: State) {
    && (forall i :: 0 <= i < |s.order| ==> s.order[i] < |s.calls|)
    && NoRepeats(s.order)
    && (forall t :: 0 <= t < |s.calls| ==> (t in s.order <==> s.calls[t].pc.Done?))
  }

  /** The finished calls of a service drew the tickets after its starting count, in order. */
  ghost predicate TicketsInv(init: State, s: State, service: string)
    requires Initial(init) && CountersInv(init, s) && OrderInv(s)
  {
    var ids := OrderOf(s, service);
    && (forall i :: 0 <= i < |ids| ==>
          s.calls[ids[i]].pc == Done(Wrapped(Base(init, service) + i + 1)))
    && (service in s.states ==> s.cells[s.states[service]] == Wrapped(Base(init, service) + |ids|))
    && (service !in s.states ==> ids == [])
  }

  ghost predicate Inv(init: State, s: State) {
    && Initial(init) && CountersInv(init, s) && OrderInv(s)
    && forall service :: TicketsInv(init, s, service)
  }

  lemma {:induction false} FilterSame(order: seq<nat>, calls: seq<Call>, calls': seq<Call>, service: string)
    requires |calls| == |calls'| && forall t :: 0 <= t < |calls| ==> calls[t].service == calls'[t].service
    requires forall i :: 0 <= i < |order| ==> order[i] < |calls|
    ensures Filter(order, calls, service) == Filter(order, calls', service)
    decreases |order|
  {
    if order != [] {
      FilterSame(order[..|order| - 1], calls, calls', service);
    }
  }

  lemma FilterSnoc(order: seq<nat>, t: nat, calls: seq<Call>, service: string)
    requires forall i :: 0 <= i < |order| ==> order[i] < |calls|
    requires t < |calls|
    ensures Filter(order + [t], calls, service)
            == Filter(order, calls, service) + if calls[t].service == service then [t] else []
  {
    assert (order + [t])[..|order|] == order;
  }

  lemma CountersStep(init: State, s: State, t: nat)
    requires Inv(init, s) && t < |s.calls|
    ensures CountersInv(init, Step(s, t)) && OrderInv(Step(s, t))
  {
    hide TicketsInv;
    var s' := Step(s, t);
    if s.calls[t].pc.Holding? {
      assert t !in s.order;
      assert forall u :: u in s'.order <==> u in s.order || u == t;
    }
  }

  lemma IncrementOf(base: nat, n: nat)
    ensures Increment(Wrapped(base + n)) == Wrapped(base + n + 1)
  {
  }

  /** A step that draws no ticket for the service keeps its counter, or creates it at zero. */
  lemma OtherCounter(init: State, s: State, t: nat, service: string)
    requires CountersInv(init, s) && t < |s.calls|
    requires !(s.calls[t].pc.Holding? && s.calls[t].service == service)
    ensures var s' := Step(s, t);
            if service in s.states then
              && service in s'.states && s'.states[service] < |s'.cells|
              && s'.cells[s'.states[service]] == s.cells[s.states[service]]
            else
              service in s'.states ==> s'.states[service] < |s'.cells| && s'.cells[s'.states[service]] == 0
  {
    hide Increment;
  }

  lemma OtherOrder(s: State, t: nat, service: string)
    requires OrderInv(s) && t < |s.calls| && OrderInv(Step(s, t))
    requires !(s.calls[t].pc.Holding? && s.calls[t].service == service)
    ensures OrderOf(Step(s, t), service) == OrderOf(s, service)
    ensures forall i :: 0 <= i < |OrderOf(s, service)| ==>
              Step(s, t).calls[OrderOf(s, service)[i]] == s.calls[OrderOf(s, service)[i]]
  {
    hide Filter, Increment;
    var s' := Step(s, t);
    FilterSame(s.order, s.calls, s'.calls, service);
    if s.calls[t].pc.Holding? {
      FilterSnoc(s.order, t, s'.calls, service);
    }
    var ids := OrderOf(s, service);
    forall i | 0 <= i < |ids| ensures s'.calls[ids[i]] == s.calls[ids[i]] {
      assert ids[i] in s.order;
    }
  }

  /** A step that draws no ticket for the service leaves its tickets alone. */
  lemma OtherStep(init: State, s: State, t: nat, service: string)
    requires Initial(init) && CountersInv(init, s) && OrderInv(s) && TicketsInv(init, s, service) && t < |s.calls|
    requires CountersInv(init, Step(s, t)) && OrderInv(Step(s, t))
    requires !(s.calls[t].pc.Holding? && s.calls[t].service == service)
    ensures TicketsInv(init, Step(s, t), service)
  {
    hide Step, Filter, Wrapped;
    OtherCounter(init, s, t, service);
    OtherOrder(s, t, service);
    WrappedZero();
  }

  lemma WrappedZero()
    ensures Wrapped(0) == 0
  {
  }

  lemma OwnStep(init: State, s: State, t: nat)
    requires Initial(init) && CountersInv(init, s) && OrderInv(s) && t < |s.calls|
    requires TicketsInv(init, s, s.calls[t].service)
    requires CountersInv(init, Step(s, t)) && OrderInv(Step(s, t))
    requires s.calls[t].pc.Holding?
    ensures TicketsInv(init, Step(s, t), s.calls[t].service)
  {
    hide Wrapped, Filter, Increment;
    var s', service := Step(s, t), s.calls[t].service;
    FilterSame(s.order, s.calls, s'.calls, service);
    FilterSnoc(s.order, t, s'.calls, service);
    var ids := OrderOf(s, service);
    IncrementOf(Base(init, service), |ids|);
    forall i | 0 <= i < |ids| ensures s'.calls[ids[i]] == s.calls[ids[i]] {
      assert ids[i] in s.order && t !in s.order;
    }
  }

  lemma StepKeepsInv(init: State, s: State, t: nat)
    requires Inv(init, s) && t < |s.calls|
    ensures Inv(init, Step(s, t))
  {
    hide Step, Filter, Wrapped;
    CountersStep(init, s, t);
    forall service ensures TicketsInv(init, Step(s, t), service) {
      if s.calls[t].pc.Holding? && s.calls[t].service == service {
        OwnStep(init, s, t);
      } else {
        OtherStep(init, s, t, service);
      }
    }
  }

  lemma InitialInv(init: State)
    requires Initial(init)
    ensures Inv(init, init)
  {
    forall service ensures TicketsInv(init, init, service) {
      assert OrderOf(init, service) == [];
    }
  }

  lemma {:induction false} RunInv(init: State, schedule: seq<nat>)
    requires Initial(init) && forall i :: 0 <= i < |schedule| ==> schedule[i] < |init.calls|
    ensures Inv(init, Run(init, schedule))
    decreases |schedule|
  {
    if schedule == [] {
      InitialInv(init);
    } else {
      var n := |schedule| - 1;
      RunInv(init, schedule[..n]);
      StepKeepsInv(init, Run(init, schedule[..n]), schedule[n]);
    }
  }

  /** A call needs two steps, the find under the lock and the add, and is done after them. */
  lemma {:induction false} TwoStepsFinish(init: State, schedule: seq<nat>, t: nat)
    requires Initial(init) && t < |init.calls| && forall i :: 0 <= i < |schedule| ==> schedule[i] < |init.calls|
    ensures var n, pc := multiset(schedule)[t], Run(init, schedule).calls[t].pc;
            (n == 0 ==> pc.Entering?) && (n == 1 ==> pc.Holding?) && (n >= 2 ==> pc.Done?)
    decreases |schedule|
  {
    hide Increment, TicketsInv, OrderInv, Filter;
    if schedule != [] {
      var n := |schedule| - 1;
      var front := schedule[..n];
      assert schedule == front + [schedule[n]];
      TwoStepsFinish(init, front, t);
      RunInv(init, front);
    }
  }

  /** The picks of k calls one after the other, from a counter at `base`. */
  function Sequential(ws: seq<int>, base: nat, k: nat): (picks: seq<int>)
    requires Sum(ws) > 0
  {
    seq(k, i requires 0 <= i => Chosen(ws, Ticket, base + i + 1))
  }

  /** The picks of the finished calls of a service, in the order of their adds. */
  function Concurrent(ws: seq<int>, s: State, ids: seq<nat>): (picks: seq<int>)
    requires Sum(ws) > 0
    requires forall i :: 0 <= i < |ids| ==> ids[i] < |s.calls| && s.calls[ids[i]].pc.Done?
  {
    seq(|ids|, i requires 0 <= i < |ids| => Chosen(ws, Ticket, s.calls[ids[i]].pc.ticket))
  }

  /**
    Under every schedule, the finished calls of a service, each counted once,
    drew consecutive tickets from one counter; so with fixed weights they made
    the picks of as many calls one after the other, whatever other services did.
   */
  lemma ConcurrentIsSequential(init: State, schedule: seq<nat>, service: string, ws: seq<int>)
    requires Initial(init) && Sum(ws) > 0
    requires forall i :: 0 <= i < |schedule| ==> schedule[i] < |init.calls|
    ensures var s := Run(init, schedule);
            && OrderInv(s) && CountersInv(init, s)
            && var ids := OrderOf(s, service);
               && NoRepeats(ids)
               && (forall t :: t in ids <==> 0 <= t < |s.calls| && s.calls[t].service == service && s.calls[t].pc.Done?)
               && (forall i :: 0 <= i < |ids| ==> s.calls[ids[i]].pc == Done(Wrapped(Base(init, service) + i + 1)))
               && Concurrent(ws, s, ids) == Sequential(ws, Base(init, service), |ids|)
  {
    hide Wrapped, Filter, Chosen, Run;
    RunInv(init, schedule);
    var s := Run(init, schedule);
    assert TicketsInv(init, s, service);
    FilterDistinct(s.order, s.calls, service);
    SamePicks(ws, s, OrderOf(s, service), Base(init, service));
  }

  lemma SamePicks(ws: seq<int>, s: State, ids: seq<nat>, base: nat)
    requires Sum(ws) > 0
    requires forall i :: 0 <= i < |ids| ==> ids[i] < |s.calls| && s.calls[ids[i]].pc == Done(Wrapped(base + i + 1))
    ensures Concurrent(ws, s, ids) == Sequential(ws, base, |ids|)
  {
    forall i | 0 <= i < |ids| ensures Concurrent(ws, s, ids)[i] == Sequential(ws, base, |ids|)[i] {
      WrappedPick(ws, base + i + 1);
    }
  }

  lemma WrappedPick(ws: seq<int>, t: nat)
    ensures Chosen(ws, Ticket, Wrapped(t)) == Chosen(ws, Ticket, t)
  {
    assert Wrapped(t) % MODULUS == t % MODULUS;
  }

  lemma {:induction false} FilterDistinct(order: seq<nat>, calls: seq<Call>, service: string)
    requires forall i :: 0 <= i < |order| ==> order[i] < |calls|
    requires NoRepeats(order)
    ensures NoRepeats(Filter(order, calls, service))
    decreases |order|
  {
    if order != [] {
      var n := |order| - 1;
      FilterDistinct(order[..n], calls, service);
      var rest, ids := Filter(order[..n], calls, service), Filter(order, calls, service);
      forall i, j | 0 <= i < j < |ids| ensures ids[i] != ids[j] {
        assert ids[i] == rest[i] && rest[i] in order[..n];
        if j < |rest| {
          assert ids[j] == rest[j];
        }
      }
    }
  }

  /** One counter per service: a schedule never replaces a counter, nor shares it between services. */
  lemma OneCounterPerService(init: State, schedule: seq<nat>, k: nat)
    requires Initial(init) && forall i :: 0 <= i < |schedule| ==> schedule[i] < |init.calls|
    requires k <= |schedule|
    ensures var early, late := Run(init, schedule[..k]), Run(init, schedule);
            && (forall name :: name in early.states ==> name in late.states && late.states[name] == early.states[name])
            && (forall n1, n2 :: n1 in late.states && n2 in late.states && late.states[n1] == late.states[n2] ==>
                  n1 == n2)
  {
    RunInv(init, schedule);
    CountersStay(init, schedule, k);
  }

  lemma {:induction false} CountersStay(init: State, schedule: seq<nat>, k: nat)
    requires forall i :: 0 <= i < |schedule| ==> schedule[i] < |init.calls|
    requires k <= |schedule|
    ensures forall name :: name in Run(init, schedule[..k]).states ==>
              && name in Run(init, schedule).states
              && Run(init, schedule).states[name] == Run(init, schedule[..k]).states[name]
    decreases |schedule|
  {
    if k == |schedule| {
      assert schedule[..k] == schedule;
    } else {
      var n := |schedule| - 1;
      CountersStay(init, schedule[..n], k);
      assert schedule[..n][..k] == schedule[..k];
    }
  }

  lemma {:induction false} TallyIsMultiplicity(ws: seq<int>, i: int, base: nat, k: nat)
    requires Sum(ws) > 0
    ensures multiset(Sequential(ws, base, k))[i] == Tally(ws, Ticket, i, base + 1, k)
  {
    if k > 0 {
      TallyIsMultiplicity(ws, i, base, k - 1);
      assert Sequential(ws, base, k) == Sequential(ws, base, k - 1) + [Chosen(ws, Ticket, base + k)];
    }
  }

  /**
    Fairness under every interleaving: when as many calls of a service have
    finished as its healthy weights add up to, over a regular window, each
    healthy backend was picked exactly its weight times.
   */
  lemma ConcurrentlyFair(init: State, schedule: seq<nat>, service: string, ws: seq<int>, i: nat)
    requires Initial(init) && Positive(ws) && i < |ws| && Sum(ws) > 0
    requires forall j :: 0 <= j < |schedule| ==> schedule[j] < |init.calls|
    requires OrderInv(Run(init, schedule)) && |OrderOf(Run(init, schedule), service)| == Sum(ws)
    requires Regular(Sum(ws), Base(init, service) + 1)
    ensures multiset(Concurrent(ws, Run(init, schedule), OrderOf(Run(init, schedule), service)))[i] == ws[i]
  {
    hide Run, Filter, Regular, Tally;
    ConcurrentIsSequential(init, schedule, service, ws);
    TallyIsMultiplicity(ws, i, Base(init, service), Sum(ws));
    ExactlyFair(ws, i, Base(init, service) + 1);
  }

  /** What WeightedRoundRobin.Select computes from its counter is the pick of the next ticket. */
  lemma SelectPicksNext(ws: seq<int>, counter: nat)
    requires Positive(ws) && ws != []
    ensures Sum(ws) > 0
    ensures PickIndex(ws, Increment(counter) % Sum(ws)) == Chosen(ws, Ticket, counter + 1) < |ws|
  {
    SumAtLeast(ws);
    WalkEndsInside(ws, Increment(counter) % Sum(ws));
  }

  /** A total weight's worth of calls over a regular window picks every index its weight times. */
  lemma FairPlaces(ws: seq<int>, count: nat, places: seq<int>)
    requires Positive(ws) && Sum(ws) > 0 && Regular(Sum(ws), count + 1)
    requires |places| == Sum(ws) && forall j :: 0 <= j < |places| ==> places[j] == Chosen(ws, Ticket, count + j + 1)
    ensures forall i :: 0 <= i < |ws| ==> multiset(places)[i] == ws[i]
  {
    hide Tally, Regular, Chosen;
    assert places == Sequential(ws, count, Sum(ws));
    forall i | 0 <= i < |ws| ensures multiset(places)[i] == ws[i] {
      TallyIsMultiplicity(ws, i, count, Sum(ws));
      ExactlyFair(ws, i, count + 1);
    }
  }

  /** Positions in a list of distinct backends are picked as often as the backends at them. */
  lemma {:induction false} PlacesAsPicks(healthy: seq<Backend>, places: seq<int>, picks: seq<Backend>, i: nat)
    requires i < |healthy| && |places| == |picks|
    requires forall j, k :: 0 <= j < k < |healthy| ==> healthy[j] != healthy[k]
    requires forall j :: 0 <= j < |places| ==> 0 <= places[j] < |healthy| && picks[j] == healthy[places[j]]
    ensures multiset(picks)[healthy[i]] == multiset(places)[i]
    decreases |places|
  {
    if places != [] {
      var n := |places| - 1;
      PlacesAsPicks(healthy, places[..n], picks[..n], i);
      assert places == places[..n] + [places[n]] && picks == picks[..n] + [picks[n]];
    }
  }

  /**
    Select, as often as the healthy weights add up to: over a regular window
    every healthy backend is returned exactly its weight times, and no other.
   */
  method FairPass(balancer: WeightedRoundRobin, backends: seq<Backend>, service: string)
    returns (picks: seq<Backend>, ghost places: seq<int>)
    requires forall i :: 0 <= i < |balancer.weights| ==> balancer.weights[i].weight >= 0
    requires forall i :: 0 <= i < |backends| ==> backends[i].weight >= 0
    requires var ws := WeightsOf(balancer.weights, HealthyOf(backends));
             Sum(ws) > 0 && Regular(Sum(ws), balancer.Counter(service) + 1)
    modifies balancer
    ensures var healthy := HealthyOf(backends);
            var ws := WeightsOf(balancer.weights, healthy);
            && |picks| == |places| == Sum(ws)
            && (forall j :: 0 <= j < |picks| ==> 0 <= places[j] < |healthy| && picks[j] == healthy[places[j]])
            && (forall i :: 0 <= i < |healthy| ==> multiset(places)[i] == ws[i])
            && (forall i :: 0 <= i < |healthy| ==>
                  Configured(balancer.weights, healthy[i].serviceName, healthy[i].weight, multiset(places)[i]))
            && ((forall i, j :: 0 <= i < j < |healthy| ==> healthy[i] != healthy[j]) ==>
                  forall i :: 0 <= i < |healthy| ==> multiset(picks)[healthy[i]] == ws[i])
  {
    hide HealthyOf, WeightsOf, PickIndex, Wrapped, Chosen, Regular, Tally, Configured, EffectiveWeight;
    var healthy, ws, total := balancer.Collect(backends);
    ghost var count := balancer.Counter(service);
    WeightsArePositive(balancer.weights, backends, healthy);
    picks, places := [], [];
    for j := 0 to total
      invariant HealthyOf(backends) == healthy && WeightsOf(balancer.weights, healthy) == ws
      invariant Increment(balancer.Counter(service)) == Wrapped(count + j + 1)
      invariant |picks| == |places| == j
      invariant forall i :: 0 <= i < j ==> places[i] == Chosen(ws, Ticket, count + i + 1)
      invariant forall i :: 0 <= i < j ==> 0 <= places[i] < |healthy| && picks[i] == healthy[places[i]]
    {
      SelectPicksNext(ws, balancer.Counter(service));
      TicketIsNext(ws, balancer.Counter(service), count + j);
      var pick := balancer.Select(backends, service);
      IncrementOf(count, j + 1);
      picks, places := picks + [pick], places + [Chosen(ws, Ticket, count + j + 1)];
    }
    FairPlaces(ws, count, places);
    if forall i, j :: 0 <= i < j < |healthy| ==> healthy[i] != healthy[j] {
      forall i | 0 <= i < |healthy| ensures multiset(picks)[healthy[i]] == ws[i] {
        PlacesAsPicks(healthy, places, picks, i);
      }
    }
  }

  lemma TicketIsNext(ws: seq<int>, counter: nat, n: nat)
    requires Increment(counter) == Wrapped(n + 1)
    ensures Chosen(ws, Ticket, counter + 1) == Chosen(ws, Ticket, n + 1)
  {
    WrappedPick(ws, counter + 1);
    WrappedPick(ws, n + 1);
  }

  lemma WeightsArePositive(table: seq<Weight>, backends: seq<Backend>, healthy: seq<Backend>)
    requires healthy == HealthyOf(backends)
    requires forall i :: 0 <= i < |table| ==> table[i].weight >= 0
    requires forall i :: 0 <= i < |backends| ==> backends[i].weight >= 0
    ensures Positive(WeightsOf(table, healthy))
  {
    forall i | 0 <= i < |healthy| ensures WeightsOf(table, healthy)[i] >= 1 {
      assert healthy[i] in backends;
      EffectiveIsPositive(table, healthy[i].serviceName, healthy[i].weight);
    }
  }
}
