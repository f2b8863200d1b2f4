/**
  internal/loadbalancer/backend.go: the backends of each service, in slices
  that are appended to and shifted in place, and the copies taken of them.
 */
module Registry {
  import opened Balancing
  import LeastConnection

  /** A Go slice: the first `len` elements of its backing array. */
  datatype Slice = Slice(data: array<Backend>, len: nat)

  /** The sequence without its first backend of the given address. */
  function WithoutFirst(s: seq<Backend>, address: string): (r: seq<Backend>) {
    if s == [] then []
    else if s[0].address == address then s[1..]
    else [s[0]] + WithoutFirst(s[1..], address)
  }

  lemma {:induction false} WithoutFirstAt(s: seq<Backend>, address: string, i: nat)
    requires i < |s| && s[i].address == address
    requires forall j :: 0 <= j < i ==> s[j].address != address
    ensures WithoutFirst(s, address) == s[..i] + s[i + 1..]
  {
    if i > 0 {
      WithoutFirstAt(s[1..], address, i - 1);
      assert s[..i] == [s[0]] + s[1..][..i - 1];
      assert s[1..][i..] == s[i + 1..];
    }
  }

  lemma {:induction false} WithoutFirstMissing(s: seq<Backend>, address: string)
    requires forall j :: 0 <= j < |s| ==> s[j].address != address
    ensures WithoutFirst(s, address) == s
  {
    if s != [] {
      WithoutFirstMissing(s[1..], address);
    }
  }

  // Sequences of registrations and removals, as the contents follow them.

  datatype Change = Add(backend: Backend) | Remove(address: string, service: string)

  /** What a sequence of changes makes of the backends of `service`. */
  function Follow(s: seq<Backend>, changes: seq<Change>, service: string): (s': seq<Backend>) {
    if changes == [] then s else
      var n := |changes| - 1;
      var before := Follow(s, changes[..n], service);
      match changes[n]
      case Add(b) => if b.serviceName == service then before + [b] else before
      case Remove(address, name) => if name == service then WithoutFirst(before, address) else before
  }

  lemma {:induction false} FollowConcat(s: seq<Backend>, a: seq<Change>, b: seq<Change>, service: string)
    ensures Follow(s, a + b, service) == Follow(Follow(s, a, service), b, service)
    decreases |b|
  {
    if b == [] {
      assert a + b == a;
    } else {
      FollowConcat(s, a, b[..|b| - 1], service);
      assert (a + b)[..|a + b| - 1] == a + b[..|b| - 1];
    }
  }

  /** The backends of `service` after a sequence of changes to an empty registry. */
  function After(changes: seq<Change>, service: string): (s: seq<Backend>) {
    Follow([], changes, service)
  }

  lemma {:induction false} WithoutFirstFrom(s: seq<Backend>, address: string, b: Backend)
    requires b in WithoutFirst(s, address)
    ensures b in s
  {
    if s[0].address != address && b != s[0] {
      WithoutFirstFrom(s[1..], address, b);
    }
  }

  /** The `i`-th change adds the backend under the service, and it stays there from then on. */
  ghost predicate AddedAndKept(changes: seq<Change>, service: string, b: Backend, i: nat) {
    && i < |changes| && changes[i] == Add(b) && b.serviceName == service
    && forall k :: i < k <= |changes| ==> b in After(changes[..k], service)
  }

  /** A backend found under a service was added under that service, and not removed since. */
  lemma {:induction false} PresentWasAdded(changes: seq<Change>, service: string, b: Backend) returns (i: nat)
    requires b in After(changes, service)
    ensures AddedAndKept(changes, service, b, i)
    decreases |changes|
  {
    var n := |changes| - 1;
    assert changes[..n + 1] == changes;
    if b in After(changes[..n], service) {
      i := PresentWasAdded(changes[..n], service, b);
      forall k | i < k <= |changes| ensures b in After(changes[..k], service) {
        if k <= n {
          assert changes[..n][..k] == changes[..k];
        }
      }
    } else {
      i := n;
      if changes[n].Remove? && changes[n].service == service {
        WithoutFirstFrom(After(changes[..n], service), changes[n].address, b);
      }
    }
  }

  /** append(s[:i], s[i+1:]...): the tail moves down one place in the same array. */
  method ShiftDown(data: array<Backend>, i: nat, len: nat)
    requires i < len <= data.Length
    modifies data
    ensures forall k :: 0 <= k < len - 1 ==> data[k] == old(data[if k < i then k else k + 1])
    ensures forall k :: len - 1 <= k < data.Length ==> data[k] == old(data[k])
  {
    var j := i;
    while j < len - 1
      invariant i <= j <= len - 1
      invariant forall k :: 0 <= k < i ==> data[k] == old(data[k])
      invariant forall k :: i <= k < j ==> data[k] == old(data[k + 1])
      invariant forall k :: j <= k < data.Length ==> data[k] == old(data[k])
    {
      data[j] := data[j + 1];
      j := j + 1;
    }
  }

  /** The search loop of RemoveBackend. */
  method IndexOf(slice: Slice, address: string) returns (i: nat)
    requires slice.len <= slice.data.Length
    ensures i <= slice.len && forall j :: 0 <= j < i ==> slice.data[j].address != address
    ensures i < slice.len ==> slice.data[i].address == address
  {
    i := 0;
    while i < slice.len && slice.data[i].address != address
      invariant i <= slice.len && forall j :: 0 <= j < i ==> slice.data[j].address != address
    {
      i := i + 1;
    }
  }

  class BackendRegistry {
    var backends: map<string, Slice>
    ghost var Repr: set<array<Backend>>

    constructor ()
      ensures Valid() && backends == map[] && Repr == {}
    {
      backends := map[];
      Repr := {};
    }

    ghost predicate Valid()
      reads this
    {
      && (forall s :: s in backends ==> backends[s].data in Repr && backends[s].len <= backends[s].data.Length)
      && (forall s1, s2 :: s1 in backends && s2 in backends && s1 != s2 ==> backends[s1].data != backends[s2].data)
    }

    /** The backends registered under a service, in order. */
    ghost function Contents(service: string): seq<Backend>
      reads this, Repr
      requires Valid()
    {
      if service in backends then backends[service].data[..backends[service].len] else []
    }

    method AddBackend(backend: Backend)
      requires Valid()
      modifies this, Repr
      ensures Valid() && fresh(Repr - old(Repr))
      ensures Contents(backend.serviceName) == old(Contents(backend.serviceName)) + [backend]
      ensures forall s :: s != backend.serviceName ==> Contents(s) == old(Contents(s))
    {
      var service := backend.serviceName;
      if service in backends && backends[service].len < backends[service].data.Length {
        var slice := backends[service];
        slice.data[slice.len] := backend;
        backends := backends[service := Slice(slice.data, slice.len + 1)];
      } else {
        var grown := Grow(service, backend);
        var len := if service in backends then backends[service].len else 0;
        backends := backends[service := Slice(grown, len + 1)];
        Repr := Repr + {grown};
      }
    }

    /** The reallocation of append: a larger array with the old elements and the new one. */
    method Grow(service: string, backend: Backend) returns (grown: array<Backend>)
      requires Valid()
      ensures fresh(grown) && grown.Length > |Contents(service)|
      ensures grown[..|Contents(service)| + 1] == Contents(service) + [backend]
    {
      if service in backends && backends[service].len > 0 {
        var data, len := backends[service].data, backends[service].len;
        grown := new Backend[2 * len](
          i requires 0 <= i && len <= data.Length reads data => if i < len then data[i] else backend);
      } else {
        grown := new Backend[1](_ => backend);
      }
    }

    method RemoveBackend(address: string, service: string)
      requires Valid()
      modifies this, Repr
      ensures Valid() && Repr == old(Repr)
      ensures Contents(service) == WithoutFirst(old(Contents(service)), address)
      ensures forall s :: s != service ==> Contents(s) == old(Contents(s))
    {
      if service !in backends { return; }
      var slice := backends[service];
      ghost var before := Contents(service);
      var i := IndexOf(slice, address);
      if i < slice.len {
        WithoutFirstAt(before, address, i);
        RemoveAt(service, i);
      } else {
        WithoutFirstMissing(before, address);
      }
    }

    /** The shift in the service's array, and the shorter slice over it. */
    method RemoveAt(service: string, i: nat)
      requires Valid() && service in backends && i < backends[service].len
      modifies this, backends[service].data
      ensures Valid() && Repr == old(Repr)
      ensures Contents(service) == old(Contents(service))[..i] + old(Contents(service))[i + 1..]
      ensures forall s :: s != service ==> Contents(s) == old(Contents(s))
    {
      var data, len := backends[service].data, backends[service].len;
      ShiftDown(data, i, len);
      assert data[..len - 1] == old(data[..len])[..i] + old(data[..len])[i + 1..];
      Shorten(service);
    }

    /** The slice header one element shorter; the arrays stay as they are. */
    method Shorten(service: string)
      requires Valid() && service in backends && backends[service].len > 0
      modifies this
      ensures Valid() && Repr == old(Repr)
      ensures Contents(service) == old(backends[service].data[..backends[service].len - 1])
      ensures forall s :: s != service ==> Contents(s) == old(Contents(s))
    {
      backends := backends[service := Slice(backends[service].data, backends[service].len - 1)];
    }

    /** The copy that NextBackend and doHealthCheck work on. */
    method Snapshot(service: string) returns (copy: array<Backend>)
      requires Valid()
      ensures fresh(copy) && copy[..] == Contents(service)
    {
      if service in backends && backends[service].len > 0 {
        var slice := backends[service];
        copy := new Backend[slice.len](
          i requires 0 <= i < slice.len <= slice.data.Length reads slice.data => slice.data[i]);
      } else {
        copy := new Backend[0];
      }
    }
  }

  /** Any changes to a registry, one after the other. */
  method Apply(registry: BackendRegistry, changes: seq<Change>)
    requires registry.Valid()
    modifies registry, registry.Repr
    ensures registry.Valid() && fresh(registry.Repr - old(registry.Repr))
    ensures forall s :: registry.Contents(s) == Follow(old(registry.Contents(s)), changes, s)
  {
    for k := 0 to |changes|
      invariant registry.Valid() && fresh(registry.Repr - old(registry.Repr))
      invariant forall s :: registry.Contents(s) == Follow(old(registry.Contents(s)), changes[..k], s)
    {
      assert changes[..k + 1][..k] == changes[..k];
      match changes[k] {
        case Add(backend) => registry.AddBackend(backend);
        case Remove(address, service) => registry.RemoveBackend(address, service);
      }
    }
    assert changes[..|changes|] == changes;
  }

  // NextBackend.

  datatype Algorithm = ByTurns(turns: RoundRobin) | ByWeight(weighted: WeightedRoundRobin) | ByLoad

  /** The counters an algorithm keeps. */
  function Counters(algorithm: Algorithm): (objects: set<object>) {
    match algorithm
    case ByTurns(turns) => {turns}
    case ByWeight(weighted) => {weighted}
    case ByLoad => {}
  }

  /** The algorithm has nothing to choose from. */
  ghost predicate NoChoice(algorithm: Algorithm, backends: seq<Backend>)
    reads backends
  {
    match algorithm
    case ByTurns(_) => backends == []
    case ByWeight(weighted) => Sum(WeightsOf(weighted.weights, HealthyOf(backends))) == 0
    case ByLoad => LeastConnection.LeastIndex(LeastConnection.LoadsOf(backends)) < 0
  }

  function CountIn(counters: map<string, nat>, service: string): (n: nat) {
    if service in counters then counters[service] else 0
  }

  /** Round robin: the service's counter moves by one, and its value points to the pick. */
  ghost predicate TurnTaken(backends: seq<Backend>, before: map<string, nat>, after: map<string, nat>,
                            service: string, pick: Backend?)
  {
    if backends == [] then pick == null && after == before else
      var ticket, n := Increment(CountIn(before, service)), Wrapped(|backends|);
      && after == before[service := ticket]
      && 0 < n <= |backends| && pick == backends[ticket % n]
  }

  /** Weighted round robin: likewise, among the healthy backends and by their weights. */
  ghost predicate WeightTaken(weights: seq<Weight>, backends: seq<Backend>, before: map<string, nat>,
                              after: map<string, nat>, service: string, pick: Backend?)
    reads backends
  {
    var healthy := HealthyOf(backends);
    var ws := WeightsOf(weights, healthy);
    var ticket := Increment(CountIn(before, service));
    if backends == [] then pick == null && after == before
    else if Sum(ws) == 0 then pick == null && after == before[service := CountIn(before, service)]
    else
      && after == before[service := ticket] && healthy != []
      && var i := PickIndex(ws, ticket % Sum(ws));
         pick == healthy[if i < |ws| then i else 0]
  }

  /** Least connection: the first healthy backend of least count. */
  ghost predicate LoadTaken(backends: seq<Backend>, pick: Backend?)
    reads backends
  {
    var i := LeastConnection.LeastIndex(LeastConnection.LoadsOf(backends));
    pick == if i < 0 then null else backends[i]
  }

  /** The choice of the algorithm, one of the given backends, and healthy unless taken by turns. */
  method Select(algorithm: Algorithm, backends: seq<Backend>, service: string) returns (pick: Backend?)
    requires algorithm.ByTurns? && backends != [] ==> Wrapped(|backends|) != 0
    modifies Counters(algorithm)
    ensures algorithm.ByTurns? ==>
              TurnTaken(backends, old(algorithm.turns.states), algorithm.turns.states, service, pick)
    ensures algorithm.ByWeight? ==>
              WeightTaken(algorithm.weighted.weights, backends, old(algorithm.weighted.states),
                          algorithm.weighted.states, service, pick)
    ensures algorithm.ByLoad? ==> LoadTaken(backends, pick)
    ensures pick == null <==> NoChoice(algorithm, backends)
    ensures pick != null ==> pick in backends && (pick.healthy || algorithm.ByTurns?)
  {
    hide PickIndex, LeastConnection.LeastIndex;
    match algorithm {
      case ByTurns(turns) =>
        pick := turns.Select(backends, service);
        assert Wrapped(|backends|) <= |backends|;
      case ByWeight(weighted) =>
        ghost var healthy := HealthyOf(backends);
        pick := weighted.Select(backends, service);
        assert HealthyOf(backends) == healthy;
        assert pick != null ==> pick in healthy;
      case ByLoad =>
        pick := LeastConnection.Select(backends);
    }
  }

  /**
    NextBackend: the lock covers the copy alone, and `later` is what other
    callers change before the choice is made from the copy.
   */
  method NextBackend(registry: BackendRegistry, service: string, algorithm: Algorithm, later: seq<Change>)
    returns (copy: array<Backend>, pick: Backend?)
    requires registry.Valid()
    requires algorithm.ByTurns? && registry.Contents(service) != [] ==> Wrapped(|registry.Contents(service)|) != 0
    modifies registry, registry.Repr, Counters(algorithm)
    ensures registry.Valid() && fresh(registry.Repr - old(registry.Repr))
    ensures copy[..] == old(registry.Contents(service))
    ensures forall s :: registry.Contents(s) == Follow(old(registry.Contents(s)), later, s)
    ensures algorithm.ByTurns? ==>
              TurnTaken(copy[..], old(algorithm.turns.states), algorithm.turns.states, service, pick)
    ensures algorithm.ByWeight? ==>
              WeightTaken(algorithm.weighted.weights, copy[..], old(algorithm.weighted.states),
                          algorithm.weighted.states, service, pick)
    ensures algorithm.ByLoad? ==> LoadTaken(copy[..], pick)
    ensures pick == null <==> NoChoice(algorithm, copy[..])
    ensures pick != null ==> pick in old(registry.Contents(service)) && (pick.healthy || algorithm.ByTurns?)
  {
    hide Wrapped, NoChoice, Follow, TurnTaken, WeightTaken, LoadTaken;
    copy := registry.Snapshot(service);
    ghost var backends := copy[..];
    Apply(registry, later);
    assert copy[..] == backends;
    pick := Select(algorithm, copy[..], service);
  }

  /**
    After any changes, and with any changes between the copy and the choice,
    NextBackend returns a backend that was added under the service and stayed
    until the copy was taken.
   */
  method PickAmidChanges(changes: seq<Change>, service: string, algorithm: Algorithm, later: seq<Change>)
    returns (registry: BackendRegistry, copy: array<Backend>, pick: Backend?)
    requires algorithm.ByTurns? && After(changes, service) != [] ==> Wrapped(|After(changes, service)|) != 0
    modifies Counters(algorithm)
    ensures registry.Valid() && forall s :: registry.Contents(s) == After(changes + later, s)
    ensures copy[..] == After(changes, service)
    ensures pick == null <==> NoChoice(algorithm, copy[..])
    ensures pick != null ==> pick.healthy || algorithm.ByTurns?
    ensures pick != null ==> exists i: nat :: AddedAndKept(changes, service, pick, i)
  {
    hide Wrapped, NoChoice, Follow, TurnTaken, WeightTaken, LoadTaken;
    registry := new BackendRegistry();
    Apply(registry, changes);
    copy, pick := NextBackend(registry, service, algorithm, later);
    forall s ensures registry.Contents(s) == After(changes + later, s) {
      FollowConcat([], changes, later, s);
    }
    if pick != null {
      var i := PresentWasAdded(changes, service, pick);
    }
  }
}
