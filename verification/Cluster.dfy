/**
  The objects the controller works on, and the pure parts of
  internal/controller: the service filter, the routing of a requested address,
  the quota and the conflict test.
 */
module Cluster {
  import opened Bytes
  import opened Parse
  import opened Allocator

  datatype Option<+T> = None | Some(value: T)

  const HELIOS_CLASS := "helios-lb"

  /** Namespace and name of an object. */
  datatype Key = Key(ns: string, name: string)

  /** spec.loadBalancerIP: absent, or a text with its outcome under net.ParseIP. */
  datatype Request = NoRequest | Text(parsed: Result<Ip>)

  datatype Service = Service(loadBalancer: bool, lbClass: Option<string>, request: Request, ingress: seq<Ip>)

  /** A HeliosConfig: its spec, the addresses its status records by service name, its metadata. */
  datatype Config = Config(
    range4: Range, range6: Option<Range>, selector: seq<string>, maxAllocations: int,
    alloc4: map<string, Ip>, alloc6: map<string, Ip>,
    finalizer: bool, deleting: bool)

  /** The allocator's pool and the objects of the API server. */
  datatype World = World(used: set<Ip>, configs: map<Key, Config>, services: map<Key, Service>)

  /** A range of one family, from `start` up to `end`. */
  predicate FamilyRange(r: Range, len: nat) {
    && Bounds(r).Ok?
    && |Bounds(r).value.0| == |Bounds(r).value.1| == len
    && Val(Bounds(r).value.0) <= Val(Bounds(r).value.1)
  }

  /** An IPv4 range in the one field, and an IPv6 range in the other if there is one. */
  predicate FamilyCorrect(cfg: Config) {
    FamilyRange(cfg.range4, 4) && (cfg.range6.Some? ==> FamilyRange(cfg.range6.value, 16))
  }

  function Recorded(cfg: Config): (ips: set<Ip>) {
    cfg.alloc4.Values + cfg.alloc6.Values
  }

  /** Everything recorded by configs other than `me`. */
  function Others(configs: map<Key, Config>, me: Key): (ips: set<Ip>) {
    set c, a | c in configs && c != me && a in Recorded(configs[c]) :: a
  }

  // internal/controller/service_filter.go

  predicate NamespaceAllowed(selector: seq<string>, ns: string) {
    selector == [] || ns in selector
  }

  predicate RequestServed(request: Request, range4: Range, range6: Option<Range>) {
    request.Text? ==>
      || IPAllocatable(request.parsed, range4)
      || (range6.Some? && IPAllocatable(request.parsed, range6.value))
  }

  predicate Eligible(key: Key, svc: Service, cfg: Config) {
    && svc.loadBalancer
    && (svc.lbClass.Some? ==> svc.lbClass.value == HELIOS_CLASS)
    && NamespaceAllowed(cfg.selector, key.ns)
    && svc.ingress == []
    && RequestServed(svc.request, cfg.range4, cfg.range6)
  }

  type Listing = seq<(Key, Service)>

  predicate DistinctKeys(listing: Listing) {
    forall i, j :: 0 <= i < j < |listing| ==> listing[i].0 != listing[j].0
  }

  /** The eligible services of a listing, in list order. */
  function EligibleOf(services: Listing, cfg: Config): (result: Listing)
    ensures forall s :: s in result <==> s in services && Eligible(s.0, s.1, cfg)
  {
    if services == [] then [] else
      var n := |services| - 1;
      var rest := EligibleOf(services[..n], cfg);
      if Eligible(services[n].0, services[n].1, cfg) then rest + [services[n]] else rest
  }

  /** The tests of the filter, field by field; without a requested address they are all there is. */
  lemma EligibleByFields(key: Key, svc: Service, cfg: Config)
    ensures Eligible(key, svc, cfg) ==>
              && svc.loadBalancer && svc.lbClass in {None, Some("helios-lb")}
              && (cfg.selector == [] || key.ns in cfg.selector)
              && svc.ingress == []
              && (svc.request.Text? ==> svc.request.parsed.Ok?)
    ensures svc.loadBalancer && svc.lbClass in {None, Some("helios-lb")}
            && (cfg.selector == [] || key.ns in cfg.selector)
            && svc.ingress == [] && svc.request == NoRequest ==>
              Eligible(key, svc, cfg)
  {
  }

  /** How many of the first `i` services of a listing are eligible. */
  function EligibleBefore(listing: Listing, cfg: Config, i: nat): (n: nat)
    requires i <= |listing|
  {
    |set j | 0 <= j < i && Eligible(listing[j].0, listing[j].1, cfg)|
  }

  lemma BeforeStep(listing: Listing, cfg: Config, i: nat)
    requires i < |listing|
    ensures EligibleBefore(listing, cfg, i + 1)
            == EligibleBefore(listing, cfg, i) + if Eligible(listing[i].0, listing[i].1, cfg) then 1 else 0
  {
    hide Eligible;
    var before := set j | 0 <= j < i && Eligible(listing[j].0, listing[j].1, cfg);
    assert (set j | 0 <= j < i + 1 && Eligible(listing[j].0, listing[j].1, cfg))
           == if Eligible(listing[i].0, listing[i].1, cfg) then before + {i} else before;
  }

  lemma {:induction false} BeforeBound(listing: Listing, cfg: Config, i: nat)
    requires i <= |listing|
    ensures EligibleBefore(listing, cfg, i) <= i
  {
    if i > 0 {
      BeforeBound(listing, cfg, i - 1);
      BeforeStep(listing, cfg, i - 1);
    }
  }

  lemma BeforeInFront(listing: Listing, cfg: Config, front: Listing, i: nat)
    requires i <= |front| && front <= listing
    ensures EligibleBefore(listing, cfg, i) == EligibleBefore(front, cfg, i)
  {
    hide Eligible;
    assert (set j | 0 <= j < i && Eligible(listing[j].0, listing[j].1, cfg))
           == (set j | 0 <= j < i && Eligible(front[j].0, front[j].1, cfg));
  }

  /** The place of a service is that of the eligible ones listed before it. */
  predicate AtItsPlace(listing: Listing, cfg: Config, i: nat)
    requires i < |listing|
  {
    && EligibleBefore(listing, cfg, i) < |EligibleOf(listing, cfg)|
    && EligibleOf(listing, cfg)[EligibleBefore(listing, cfg, i)] == listing[i]
  }

  /** Every eligible service is at its place, and nothing else is in the result. */
  lemma {:induction false} EligibleInOrder(listing: Listing, cfg: Config)
    ensures |EligibleOf(listing, cfg)| == EligibleBefore(listing, cfg, |listing|)
    ensures forall i :: 0 <= i < |listing| && Eligible(listing[i].0, listing[i].1, cfg) ==> AtItsPlace(listing, cfg, i)
    decreases |listing|
  {
    hide Eligible, EligibleBefore;
    if listing == [] {
      NoneBefore(cfg);
    } else {
      var n := |listing| - 1;
      var front := listing[..n];
      EligibleInOrder(front, cfg);
      BeforeInFront(listing, cfg, front, n);
      BeforeStep(listing, cfg, n);
      forall i | 0 <= i < |listing| && Eligible(listing[i].0, listing[i].1, cfg) ensures AtItsPlace(listing, cfg, i) {
        if i < n {
          BeforeInFront(listing, cfg, front, i);
          assert front[i] == listing[i] && AtItsPlace(front, cfg, i);
        }
      }
    }
  }

  lemma NoneBefore(cfg: Config)
    ensures EligibleBefore([], cfg, 0) == 0
  {
  }

  lemma {:induction false} EligibleDistinct(listing: Listing, cfg: Config)
    requires DistinctKeys(listing)
    ensures DistinctKeys(EligibleOf(listing, cfg))
    decreases |listing|
  {
    if listing != [] {
      var n := |listing| - 1;
      assert DistinctKeys(listing[..n]);
      EligibleDistinct(listing[..n], cfg);
      var rest, todo := EligibleOf(listing[..n], cfg), EligibleOf(listing, cfg);
      forall i, j | 0 <= i < j < |todo| ensures todo[i].0 != todo[j].0 {
        if j < |rest| {
          assert todo[i] == rest[i] && todo[j] == rest[j];
        } else {
          assert todo[i] == rest[i] && rest[i] in listing[..n];
        }
      }
    }
  }

  lemma {:induction false} EligibleIgnoresMetadata(listing: Listing, a: Config, b: Config)
    requires a.range4 == b.range4 && a.range6 == b.range6 && a.selector == b.selector
    ensures EligibleOf(listing, a) == EligibleOf(listing, b)
    decreases |listing|
  {
    if listing != [] {
      EligibleIgnoresMetadata(listing[..|listing| - 1], a, b);
    }
  }

  /** Every place of the result is that of an eligible service of the listing. */
  lemma PlaceIsListed(listing: Listing, cfg: Config, t: nat) returns (i: nat)
    requires DistinctKeys(listing) && t < |EligibleOf(listing, cfg)|
    ensures i < |listing| && Eligible(listing[i].0, listing[i].1, cfg)
    ensures EligibleBefore(listing, cfg, i) == t && listing[i] == EligibleOf(listing, cfg)[t]
  {
    hide Eligible, EligibleBefore;
    var entry := EligibleOf(listing, cfg)[t];
    i :| 0 <= i < |listing| && listing[i] == entry;
    EligibleInOrder(listing, cfg);
    EligibleDistinct(listing, cfg);
    assert AtItsPlace(listing, cfg, i);
  }

  method FilterEligibleServices(services: Listing, cfg: Config) returns (result: Listing)
    ensures result == EligibleOf(services, cfg)
  {
    var allowed: set<string> := {};
    for i := 0 to |cfg.selector|
      invariant allowed == set j | 0 <= j < i :: cfg.selector[j]
    {
      allowed := allowed + {cfg.selector[i]};
    }
    assert forall ns :: ns in allowed <==> ns in cfg.selector;
    assert allowed == {} <==> cfg.selector == [] by {
      if cfg.selector != [] { assert cfg.selector[0] in allowed; }
    }
    result := [];
    for i := 0 to |services|
      invariant result == EligibleOf(services[..i], cfg)
    {
      assert services[..i + 1][..i] == services[..i];
      var (key, svc) := services[i];
      if !svc.loadBalancer { continue; }
      if svc.lbClass.Some? && svc.lbClass.value != HELIOS_CLASS { continue; }
      if allowed != {} && key.ns !in allowed { continue; }
      if |svc.ingress| > 0 { continue; }
      if svc.request.Text? {
        var in4 := IPAllocatable(svc.request.parsed, cfg.range4);
        var in6 := cfg.range6.Some? && IPAllocatable(svc.request.parsed, cfg.range6.value);
        if !in4 && !in6 { continue; }
      }
      result := result + [services[i]];
    }
    assert services[..|services|] == services;
  }

  // internal/controller/ip_manager.go

  /** Route a requested address to its own family; unparseable text pins neither. */
  function SplitRequest(request: Request): (r: (Option<Ip>, Option<Ip>)) {
    if request.NoRequest? || request.parsed.Err? then (None, None)
    else if |Normalize(request.parsed.value)| == 4 then (Some(request.parsed.value), None)
    else (None, Some(request.parsed.value))
  }

  /** Honor a requested address, or take the next free one. */
  function Choose(used: set<Ip>, range: Range, requested: Option<Ip>, maxScan: nat): (ip: Result<Ip>)
    ensures ip.Ok? && (requested.Some? || !Degenerate(range)) ==> ip.value !in used
    ensures ip.Ok? && requested.Some? ==> ip.value == Normalize(requested.value)
  {
    match requested
    case None => Pick(used, range, maxScan)
    case Some(target) => PickSpecific(used, range, Ok(target))
  }

  /** The conversion int32(len(m)). */
  function Int32(n: nat): (c: int)
    ensures -0x8000_0000 <= c < 0x8000_0000 && (n - c) % 0x1_0000_0000 == 0
  {
    var low := n % 0x1_0000_0000;
    if low < 0x8000_0000 then low else low - 0x1_0000_0000
  }

  predicate QuotaReached(cfg: Config) {
    cfg.maxAllocations > 0 && Int32(|cfg.alloc4|) >= cfg.maxAllocations
  }

  predicate ConflictsWith(cfg: Config, other: Config, ip: Ip) {
    || (ip in other.alloc4.Values && IPInRange(Ok(ip), cfg.range4))
    || (cfg.range6.Some? && ip in other.alloc6.Values && IPInRange(Ok(ip), cfg.range6.value))
  }

  /** The addresses recorded elsewhere that fall into the ranges of `cfg`. */
  function Conflicts(configs: map<Key, Config>, me: Key, cfg: Config): (ips: set<Ip>) {
    set c, ip | c in configs && c != me && ip in Recorded(configs[c]) && ConflictsWith(cfg, configs[c], ip) :: ip
  }
}
