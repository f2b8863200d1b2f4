/**
  What one call of the IP manager and one step of a reconcile do to the world.
  API reads and writes succeed or fail as the last argument says.
 */
module Manager {
  import opened Parse
  import opened Allocator
  import opened Cluster

  /**
    Outcome of assignIPToService on an existing service: both writes landed,
    none did, or only the ingress did and the call still failed.
   */
  datatype AssignOutcome = Assigned | Untouched | HalfWritten

  datatype CallApi = CallApi(listOk: bool, assign: AssignOutcome, statusOk: bool)

  const ALL_OK := CallApi(true, Assigned, true)

  type Pair = (Ip, Option<Ip>)

  function IngressOf(ips: Pair): (ingress: seq<Ip>) {
    match ips.1 case None => [ips.0] case Some(ip6) => [ips.0, ip6]
  }

  function AddressesOf(ips: Pair): (set<Ip>) {
    match ips.1 case None => {ips.0} case Some(ip6) => {ips.0, ip6}
  }

  /** The pool once the addresses of all other configs are marked. */
  function Marked(w: World, me: Key): (ips: set<Ip>) {
    w.used + Others(w.configs, me)
  }

  /** The addresses one call would take from a pool: IPv4, then IPv6 on a dual-stack config. */
  function ChoosePair(pool: set<Ip>, cfg: Config, request: Request, maxScan: nat): (r: Result<Pair>) {
    var (want4, want6) := SplitRequest(request);
    match Choose(pool, cfg.range4, want4, maxScan)
    case Err => Err
    case Ok(ip) =>
      if cfg.range6.None? then Ok((ip, None)) else
        match Choose(pool + {ip}, cfg.range6.value, want6, maxScan)
        case Err => Err
        case Ok(ip6) => Ok((ip, Some(ip6)))
  }

  /** The address taken for IPv4 and given back when IPv6 then fails. */
  function GivenBack(pool: set<Ip>, cfg: Config, request: Request, maxScan: nat): (ips: set<Ip>) {
    match Choose(pool, cfg.range4, SplitRequest(request).0, maxScan)
    case Err => {}
    case Ok(ip) => {ip}
  }

  /** assignIPToService: the status write, then the spec write. */
  function AssignTo(services: map<Key, Service>, key: Key, ips: Pair, outcome: AssignOutcome)
    : (services': map<Key, Service>)
  {
    if key !in services || outcome.Untouched? then services
    else if outcome.HalfWritten? then services[key := services[key].(ingress := IngressOf(ips))]
    else services[key := services[key].(ingress := IngressOf(ips), lbClass := Some(HELIOS_CLASS))]
  }

  /** AllocateAndAssign for the config copy `cfg` of `me` and a listed service. */
  function AllocateAndAssign(w: World, me: Key, cfg: Config, key: Key, request: Request, maxScan: nat, api: CallApi)
    : (r: (World, Result<Pair>))
  {
    if !api.listOk then (w, Err) else
      var pool := Marked(w, me);
      match ChoosePair(pool, cfg, request, maxScan)
      case Err => (w.(used := pool - GivenBack(pool, cfg, request, maxScan)), Err)
      case Ok(ips) =>
        var services := AssignTo(w.services, key, ips, api.assign);
        if key in w.services && api.assign.Assigned?
        then (w.(used := pool + AddressesOf(ips), services := services), Ok(ips))
        else (w.(used := pool + AddressesOf(ips) - AddressesOf(ips), services := services), Err)
  }

  function Record(cfg: Config, name: string, ips: Pair): (cfg': Config) {
    cfg.(alloc4 := cfg.alloc4[name := ips.0],
         alloc6 := match ips.1 case None => cfg.alloc6 case Some(ip6) => cfg.alloc6[name := ip6])
  }

  function ClearIngress(services: map<Key, Service>, ns: string, names: set<string>): (services': map<Key, Service>) {
    map k | k in services ::
      if k.ns == ns && k.name in names then services[k].(ingress := []) else services[k]
  }

  /** ReleaseAll; `failed` names the services whose ingress could not be cleared. */
  function ReleaseAll(w: World, me: Key, cfg: Config, failed: set<string>): (w': World) {
    w.(used := w.used - Recorded(cfg),
       services := ClearIngress(w.services, me.ns, cfg.alloc4.Keys + cfg.alloc6.Keys - failed))
  }

  datatype BeginApi = BeginApi(
    addFinalizerOk: bool, initialStatusOk: bool, listServicesOk: bool, listConfigsOk: bool,
    removeFinalizerOk: bool, clearFailed: set<string>)

  const BEGIN_OK := BeginApi(true, true, true, true, true, {})

  /** A reconcile between two services: its copy of the config and the services still to serve. */
  datatype Job = Idle | Working(id: Key, copy: Config, todo: Listing)

  /** Removing the finalizer lets the API server drop the object. */
  function HandleDeletion(w: World, me: Key, api: BeginApi): (w': World)
    requires me in w.configs
  {
    var w1 := ReleaseAll(w, me, w.configs[me], api.clearFailed);
    if api.removeFinalizerOk then w1.(configs := w1.configs - {me}) else w1
  }

  /** Reconcile up to the loop over the eligible services; `listing` is what List returned. */
  function Begin(w: World, me: Key, listing: Listing, api: BeginApi): (r: (World, Job)) {
    if me !in w.configs then (w, Idle) else
      var unmarked := !w.configs[me].finalizer;
      if unmarked && !api.addFinalizerOk then (w, Idle) else
        var cfg := w.configs[me].(finalizer := true);
        var w1 := w.(configs := w.configs[me := cfg]);
        if unmarked && !api.initialStatusOk then (w1, Idle)
        else if cfg.deleting then (HandleDeletion(w1, me, api), Idle)
        else if !api.listServicesOk || !api.listConfigsOk then (w1, Idle)
        else if Conflicts(w1.configs, me, cfg) != {} then (w1, Idle)
        else (w1, Working(me, cfg, EligibleOf(listing, cfg)))
  }

  /** One round of the loop: quota, allocate and assign, record. */
  function Iterate(w: World, job: Job, maxScan: nat, api: CallApi): (r: (World, Job))
    requires job.Working?
  {
    if job.todo == [] || QuotaReached(job.copy) then (w, Idle) else
      var (key, svc) := job.todo[0];
      var (w1, ips) := AllocateAndAssign(w, job.id, job.copy, key, svc.request, maxScan, api);
      if ips.Err? then (w1, Idle) else
        var copy := Record(job.copy, key.name, ips.value);
        if api.statusOk && job.id in w1.configs && w1.configs[job.id] == job.copy
        then (w1.(configs := w1.configs[job.id := copy]), Working(job.id, copy, job.todo[1..]))
        else (w1, Idle)
  }

  /** The loop; the `i`-th round meets the outcomes `apis(i)`. */
  function Finish(w: World, job: Job, maxScan: nat, apis: nat -> CallApi, i: nat): (w': World)
    decreases if job.Idle? then 0 else 1 + |job.todo|
  {
    if job.Idle? then w else
      var (w1, job1) := Iterate(w, job, maxScan, apis(i));
      if job1.Working? && |job1.todo| < |job.todo| then Finish(w1, job1, maxScan, apis, i + 1) else w1
  }

  function Reconcile(w: World, me: Key, listing: Listing, maxScan: nat, api: BeginApi, apis: nat -> CallApi)
    : (w': World)
  {
    var (w1, job) := Begin(w, me, listing, api);
    Finish(w1, job, maxScan, apis, 0)
  }

  // One call, by itself.

  /** An unpinned slot on a one-address range takes its address even when that is used. */
  predicate Reuses(pool: set<Ip>, range: Range, want: Option<Ip>) {
    want.None? && Degenerate(range) && Bounds(range).value.0 in pool
  }

  /** The call takes an address that is in use, for one of its two slots. */
  predicate PairReuses(pool: set<Ip>, cfg: Config, request: Request, maxScan: nat) {
    var (want4, want6) := SplitRequest(request);
    || Reuses(pool, cfg.range4, want4)
    || (cfg.range6.Some? && Choose(pool, cfg.range4, want4, maxScan).Ok? && Reuses(pool, cfg.range6.value, want6))
  }

  /**
    A call that fails, at IPv4, IPv6 or the assignment, leaves the pool at its
    old value plus the addresses other configs record, exactly unless it took an
    address in use from a one-address range: that one is dropped from the pool.
   */
  lemma FailureRollsBackIff(w: World, me: Key, cfg: Config, key: Key, request: Request, maxScan: nat, api: CallApi)
    requires AllocateAndAssign(w, me, cfg, key, request, maxScan, api).1.Err? && api.listOk
    ensures AllocateAndAssign(w, me, cfg, key, request, maxScan, api).0.used == Marked(w, me)
            <==> !PairReuses(Marked(w, me), cfg, request, maxScan)
  {
    var pool := Marked(w, me);
    var (want4, want6) := SplitRequest(request);
    var used := AllocateAndAssign(w, me, cfg, key, request, maxScan, api).0.used;
    var pick4 := Choose(pool, cfg.range4, want4, maxScan);
    if pick4.Ok? {
      FreshUnlessReused(pool, pool, cfg.range4, want4, maxScan);
      assert pick4.value !in used;
      if cfg.range6.Some? && Choose(pool + {pick4.value}, cfg.range6.value, want6, maxScan).Ok? {
        FreshUnlessReused(pool, pool + {pick4.value}, cfg.range6.value, want6, maxScan);
      }
    }
  }

  /** A one-address range whose address is in use: the assignment fails, and the address drops out of the pool. */
  lemma RollBackExample(me: Key, key: Key, maxScan: nat)
    ensures var ip: Ip := [10, 0, 0, 1];
            var cfg := Config(Single(ip), None, [], 0, map[], map[], true, false);
            AllocateAndAssign(World({ip}, map[], map[]), me, cfg, key, NoRequest, maxScan, ALL_OK)
            == (World({}, map[], map[]), Err)
  {
    var ip: Ip := [10, 0, 0, 1];
    assert Others(map[], me) == {};
    assert {ip} + {} == {ip} && {ip} + {ip} - {ip} == {};
  }

  lemma FreshUnlessReused(pool: set<Ip>, pool': set<Ip>, range: Range, want: Option<Ip>, maxScan: nat)
    requires pool <= pool' && Choose(pool', range, want, maxScan).Ok?
    ensures Choose(pool', range, want, maxScan).value in pool <==> Reuses(pool, range, want)
  {
  }
}
