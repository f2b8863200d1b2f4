/**
  Two runs from the empty cluster. In the one every API write succeeds and an
  address leaks: a service is served, deleted, re-created under its name and
  served again. In the other an assignment is left half written, and two
  services come to hold one address.
 */
module ExampleRuns {
  import opened Bytes
  import opened Parse
  import opened Allocator
  import opened Containment
  import opened Cluster
  import opened Manager
  import opened Ownership
  import opened Leaks

  const ID := Key("apps", "pool")
  const KEY := Key("apps", "web")
  const OTHER := Key("apps", "api")
  const WEB := Service(true, None, NoRequest, [])

  /** A config with 10.0.0.1-10.0.0.9, and what it records. */
  function Pool(alloc: map<string, Ip>, finalizer: bool): (cfg: Config) {
    Config(Span([10, 0, 0, 1], [10, 0, 0, 9]), None, [], 0, alloc, map[], finalizer, false)
  }

  function Small(used: set<Ip>, alloc: map<string, Ip>, finalizer: bool, services: map<Key, Service>): (w: World) {
    World(used, map[ID := Pool(alloc, finalizer)], services)
  }

  /** The first address goes out of an empty pool, and the second when the first is taken. */
  lemma FirstTwo()
    ensures var r: Range := Span([10, 0, 0, 1], [10, 0, 0, 9]);
            && !Degenerate(r)
            && Pick({}, r, DEFAULT_MAX_SCAN) == Ok([10, 0, 0, 1])
            && Pick({[10, 0, 0, 1]}, r, DEFAULT_MAX_SCAN) == Ok([10, 0, 0, 2])
  {
    hide Val, Compare, Visited, Succ;
    var a: Ip, b: Ip, end: Ip := [10, 0, 0, 1], [10, 0, 0, 2], [10, 0, 0, 9];
    DecidedAt(a, end, 3);
    DecidedAt(b, end, 3);
    SuccByCarry(a, b, 3);
    VisitedStep(a, end, DEFAULT_MAX_SCAN, {});
    VisitedStep(a, end, DEFAULT_MAX_SCAN, {a});
    VisitedStep(b, end, DEFAULT_MAX_SCAN - 1, {a});
  }

  lemma NoOthers(cfg: Config)
    ensures Others(map[ID := cfg], ID) == {} && Conflicts(map[ID := cfg], ID, cfg) == {}
  {
  }

  /** Reconcile finds the service. */
  lemma Found(used: set<Ip>, alloc: map<string, Ip>, finalizer: bool)
    ensures Begin(Small(used, alloc, finalizer, map[KEY := WEB]), ID, [(KEY, WEB)], BEGIN_OK)
            == (Small(used, alloc, true, map[KEY := WEB]), Working(ID, Pool(alloc, true), [(KEY, WEB)]))
  {
    hide Conflicts, EligibleOf;
    var w := Small(used, alloc, finalizer, map[KEY := WEB]);
    NoOthers(Pool(alloc, true));
    assert w.configs[ID := Pool(alloc, true)] == map[ID := Pool(alloc, true)];
    WebIsEligible(Pool(alloc, true));
  }

  lemma WebIsEligible(cfg: Config)
    requires cfg.selector == []
    ensures EligibleOf([(KEY, WEB)], cfg) == [(KEY, WEB)]
  {
    hide Eligible;
    EligibleByFields(KEY, WEB, cfg);
    var listing := [(KEY, WEB)];
    assert listing[..0] == [] && listing == listing[..0] + [listing[0]];
    assert EligibleOf(listing[..0], cfg) == [];
  }

  function WithAddress(ip: Ip): (svc: Service) { Service(true, Some(HELIOS_CLASS), NoRequest, [ip]) }

  lemma Allocated(used: set<Ip>, alloc: map<string, Ip>, ip: Ip, key: Key, services: map<Key, Service>)
    requires Pick(used, Pool(alloc, true).range4, DEFAULT_MAX_SCAN) == Ok(ip)
    requires key in services && services[key] == WEB
    ensures AllocateAndAssign(Small(used, alloc, true, services), ID, Pool(alloc, true), key, NoRequest,
                              DEFAULT_MAX_SCAN, ALL_OK)
            == (Small(used + {ip}, alloc, true, services[key := WithAddress(ip)]), Ok((ip, None)))
  {
    hide Pick, Others;
    NoOthers(Pool(alloc, true));
    assert Marked(Small(used, alloc, true, services), ID) == used;
  }

  /** And gives it the next address. */
  lemma Given(used: set<Ip>, alloc: map<string, Ip>, ip: Ip, key: Key, services: map<Key, Service>)
    requires Pick(used, Pool(alloc, true).range4, DEFAULT_MAX_SCAN) == Ok(ip)
    requires key in services && services[key] == WEB
    ensures Iterate(Small(used, alloc, true, services), Working(ID, Pool(alloc, true), [(key, WEB)]),
                    DEFAULT_MAX_SCAN, ALL_OK)
            == (Small(used + {ip}, alloc[key.name := ip], true, services[key := WithAddress(ip)]),
                Working(ID, Pool(alloc[key.name := ip], true), []))
  {
    hide Pick, AllocateAndAssign;
    Allocated(used, alloc, ip, key, services);
    var alloc' := alloc[key.name := ip];
    var todo := [(key, WEB)];
    assert todo[1..] == [];
    assert map[ID := Pool(alloc, true)][ID := Pool(alloc', true)] == map[ID := Pool(alloc', true)];
  }

  ghost predicate Follows(s: System, step: Step, s': System) {
    && Admissible(s.world) && Enabled(s, step)
    && s' == Next(s, step, DEFAULT_MAX_SCAN)
  }

  lemma SmallIsAdmissible(used: set<Ip>, alloc: map<string, Ip>, finalizer: bool, services: map<Key, Service>)
    requires forall k :: k in services ==> k.ns == ID.ns
    ensures Admissible(Small(used, alloc, finalizer, services))
  {
    hide Pick;
    FirstTwo();
  }

  /** From a cluster with the service not served yet: reconcile, serve it, and come to rest. */
  lemma ServeOnce(used: set<Ip>, alloc: map<string, Ip>, finalizer: bool, ip: Ip)
    requires Pick(used, Pool(alloc, true).range4, DEFAULT_MAX_SCAN) == Ok(ip)
    ensures var s1 := System(Small(used, alloc, finalizer, map[KEY := WEB]), Idle);
            var s2 := System(Small(used, alloc, true, map[KEY := WEB]), Working(ID, Pool(alloc, true), [(KEY, WEB)]));
            var alloc' := alloc["web" := ip];
            var w := Small(used + {ip}, alloc', true, map[KEY := WithAddress(ip)]);
            var s3 := System(w, Working(ID, Pool(alloc', true), []));
            && Follows(s1, BeginReconcile(ID, [(KEY, WEB)], BEGIN_OK), s2)
            && Follows(s2, Round(ALL_OK), s3)
            && Follows(s3, Round(ALL_OK), System(w, Idle))
  {
    hide Pick, Admissible, ReachesService, Begin, AllocateAndAssign, Record;
    Found(used, alloc, finalizer);
    Given(used, alloc, ip, KEY, map[KEY := WEB]);
    assert map[KEY := WEB][KEY := WithAddress(ip)] == map[KEY := WithAddress(ip)];
    SmallIsAdmissible(used, alloc, finalizer, map[KEY := WEB]);
    SmallIsAdmissible(used, alloc, true, map[KEY := WEB]);
    SmallIsAdmissible(used + {ip}, alloc["web" := ip], true, map[KEY := WithAddress(ip)]);
  }

  /** Deleting the service and creating it again. */
  lemma Recreate(used: set<Ip>, alloc: map<string, Ip>, svc: Service)
    ensures var gone := System(Small(used, alloc, true, map[]), Idle);
            && Follows(System(Small(used, alloc, true, map[KEY := svc]), Idle), DeleteService(KEY), gone)
            && Follows(gone, CreateService(KEY, WEB), System(Small(used, alloc, true, map[KEY := WEB]), Idle))
  {
    hide Admissible;
    SmallIsAdmissible(used, alloc, true, map[KEY := svc]);
    SmallIsAdmissible(used, alloc, true, map[]);
    assert map[KEY := svc] - {KEY} == map[];
  }

  lemma SetUp()
    ensures var made := System(Small({}, map[], false, map[]), Idle);
            && Follows(EMPTY, CreateConfig(ID, Pool(map[], false)), made)
            && Follows(made, CreateService(KEY, WEB), System(Small({}, map[], false, map[KEY := WEB]), Idle))
  {
    SmallIsAdmissible({}, map[], false, map[]);
  }

  ghost predicate Reaches(states: seq<System>, steps: seq<Step>, last: System) {
    AdmissibleRun(states, steps, DEFAULT_MAX_SCAN) && states[|steps|] == last
  }

  predicate Succeeds(step: Step) {
    (step.Round? ==> step.call == ALL_OK) && (step.BeginReconcile? ==> step.begin == BEGIN_OK)
  }

  predicate AllSucceed(steps: seq<Step>) {
    forall i :: 0 <= i < |steps| ==> Succeeds(steps[i])
  }

  lemma Extend(states: seq<System>, steps: seq<Step>, s: System, step: Step, s': System)
    returns (states': seq<System>, steps': seq<Step>)
    requires Reaches(states, steps, s) && Follows(s, step, s')
    ensures Reaches(states', steps', s')
    ensures AllSucceed(steps) && Succeeds(step) ==> AllSucceed(steps')
  {
    hide Next, Enabled, Admissible;
    states', steps' := states + [s'], steps + [step];
  }

  lemma ServeRun(states: seq<System>, steps: seq<Step>, used: set<Ip>, alloc: map<string, Ip>, finalizer: bool, ip: Ip)
    returns (states': seq<System>, steps': seq<Step>)
    requires Reaches(states, steps, System(Small(used, alloc, finalizer, map[KEY := WEB]), Idle)) && AllSucceed(steps)
    requires Pick(used, Pool(alloc, true).range4, DEFAULT_MAX_SCAN) == Ok(ip)
    ensures var w := Small(used + {ip}, alloc["web" := ip], true, map[KEY := WithAddress(ip)]);
            Reaches(states', steps', System(w, Idle)) && AllSucceed(steps')
  {
    hide Pick, Reaches, AllSucceed, Follows, Small, Pool, WithAddress;
    ServeOnce(used, alloc, finalizer, ip);
    var s1 := System(Small(used, alloc, finalizer, map[KEY := WEB]), Idle);
    var s2 := System(Small(used, alloc, true, map[KEY := WEB]), Working(ID, Pool(alloc, true), [(KEY, WEB)]));
    var w := Small(used + {ip}, alloc["web" := ip], true, map[KEY := WithAddress(ip)]);
    var s3 := System(w, Working(ID, Pool(alloc["web" := ip], true), []));
    states', steps' := Extend(states, steps, s1, BeginReconcile(ID, [(KEY, WEB)], BEGIN_OK), s2);
    states', steps' := Extend(states', steps', s2, Round(ALL_OK), s3);
    states', steps' := Extend(states', steps', s3, Round(ALL_OK), System(w, Idle));
  }

  /** 10.0.0.1 is left in the pool, recorded by no one. */
  lemma RecreatedServiceLeaks() returns (states: seq<System>, steps: seq<Step>, last: System)
    ensures Reaches(states, steps, last) && AllSucceed(steps)
    ensures !PoolIsRecords(last.world)
  {
    hide Pick, Reaches, AllSucceed, Follows, WithAddress;
    var a: Ip, b: Ip := [10, 0, 0, 1], [10, 0, 0, 2];
    var once := map["web" := a];
    var made := System(Small({}, map[], false, map[]), Idle);
    var asked := System(Small({}, map[], false, map[KEY := WEB]), Idle);
    var served := System(Small({a}, once, true, map[KEY := WithAddress(a)]), Idle);
    var gone := System(Small({a}, once, true, map[]), Idle);
    var again := System(Small({a}, once, true, map[KEY := WEB]), Idle);
    FirstTwo();
    SetUp();
    Recreate({a}, once, WithAddress(a));
    states, steps := [EMPTY], [];
    Start();
    states, steps := Extend(states, steps, EMPTY, CreateConfig(ID, Pool(map[], false)), made);
    states, steps := Extend(states, steps, made, CreateService(KEY, WEB), asked);
    states, steps := ServeRun(states, steps, {}, map[], false, a);
    assert {} + {a} == {a} && map[]["web" := a] == once;
    states, steps := Extend(states, steps, served, DeleteService(KEY), gone);
    states, steps := Extend(states, steps, gone, CreateService(KEY, WEB), again);
    states, steps := ServeRun(states, steps, {a}, once, true, b);
    last := System(Small({a} + {b}, once["web" := b], true, map[KEY := WithAddress(b)]), Idle);
    Left(last.world, a, b);
  }

  lemma Start()
    ensures Reaches([EMPTY], [], EMPTY) && AllSucceed([])
  {
  }

  lemma Left(w: World, a: Ip, b: Ip)
    requires a != b && a in w.used && w.configs == map[ID := Pool(map["web" := a]["web" := b], true)]
    ensures !PoolIsRecords(w)
  {
    assert forall c, f, n :: !RecordsAt(w, c, f, n, a);
  }

  // A half-written assignment.

  const HALF := CallApi(true, HalfWritten, true)

  /** A service that got the ingress and not the class. */
  function HalfServed(ip: Ip): (svc: Service) { Service(true, None, NoRequest, [ip]) }

  lemma HalfGiven(ip: Ip)
    requires Pick({}, Pool(map[], true).range4, DEFAULT_MAX_SCAN) == Ok(ip)
    ensures Iterate(Small({}, map[], true, map[KEY := WEB]), Working(ID, Pool(map[], true), [(KEY, WEB)]),
                    DEFAULT_MAX_SCAN, HALF)
            == (Small({}, map[], true, map[KEY := HalfServed(ip)]), Idle)
  {
    hide Pick, Others;
    NoOthers(Pool(map[], true));
    var w := Small({}, map[], true, map[KEY := WEB]);
    assert Marked(w, ID) == {};
    assert {} + {ip} - {ip} == {};
    assert w.services[KEY := HalfServed(ip)] == map[KEY := HalfServed(ip)];
  }

  /** The next reconcile passes over the half-served service and finds the other. */
  lemma OtherFound(ip: Ip)
    ensures var services := map[KEY := HalfServed(ip), OTHER := WEB];
            Begin(Small({}, map[], true, services), ID, [(KEY, HalfServed(ip)), (OTHER, WEB)], BEGIN_OK)
            == (Small({}, map[], true, services), Working(ID, Pool(map[], true), [(OTHER, WEB)]))
  {
    hide Conflicts, EligibleOf;
    var services := map[KEY := HalfServed(ip), OTHER := WEB];
    NoOthers(Pool(map[], true));
    assert map[ID := Pool(map[], true)][ID := Pool(map[], true)] == map[ID := Pool(map[], true)];
    OtherIsEligible(ip, Pool(map[], true));
  }

  lemma OtherIsEligible(ip: Ip, cfg: Config)
    requires cfg.selector == []
    ensures EligibleOf([(KEY, HalfServed(ip)), (OTHER, WEB)], cfg) == [(OTHER, WEB)]
  {
    hide Eligible;
    EligibleByFields(KEY, HalfServed(ip), cfg);
    EligibleByFields(OTHER, WEB, cfg);
    var listing := [(KEY, HalfServed(ip)), (OTHER, WEB)];
    var first := [(KEY, HalfServed(ip))];
    assert listing[..1] == first && first[..0] == [];
    assert EligibleOf(first[..0], cfg) == [];
    assert EligibleOf(first, cfg) == [];
  }

  lemma HalfWay(ip: Ip)
    requires Pick({}, Pool(map[], true).range4, DEFAULT_MAX_SCAN) == Ok(ip)
    ensures var s1 := System(Small({}, map[], false, map[KEY := WEB]), Idle);
            var s2 := System(Small({}, map[], true, map[KEY := WEB]), Working(ID, Pool(map[], true), [(KEY, WEB)]));
            var s3 := System(Small({}, map[], true, map[KEY := HalfServed(ip)]), Idle);
            var s4 := System(Small({}, map[], true, map[KEY := HalfServed(ip), OTHER := WEB]), Idle);
            && Follows(s1, BeginReconcile(ID, [(KEY, WEB)], BEGIN_OK), s2)
            && Follows(s2, Round(HALF), s3)
            && Follows(s3, CreateService(OTHER, WEB), s4)
  {
    hide Pick, Admissible, Begin, Iterate;
    Found({}, map[], false);
    HalfGiven(ip);
    SmallIsAdmissible({}, map[], false, map[KEY := WEB]);
    SmallIsAdmissible({}, map[], true, map[KEY := WEB]);
    SmallIsAdmissible({}, map[], true, map[KEY := HalfServed(ip)]);
    assert KEY.name[0] != OTHER.name[0];
    assert map[KEY := HalfServed(ip)][OTHER := WEB] == map[KEY := HalfServed(ip), OTHER := WEB];
  }

  lemma OtherWay(ip: Ip)
    requires Pick({}, Pool(map[], true).range4, DEFAULT_MAX_SCAN) == Ok(ip)
    ensures var services := map[KEY := HalfServed(ip), OTHER := WEB];
            var s4 := System(Small({}, map[], true, services), Idle);
            var s5 := System(Small({}, map[], true, services), Working(ID, Pool(map[], true), [(OTHER, WEB)]));
            var s6 := System(Small({} + {ip}, map["api" := ip], true, services[OTHER := WithAddress(ip)]),
                             Working(ID, Pool(map["api" := ip], true), []));
            && Follows(s4, BeginReconcile(ID, [(KEY, HalfServed(ip)), (OTHER, WEB)], BEGIN_OK), s5)
            && Follows(s5, Round(ALL_OK), s6)
  {
    hide Pick, Admissible, Begin, Iterate;
    var services := map[KEY := HalfServed(ip), OTHER := WEB];
    assert KEY.name[0] != OTHER.name[0];
    OtherFound(ip);
    Given({}, map[], ip, OTHER, services);
    SmallIsAdmissible({}, map[], true, services);
    assert map[]["api" := ip] == map["api" := ip];
  }

  /** Both services hold 10.0.0.1. */
  lemma HalfWriteShares() returns (states: seq<System>, steps: seq<Step>, last: System)
    ensures Reaches(states, steps, last)
    ensures Holds(last.world, KEY, [10, 0, 0, 1]) && Holds(last.world, OTHER, [10, 0, 0, 1])
  {
    hide Pick, Reaches, AllSucceed, Follows;
    var a: Ip := [10, 0, 0, 1];
    var services := map[KEY := HalfServed(a), OTHER := WEB];
    var made := System(Small({}, map[], false, map[]), Idle);
    var asked := System(Small({}, map[], false, map[KEY := WEB]), Idle);
    var found := System(Small({}, map[], true, map[KEY := WEB]), Working(ID, Pool(map[], true), [(KEY, WEB)]));
    var half := System(Small({}, map[], true, map[KEY := HalfServed(a)]), Idle);
    var both := System(Small({}, map[], true, services), Idle);
    var again := System(Small({}, map[], true, services), Working(ID, Pool(map[], true), [(OTHER, WEB)]));
    FirstTwo();
    SetUp();
    HalfWay(a);
    OtherWay(a);
    Start();
    states, steps := [EMPTY], [];
    last := System(Small({} + {a}, map["api" := a], true, services[OTHER := WithAddress(a)]),
                   Working(ID, Pool(map["api" := a], true), []));
    states, steps := Extend(states, steps, EMPTY, CreateConfig(ID, Pool(map[], false)), made);
    states, steps := Extend(states, steps, made, CreateService(KEY, WEB), asked);
    states, steps := Extend(states, steps, asked, BeginReconcile(ID, [(KEY, WEB)], BEGIN_OK), found);
    states, steps := Extend(states, steps, found, Round(HALF), half);
    states, steps := Extend(states, steps, half, CreateService(OTHER, WEB), both);
    var listing := [(KEY, HalfServed(a)), (OTHER, WEB)];
    states, steps := Extend(states, steps, both, BeginReconcile(ID, listing, BEGIN_OK), again);
    states, steps := Extend(states, steps, again, Round(ALL_OK), last);
    assert KEY.name[0] != OTHER.name[0];
  }
}
