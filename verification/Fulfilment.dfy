/**
  What one undisturbed reconcile of a single-stack config does: the first
  services of the list get the smallest free addresses, in order.
 */
module Fulfilment {
  import opened Bytes
  import opened Parse
  import opened Allocator
  import opened Cluster
  import opened Manager
  import opened Serving

  /** The scanned addresses that the pool leaves free, in scan order. */
  function Free(keys: seq<Ip>, pool: set<Ip>): (free: seq<Ip>)
    ensures forall ip :: ip in free <==> ip in keys && ip !in pool
  {
    if keys == [] then []
    else if keys[0] in pool then Free(keys[1..], pool)
    else [keys[0]] + Free(keys[1..], pool)
  }

  lemma {:induction false} FreeIsNext(keys: seq<Ip>, pool: set<Ip>)
    requires Distinct(keys)
    ensures FirstUnused(keys, pool) == if Free(keys, pool) == [] then Err else Ok(Free(keys, pool)[0])
    ensures Free(keys, pool) != [] ==>
              Free(keys, pool + {Free(keys, pool)[0]}) == Free(keys, pool)[1..]
  {
    if keys != [] {
      assert Distinct(keys[1..]);
      if keys[0] in pool {
        FreeIsNext(keys[1..], pool);
      } else {
        FreeAvoids(keys[1..], pool, keys[0]);
      }
    }
  }

  lemma {:induction false} FreeAvoids(keys: seq<Ip>, pool: set<Ip>, ip: Ip)
    requires ip !in keys
    ensures Free(keys, pool + {ip}) == Free(keys, pool)
  {
    if keys != [] {
      FreeAvoids(keys[1..], pool, ip);
    }
  }

  /** The keys stand for ascending addresses of a family with addresses of length `len`. */
  predicate Ascending(keys: seq<Ip>, len: nat) {
    forall i, j :: 0 <= i < j < |keys| ==> Val(Behind(keys[i], len)) < Val(Behind(keys[j], len))
  }

  /** What is free of ascending addresses is ascending. */
  lemma {:induction false} FreeAscends(keys: seq<Ip>, pool: set<Ip>, len: nat)
    requires Ascending(keys, len)
    ensures Ascending(Free(keys, pool), len)
  {
    hide Behind, Val;
    if keys != [] {
      assert forall i :: 0 <= i < |keys[1..]| ==> keys[1..][i] == keys[i + 1];
      FreeAscends(keys[1..], pool, len);
      var rest := Free(keys[1..], pool);
      forall j | 0 <= j < |rest| ensures Val(Behind(keys[0], len)) < Val(Behind(rest[j], len)) {
        assert rest[j] in keys[1..];
        var i :| 0 <= i < |keys[1..]| && keys[1..][i] == rest[j];
        assert rest[j] == keys[i + 1];
      }
    }
  }

  /** How many of `n` services the quota admits. */
  function WithinQuota(cfg: Config, n: nat): (m: nat) {
    if cfg.maxAllocations <= 0 then n
    else if |cfg.alloc4| >= cfg.maxAllocations then 0
    else Min(n, cfg.maxAllocations - |cfg.alloc4|)
  }

  function Serve(services: map<Key, Service>, todo: Listing, free: seq<Ip>, n: nat): (services': map<Key, Service>)
    requires n <= |todo| && n <= |free|
    requires forall i :: 0 <= i < |todo| ==> todo[i].0 in services
    decreases n
  {
    if n == 0 then services
    else Serve(AssignTo(services, todo[0].0, (free[0], None), Assigned), todo[1..], free[1..], n - 1)
  }

  function RecordAll(alloc: map<string, Ip>, todo: Listing, free: seq<Ip>, n: nat): (alloc': map<string, Ip>)
    requires n <= |todo| && n <= |free|
    decreases n
  {
    if n == 0 then alloc else RecordAll(alloc[todo[0].0.name := free[0]], todo[1..], free[1..], n - 1)
  }

  /** A single-stack job whose services name no address and are not recorded yet. */
  ghost predicate Plain(w: World, job: Job) {
    && job.Working? && job.id in w.configs && w.configs[job.id] == job.copy
    && job.copy.range6.None? && Bounds(job.copy.range4).Ok? && !Degenerate(job.copy.range4)
    && DistinctKeys(job.todo)
    && |job.copy.alloc4| + |job.todo| < 0x8000_0000
    && forall i :: 0 <= i < |job.todo| ==>
         && job.todo[i].0 in w.services && job.todo[i].1.request.NoRequest?
         && job.todo[i].0.ns == job.id.ns && job.todo[i].0.name !in job.copy.alloc4
  }

  function ScanOf(cfg: Config, maxScan: nat): (keys: seq<Ip>)
    requires Bounds(cfg.range4).Ok?
  {
    Visited(Bounds(cfg.range4).value.0, Bounds(cfg.range4).value.1, maxScan)
  }

  /** How many services a plain job serves: as many as there are free addresses and room in the quota. */
  function Count(cfg: Config, todo: Listing, free: seq<Ip>): (n: nat)
    ensures n <= |todo| && n <= |free|
  {
    WithinQuota(cfg, Min(|todo|, |free|))
  }

  /** A round without a free address, or without room, ends the job and marks at most. */
  lemma LastRound(w: World, job: Job, maxScan: nat)
    requires Plain(w, job) && Distinct(ScanOf(job.copy, maxScan))
    requires Count(job.copy, job.todo, Free(ScanOf(job.copy, maxScan), Marked(w, job.id))) == 0
    ensures var (w', job') := Iterate(w, job, maxScan, ALL_OK);
            && job'.Idle? && w'.services == w.services && w'.configs == w.configs
            && Marked(w', job.id) == Marked(w, job.id)
  {
    hide Bounds, Visited, Free;
    FreeIsNext(ScanOf(job.copy, maxScan), Marked(w, job.id));
  }

  /** The world after a round that gives `ip` to the first service. */
  function Given(w: World, job: Job, ip: Ip): (w': World)
    requires job.Working? && job.todo != []
  {
    World(Marked(w, job.id) + {ip},
          w.configs[job.id := Record(job.copy, job.todo[0].0.name, (ip, None))],
          AssignTo(w.services, job.todo[0].0, (ip, None), Assigned))
  }

  function GivenJob(job: Job, ip: Ip): (job': Job)
    requires job.Working? && job.todo != []
  {
    Working(job.id, Record(job.copy, job.todo[0].0.name, (ip, None)), job.todo[1..])
  }

  lemma ServingRound(w: World, job: Job, maxScan: nat)
    requires Plain(w, job) && Distinct(ScanOf(job.copy, maxScan))
    requires Count(job.copy, job.todo, Free(ScanOf(job.copy, maxScan), Marked(w, job.id))) > 0
    ensures var ip := Free(ScanOf(job.copy, maxScan), Marked(w, job.id))[0];
            Iterate(w, job, maxScan, ALL_OK) == (Given(w, job, ip), GivenJob(job, ip))
  {
    hide Bounds, Visited, Free;
    FreeIsNext(ScanOf(job.copy, maxScan), Marked(w, job.id));
  }

  lemma OthersIgnoreSelf(configs: map<Key, Config>, me: Key, cfg: Config)
    ensures Others(configs[me := cfg], me) == Others(configs, me)
  {
    var configs' := configs[me := cfg];
    forall ip ensures ip in Others(configs', me) <==> ip in Others(configs, me) {
      if ip in Others(configs, me) {
        var c :| c in configs && c != me && ip in Recorded(configs[c]);
        assert c in configs' && configs'[c] == configs[c];
      }
    }
  }

  lemma ServedIsPlain(w: World, job: Job, ip: Ip)
    requires Plain(w, job) && job.todo != []
    ensures Plain(Given(w, job, ip), GivenJob(job, ip))
    ensures Marked(Given(w, job, ip), job.id) == Marked(w, job.id) + {ip}
    ensures |GivenJob(job, ip).copy.alloc4| == |job.copy.alloc4| + 1
  {
    var w1, job1 := Given(w, job, ip), GivenJob(job, ip);
    OthersIgnoreSelf(w.configs, job.id, job1.copy);
    assert forall i :: 0 <= i < |job1.todo| ==> job1.todo[i] == job.todo[i + 1];
  }

  /** From `w`, the first `n` services of the job got the first `n` of `free`, and no more happened. */
  ghost predicate Outcome(w: World, job: Job, w': World, free: seq<Ip>, n: nat)
    requires job.Working? && n <= |job.todo| && n <= |free|
    requires forall i :: 0 <= i < |job.todo| ==> job.todo[i].0 in w.services
  {
    && w'.services == Serve(w.services, job.todo, free, n)
    && w'.configs == w.configs[job.id := job.copy.(alloc4 := RecordAll(job.copy.alloc4, job.todo, free, n))]
    && Marked(w', job.id) == Marked(w, job.id) + (set k | 0 <= k < n :: free[k])
  }

  lemma OutcomeStep(w: World, job: Job, w': World, free: seq<Ip>, n: nat)
    requires Plain(w, job) && 0 < n <= |job.todo| && n <= |free|
    requires Plain(Given(w, job, free[0]), GivenJob(job, free[0]))
    requires Marked(Given(w, job, free[0]), job.id) == Marked(w, job.id) + {free[0]}
    requires Outcome(Given(w, job, free[0]), GivenJob(job, free[0]), w', free[1..], n - 1)
    ensures Outcome(w, job, w', free, n)
  {
    hide Bounds, Visited, Degenerate, Others;
    assert (set k | 0 <= k < n :: free[k]) == {free[0]} + (set k | 0 <= k < n - 1 :: free[1..][k]) by {
      assert forall k :: 1 <= k < n ==> free[k] == free[1..][k - 1];
    }
  }

  lemma FinishLast(w: World, job: Job, maxScan: nat, apis: nat -> CallApi, i: nat, free: seq<Ip>)
    requires Plain(w, job) && Distinct(ScanOf(job.copy, maxScan)) && apis(i) == ALL_OK
    requires free == Free(ScanOf(job.copy, maxScan), Marked(w, job.id))
    requires Count(job.copy, job.todo, free) == 0
    ensures Outcome(w, job, Finish(w, job, maxScan, apis, i), free, 0)
  {
    LastRound(w, job, maxScan);
  }

  lemma FinishMore(w: World, job: Job, maxScan: nat, apis: nat -> CallApi, i: nat, free: seq<Ip>)
    requires Plain(w, job) && Distinct(ScanOf(job.copy, maxScan)) && apis(i) == ALL_OK
    requires free == Free(ScanOf(job.copy, maxScan), Marked(w, job.id))
    requires Count(job.copy, job.todo, free) > 0
    ensures Finish(w, job, maxScan, apis, i)
            == Finish(Given(w, job, free[0]), GivenJob(job, free[0]), maxScan, apis, i + 1)
  {
    ServingRound(w, job, maxScan);
  }

  lemma CountNext(job: Job, free: seq<Ip>)
    requires job.Working? && Count(job.copy, job.todo, free) > 0
    requires |GivenJob(job, free[0]).copy.alloc4| == |job.copy.alloc4| + 1
    ensures Count(GivenJob(job, free[0]).copy, job.todo[1..], free[1..]) == Count(job.copy, job.todo, free) - 1
  {
  }

  /** A round that serves leaves the same problem, one service and one address smaller. */
  lemma RoundShrinks(w: World, job: Job, maxScan: nat, apis: nat -> CallApi, i: nat,
                     keys: seq<Ip>, free: seq<Ip>, n: nat) returns (w1: World, job1: Job)
    requires Plain(w, job) && keys == ScanOf(job.copy, maxScan) && Distinct(keys)
    requires free == Free(keys, Marked(w, job.id)) && n == Count(job.copy, job.todo, free) && n > 0
    requires apis(i) == ALL_OK
    ensures Plain(w1, job1) && keys == ScanOf(job1.copy, maxScan) && |job1.todo| < |job.todo|
    ensures free[1..] == Free(keys, Marked(w1, job1.id)) && n - 1 == Count(job1.copy, job1.todo, free[1..])
    ensures Finish(w, job, maxScan, apis, i) == Finish(w1, job1, maxScan, apis, i + 1)
    ensures forall w' :: Outcome(w1, job1, w', free[1..], n - 1) ==> Outcome(w, job, w', free, n)
  {
    w1, job1 := Given(w, job, free[0]), GivenJob(job, free[0]);
    FinishMore(w, job, maxScan, apis, i, free);
    ServedIsPlain(w, job, free[0]);
    FreeIsNext(keys, Marked(w, job.id));
    CountNext(job, free);
    forall w' | Outcome(w1, job1, w', free[1..], n - 1) ensures Outcome(w, job, w', free, n) {
      OutcomeStep(w, job, w', free, n);
    }
  }

  lemma {:induction false} FinishServes(w: World, job: Job, maxScan: nat, apis: nat -> CallApi, i: nat,
                                        keys: seq<Ip>, free: seq<Ip>, n: nat)
    requires Plain(w, job) && keys == ScanOf(job.copy, maxScan) && Distinct(keys)
    requires free == Free(keys, Marked(w, job.id)) && n == Count(job.copy, job.todo, free)
    requires forall j :: apis(j) == ALL_OK
    ensures Outcome(w, job, Finish(w, job, maxScan, apis, i), free, n)
    decreases |job.todo|
  {
    hide Finish, Marked, Free, ScanOf;
    if n == 0 {
      FinishLast(w, job, maxScan, apis, i, free);
    } else {
      var w1, job1 := RoundShrinks(w, job, maxScan, apis, i, keys, free, n);
      FinishServes(w1, job1, maxScan, apis, i + 1, keys, free[1..], n - 1);
    }
  }

  lemma {:induction false} ServeAt(services: map<Key, Service>, todo: Listing, free: seq<Ip>, n: nat)
    requires n <= |todo| && n <= |free| && DistinctKeys(todo)
    requires forall i :: 0 <= i < |todo| ==> todo[i].0 in services
    ensures var services' := Serve(services, todo, free, n);
            && services'.Keys == services.Keys
            && (forall i :: 0 <= i < n ==>
                  services'[todo[i].0] == services[todo[i].0].(ingress := [free[i]], lbClass := Some(HELIOS_CLASS)))
            && (forall k :: k in services && (forall i :: 0 <= i < n ==> todo[i].0 != k) ==>
                  services'[k] == services[k])
    decreases n
  {
    if n > 0 {
      var services1 := AssignTo(services, todo[0].0, (free[0], None), Assigned);
      var rest := todo[1..];
      assert forall i :: 0 <= i < |rest| ==> rest[i] == todo[i + 1];
      ServeAt(services1, rest, free[1..], n - 1);
      var services' := Serve(services, todo, free, n);
      forall i | 0 <= i < n
        ensures services'[todo[i].0] == services[todo[i].0].(ingress := [free[i]], lbClass := Some(HELIOS_CLASS))
      {
        if i > 0 {
          assert rest[i - 1] == todo[i];
        }
      }
      forall k | k in services && (forall i :: 0 <= i < n ==> todo[i].0 != k) ensures services'[k] == services[k] {
        assert k != todo[0].0;
        assert forall i :: 0 <= i < n - 1 ==> rest[i].0 == todo[i + 1].0;
      }
    }
  }

  lemma {:induction false} RecordAllAt(alloc: map<string, Ip>, todo: Listing, free: seq<Ip>, n: nat, ns: string)
    requires n <= |todo| && n <= |free| && DistinctKeys(todo)
    requires forall i :: 0 <= i < |todo| ==> todo[i].0.ns == ns
    ensures var alloc' := RecordAll(alloc, todo, free, n);
            && (forall i :: 0 <= i < n ==> todo[i].0.name in alloc' && alloc'[todo[i].0.name] == free[i])
            && (forall name :: (forall i :: 0 <= i < n ==> todo[i].0.name != name) ==>
                  (name in alloc' <==> name in alloc) && (name in alloc ==> alloc'[name] == alloc[name]))
    decreases n
  {
    if n > 0 {
      var rest := todo[1..];
      assert forall i :: 0 <= i < |rest| ==> rest[i] == todo[i + 1];
      RecordAllAt(alloc[todo[0].0.name := free[0]], rest, free[1..], n - 1, ns);
      var alloc' := RecordAll(alloc, todo, free, n);
      forall i | 0 <= i < n ensures todo[i].0.name in alloc' && alloc'[todo[i].0.name] == free[i] {
        if i > 0 {
          assert rest[i - 1] == todo[i];
        } else {
          assert forall j :: 0 <= j < n - 1 ==> rest[j].0 == todo[j + 1].0 && rest[j].0 != todo[0].0;
        }
      }
      forall name | forall i :: 0 <= i < n ==> todo[i].0.name != name
        ensures (name in alloc' <==> name in alloc) && (name in alloc ==> alloc'[name] == alloc[name])
      {
        assert name != todo[0].0.name;
        assert forall i :: 0 <= i < n - 1 ==> rest[i].0.name == todo[i + 1].0.name;
      }
    }
  }

  /** The outcome, service by service and record by record. */
  lemma OutcomePointwise(w: World, job: Job, w': World, free: seq<Ip>, n: nat)
    requires Plain(w, job) && n <= |job.todo| && n <= |free| && Outcome(w, job, w', free, n)
    ensures w'.services.Keys == w.services.Keys && w'.configs.Keys == w.configs.Keys
    ensures forall i :: 0 <= i < n ==>
              && w'.services[job.todo[i].0]
                 == w.services[job.todo[i].0].(ingress := [free[i]], lbClass := Some("helios-lb"))
              && job.todo[i].0.name in w'.configs[job.id].alloc4
              && w'.configs[job.id].alloc4[job.todo[i].0.name] == free[i]
    ensures forall k :: k in w.services && (forall i :: 0 <= i < n ==> job.todo[i].0 != k) ==>
              w'.services[k] == w.services[k]
    ensures forall c :: c in w.configs && c != job.id ==> w'.configs[c] == w.configs[c]
    ensures w'.configs[job.id] == job.copy.(alloc4 := w'.configs[job.id].alloc4)
    ensures forall name :: (forall i :: 0 <= i < n ==> job.todo[i].0.name != name) ==>
              && (name in w'.configs[job.id].alloc4 <==> name in job.copy.alloc4)
              && (name in job.copy.alloc4 ==> w'.configs[job.id].alloc4[name] == job.copy.alloc4[name])
  {
    ServeAt(w.services, job.todo, free, n);
    RecordAllAt(job.copy.alloc4, job.todo, free, n, job.id.ns);
  }

  /** The setting of an undisturbed reconcile: a live single-stack config, no conflict, no requested address. */
  ghost predicate Undisturbed(w: World, me: Key, listing: Listing, maxScan: nat) {
    && me in w.configs && !w.configs[me].deleting
    && (forall c, name :: !RecordedInside(w, me, c, name))
    && var cfg := w.configs[me];
       && cfg.range6.None? && Bounds(cfg.range4).Ok? && !Degenerate(cfg.range4)
       && |Bounds(cfg.range4).value.0| == |Bounds(cfg.range4).value.1|
       && !Wraps(Bounds(cfg.range4).value.0, Bounds(cfg.range4).value.1, maxScan)
       && DistinctKeys(listing) && |cfg.alloc4| + |listing| < 0x8000_0000
       && forall i :: 0 <= i < |listing| ==>
            && listing[i].0 in w.services
            && (Eligible(listing[i].0, listing[i].1, cfg) ==>
                  && listing[i].1.request.NoRequest? && listing[i].0.ns == me.ns
                  && listing[i].0.name !in cfg.alloc4)
  }

  /** The service listed at `i` is eligible, and at most n - 1 eligible ones are listed before it. */
  predicate AmongFirst(listing: Listing, cfg: Config, n: nat, i: int) {
    0 <= i < |listing| && Eligible(listing[i].0, listing[i].1, cfg) && EligibleBefore(listing, cfg, i) < n
  }

  /** The reconcile starts a plain job on the eligible services. */
  lemma StartsPlain(w: World, me: Key, listing: Listing, maxScan: nat) returns (job: Job)
    requires Undisturbed(w, me, listing, maxScan)
    ensures job == Working(me, w.configs[me].(finalizer := true), EligibleOf(listing, w.configs[me]))
    ensures Begin(w, me, listing, BEGIN_OK) == (WithFinalizer(w, me), job)
    ensures Plain(WithFinalizer(w, me), job) && Marked(WithFinalizer(w, me), me) == Marked(w, me)
  {
    hide Conflicts, RecordedInside, EligibleBefore, Eligible, Bounds, Visited, Wraps, Others;
    var cfg := w.configs[me];
    job := Working(me, cfg.(finalizer := true), EligibleOf(listing, cfg));
    ServesIff(w, me, listing, BEGIN_OK);
    EligibleDistinct(listing, cfg);
    EligibleInOrder(listing, cfg);
    BeforeBound(listing, cfg, |listing|);
    OthersIgnoreSelf(w.configs, me, cfg.(finalizer := true));
    forall i | 0 <= i < |job.todo|
      ensures && job.todo[i].0 in w.services && job.todo[i].1.request.NoRequest?
              && job.todo[i].0.ns == me.ns && job.todo[i].0.name !in cfg.alloc4
    {
      assert job.todo[i] in listing;
    }
  }

  lemma ScanAscends(w: World, me: Key, listing: Listing, maxScan: nat, pool: set<Ip>)
    requires Undisturbed(w, me, listing, maxScan)
    ensures var keys := ScanOf(w.configs[me], maxScan);
            Distinct(keys) && Ascending(Free(keys, pool), |Bounds(w.configs[me].range4).value.0|)
  {
    hide RecordedInside, Eligible, Bounds, Wraps, Degenerate, Val, Behind, Free, Visited;
    var (start, end) := Bounds(w.configs[me].range4).value;
    VisitedAscends(start, end, maxScan);
    FreeAscends(ScanOf(w.configs[me], maxScan), pool, |start|);
  }

  /**
    One undisturbed reconcile: with n the least of the eligible services, the
    free addresses within the scan limit and the room in the quota, the first n
    eligible services of the listing get the n smallest free addresses in
    ascending order, each is recorded, and no other service, config or record
    changes.
   */
  lemma ReconcileFulfils(w: World, me: Key, listing: Listing, maxScan: nat, apis: nat -> CallApi)
    requires Undisturbed(w, me, listing, maxScan) && forall j :: apis(j) == ALL_OK
    ensures var cfg := w.configs[me];
            var free := Free(ScanOf(cfg, maxScan), Marked(w, me));
            var n := WithinQuota(cfg, Min(EligibleBefore(listing, cfg, |listing|), |free|));
            var w' := Reconcile(w, me, listing, maxScan, BEGIN_OK, apis);
            && Ascending(free, |Bounds(cfg.range4).value.0|)
            && Marked(w', me) == Marked(w, me) + (set k | 0 <= k < n :: free[k])
            && w'.services.Keys == w.services.Keys && w'.configs.Keys == w.configs.Keys
            && (forall i :: AmongFirst(listing, cfg, n, i) ==>
                  var (key, ip) := (listing[i].0, free[EligibleBefore(listing, cfg, i)]);
                  && w'.services[key] == w.services[key].(ingress := [ip], lbClass := Some("helios-lb"))
                  && key.name in w'.configs[me].alloc4 && w'.configs[me].alloc4[key.name] == ip)
            && (forall k :: k in w.services && (forall i :: AmongFirst(listing, cfg, n, i) ==> listing[i].0 != k) ==>
                  w'.services[k] == w.services[k])
            && (forall c :: c in w.configs && c != me ==> w'.configs[c] == w.configs[c])
            && w'.configs[me] == cfg.(finalizer := true, alloc4 := w'.configs[me].alloc4)
            && (forall name :: (forall i :: AmongFirst(listing, cfg, n, i) ==> listing[i].0.name != name) ==>
                  && (name in w'.configs[me].alloc4 <==> name in cfg.alloc4)
                  && (name in cfg.alloc4 ==> w'.configs[me].alloc4[name] == cfg.alloc4[name]))
  {
    hide Conflicts, RecordedInside, EligibleBefore, Eligible, Visited, Bounds, Free, EligibleOf, Finish, Marked;
    hide Plain, Serve, RecordAll, Iterate, Wraps, Degenerate, Val, Behind, Others;
    var cfg := w.configs[me].(finalizer := true);
    var w1 := WithFinalizer(w, me);
    var job := StartsPlain(w, me, listing, maxScan);
    var keys := ScanOf(cfg, maxScan);
    var free := Free(keys, Marked(w1, me));
    var n := Count(cfg, job.todo, free);
    EligibleInOrder(listing, w.configs[me]);
    ScanAscends(w, me, listing, maxScan, Marked(w1, me));
    FinishServes(w1, job, maxScan, apis, 0, keys, free, n);
    var w' := Finish(w1, job, maxScan, apis, 0);
    OutcomePointwise(w1, job, w', free, n);
    assert w' == Reconcile(w, me, listing, maxScan, BEGIN_OK, apis);
    assert Marked(w', me) == Marked(w, me) + (set k | 0 <= k < n :: free[k]);
    forall i | AmongFirst(listing, w.configs[me], n, i)
      ensures job.todo[EligibleBefore(listing, w.configs[me], i)] == listing[i]
    {
      assert AtItsPlace(listing, w.configs[me], i);
    }
    forall t | 0 <= t < n
      ensures exists i :: AmongFirst(listing, w.configs[me], n, i) && listing[i].0 == job.todo[t].0
    {
      var i := PlaceIsListed(listing, w.configs[me], t);
      assert AmongFirst(listing, w.configs[me], n, i);
    }
  }
}
