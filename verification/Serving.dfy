/**
  What a reconcile and its rounds do to the cluster, object by object and field
  by field, for all outcomes of the API calls, on single- and dual-stack configs.
 */
module Serving {
  import opened Parse
  import opened Allocator
  import opened Cluster
  import opened Manager
  import opened Ownership

  // Up to the loop.

  /** Another config records under `name` an address inside the range of `me` for that family. */
  ghost predicate RecordedInside(w: World, me: Key, c: Key, name: string) {
    && me in w.configs && c in w.configs && c != me
    && var cfg, other := w.configs[me], w.configs[c];
       || (name in other.alloc4 && IPInRange(Ok(other.alloc4[name]), cfg.range4))
       || (cfg.range6.Some? && name in other.alloc6 && IPInRange(Ok(other.alloc6[name]), cfg.range6.value))
  }

  lemma ConflictsIff(w: World, me: Key)
    requires me in w.configs
    ensures Conflicts(w.configs, me, w.configs[me]) != {} <==> exists c, name :: RecordedInside(w, me, c, name)
  {
    hide IPInRange;
    var cfg := w.configs[me];
    if ip :| ip in Conflicts(w.configs, me, cfg) {
      var c :| c in w.configs && c != me && ip in Recorded(w.configs[c]) && ConflictsWith(cfg, w.configs[c], ip);
      var other := w.configs[c];
      if ip in other.alloc4.Values && IPInRange(Ok(ip), cfg.range4) {
        var name :| name in other.alloc4 && other.alloc4[name] == ip;
        assert RecordedInside(w, me, c, name);
      } else {
        var name :| name in other.alloc6 && other.alloc6[name] == ip;
        assert RecordedInside(w, me, c, name);
      }
    }
    if c, name :| RecordedInside(w, me, c, name) {
      var other := w.configs[c];
      var ip := if name in other.alloc4 && IPInRange(Ok(other.alloc4[name]), cfg.range4)
                then other.alloc4[name] else other.alloc6[name];
      assert ip in Recorded(other) && ConflictsWith(cfg, other, ip);
      assert ip in Conflicts(w.configs, me, cfg);
    }
  }

  /** The config gets past its finalizer. */
  predicate Marks(w: World, me: Key, api: BeginApi) {
    me in w.configs && (w.configs[me].finalizer || (api.addFinalizerOk && api.initialStatusOk))
  }

  function WithFinalizer(w: World, me: Key): (w': World)
    requires me in w.configs
  {
    w.(configs := w.configs[me := w.configs[me].(finalizer := true)])
  }

  /** When a reconcile comes to serve: it is marked, live, listed, and no other config records inside its ranges. */
  lemma ServesIff(w: World, me: Key, listing: Listing, api: BeginApi)
    ensures Begin(w, me, listing, api).1.Working? <==>
            && Marks(w, me, api) && !w.configs[me].deleting && api.listServicesOk && api.listConfigsOk
            && !exists c, name :: RecordedInside(w, me, c, name)
    ensures Begin(w, me, listing, api).1.Working? ==>
              Begin(w, me, listing, api)
              == (WithFinalizer(w, me),
                  Working(me, w.configs[me].(finalizer := true), EligibleOf(listing, w.configs[me])))
  {
    hide Conflicts, EligibleOf, HandleDeletion, IPInRange;
    if me in w.configs {
      var w1 := WithFinalizer(w, me);
      ConflictsIff(w1, me);
      forall c, name ensures RecordedInside(w1, me, c, name) <==> RecordedInside(w, me, c, name) {
        SameRecordInside(w, me, c, name);
      }
      EligibleIgnoresMetadata(listing, w.configs[me], w1.configs[me]);
    }
  }

  lemma SameRecordInside(w: World, me: Key, c: Key, name: string)
    requires me in w.configs
    ensures RecordedInside(WithFinalizer(w, me), me, c, name) <==> RecordedInside(w, me, c, name)
  {
    hide IPInRange;
  }

  /**
    A reconcile that does not come to serve, nor to delete, changes nothing but
    the finalizer, and that only if it could be added.
   */
  lemma NotServing(w: World, me: Key, listing: Listing, maxScan: nat, api: BeginApi, apis: nat -> CallApi)
    requires me in w.configs && Marks(w, me, api) ==>
               && !w.configs[me].deleting
               && (!api.listServicesOk || !api.listConfigsOk || exists c, name :: RecordedInside(w, me, c, name))
    ensures Reconcile(w, me, listing, maxScan, api, apis)
            == if me in w.configs && (w.configs[me].finalizer || api.addFinalizerOk) then WithFinalizer(w, me) else w
  {
    hide Conflicts, EligibleOf, RecordedInside;
    ServesIff(w, me, listing, api);
  }

  /** With an address recorded elsewhere inside its ranges, a live config serves no one. */
  lemma ConflictBlocks(w: World, me: Key, listing: Listing, maxScan: nat, api: BeginApi, apis: nat -> CallApi,
                       c: Key, name: string)
    requires RecordedInside(w, me, c, name) && !w.configs[me].deleting
    ensures var w' := Reconcile(w, me, listing, maxScan, api, apis);
            && w'.used == w.used && w'.services == w.services
            && (w'.configs == w.configs || w'.configs == w.configs[me := w.configs[me].(finalizer := true)])
  {
    hide RecordedInside, Reconcile;
    NotServing(w, me, listing, maxScan, api, apis);
  }

  // Deletion.

  /** The service is one of those whose ingress a deletion clears. */
  predicate Cleared(cfg: Config, me: Key, failed: set<string>, k: Key) {
    k.ns == me.ns && (k.name in cfg.alloc4 || k.name in cfg.alloc6) && k.name !in failed
  }

  /**
    A deletion takes exactly the recorded addresses out of the pool and empties
    exactly the ingress of the services recorded by name in the config's
    namespace, as far as they could be written. No service goes or changes
    otherwise; the config goes when its finalizer could be removed.
   */
  ghost predicate Deleted(w: World, me: Key, api: BeginApi, w': World)
    requires me in w.configs
  {
    var cfg := w.configs[me];
    && (forall ip :: ip in w'.used <==> ip in w.used && forall name :: !RecordsIn(cfg, name, ip))
    && w'.services.Keys == w.services.Keys
    && (forall k :: k in w.services ==>
          && w'.services[k].loadBalancer == w.services[k].loadBalancer
          && w'.services[k].lbClass == w.services[k].lbClass
          && w'.services[k].request == w.services[k].request
          && w'.services[k].ingress == if Cleared(cfg, me, api.clearFailed, k) then [] else w.services[k].ingress)
    && w'.configs.Keys == w.configs.Keys - (if api.removeFinalizerOk then {me} else {})
    && (forall c :: c in w'.configs ==> w'.configs[c] == w.configs[c])
  }

  lemma HandledOutcome(w: World, me: Key, api: BeginApi)
    requires me in w.configs
    ensures Deleted(w, me, api, HandleDeletion(w, me, api))
  {
    hide RecordsIn;
    var cfg := w.configs[me];
    forall ip ensures ip in Recorded(cfg) <==> exists name :: RecordsIn(cfg, name, ip) {
      RecordedIs(cfg, ip);
    }
  }

  /** A reconcile of a config being deleted adds the finalizer if need be, and does just that. */
  lemma DeletionOutcome(w: World, me: Key, listing: Listing, maxScan: nat, api: BeginApi, apis: nat -> CallApi)
    requires Marks(w, me, api) && w.configs[me].deleting
    ensures Deleted(WithFinalizer(w, me), me, api, Reconcile(w, me, listing, maxScan, api, apis))
  {
    hide Deleted, HandleDeletion;
    HandledOutcome(WithFinalizer(w, me), me, api);
  }

  // Rounds of the loop.

  /** The addresses the round takes for the first service of its list. */
  function Taken(s: System, maxScan: nat): (r: Result<Pair>)
    requires s.job.Working? && s.job.todo != []
  {
    ChoosePair(Marked(s.world, s.job.id), s.job.copy, s.job.todo[0].1.request, maxScan)
  }

  /** An unpinned call takes the next free address of each range, and fails exactly when a range is exhausted. */
  lemma UnpinnedIff(pool: set<Ip>, cfg: Config, request: Request, maxScan: nat)
    requires FamilyCorrect(cfg) && (request.Text? ==> request.parsed.Err?)
    ensures ChoosePair(pool, cfg, request, maxScan).Err? <==>
            || Exhausted(pool, cfg.range4, maxScan)
            || (cfg.range6.Some? && Pick(pool, cfg.range4, maxScan).Ok?
                && Exhausted(pool + {Pick(pool, cfg.range4, maxScan).value}, cfg.range6.value, maxScan))
    ensures ChoosePair(pool, cfg, request, maxScan).Ok? ==>
              var ips := ChoosePair(pool, cfg, request, maxScan).value;
              && Pick(pool, cfg.range4, maxScan) == Ok(ips.0)
              && (ips.1.Some? <==> cfg.range6.Some?)
              && (ips.1.Some? ==> Pick(pool + {ips.0}, cfg.range6.value, maxScan) == Ok(ips.1.value))
  {
    hide Pick, Exhausted, Bounds, FamilyRange, PickSpecific, Normalize;
    FamilyIsBounded(cfg);
    PickFailsIff(pool, cfg.range4, maxScan);
    if cfg.range6.Some? && Pick(pool, cfg.range4, maxScan).Ok? {
      PickFailsIff(pool + {Pick(pool, cfg.range4, maxScan).value}, cfg.range6.value, maxScan);
    }
  }

  lemma FamilyIsBounded(cfg: Config)
    requires FamilyCorrect(cfg)
    ensures Bounds(cfg.range4).Ok? && |Bounds(cfg.range4).value.0| == |Bounds(cfg.range4).value.1|
    ensures cfg.range6.Some? ==>
              && Bounds(cfg.range6.value).Ok?
              && |Bounds(cfg.range6.value).value.0| == |Bounds(cfg.range6.value).value.1|
  {
    hide Bounds;
  }

  /** Marking adds what other configs record, and nothing else. */
  lemma MarkedIff(w: World, me: Key, ip: Ip)
    ensures ip in Marked(w, me) <==> ip in w.used || exists c, name :: c != me && Records(w, c, name, ip)
  {
    if ip in Others(w.configs, me) {
      var c, name := OthersFrom(w, me, ip);
    }
    if c, name :| c != me && Records(w, c, name, ip) {
      OthersAre(w, me, c, name, ip);
    }
  }

  /**
    The job goes on exactly after a round that assigned addresses and recorded
    them, and then to the rest of its list; any other round ends it.
   */
  lemma JobGoesOnIff(s: System, api: CallApi, maxScan: nat)
    requires s.job.Working?
    ensures var s' := Next(s, Round(api), maxScan);
            && (s'.job.Working? <==>
                  && ReachesService(s, maxScan, api) && api.assign.Assigned? && api.statusOk
                  && s.job.id in s.world.configs && s.world.configs[s.job.id] == s.job.copy)
            && (s'.job.Working? ==>
                  && s'.job.id == s.job.id && s'.job.todo == s.job.todo[1..]
                  && s'.job.id in s'.world.configs && s'.job.copy == s'.world.configs[s'.job.id])
  {
    hide Choose, Others, QuotaReached, AssignTo;
  }

  /** The services after a round: one of them may change, and only by its ingress and its class. */
  lemma RoundOnServices(s: System, api: CallApi, maxScan: nat)
    requires s.job.Working?
    ensures var w, w' := s.world, Next(s, Round(api), maxScan).world;
            && w'.services.Keys == w.services.Keys
            && (!ReachesService(s, maxScan, api) || api.assign.Untouched? ==> w'.services == w.services)
            && (ReachesService(s, maxScan, api) && !api.assign.Untouched? ==>
                  var key, ips := s.job.todo[0].0, Taken(s, maxScan).value;
                  var svc, svc' := w.services[key], w'.services[key];
                  && (forall k :: k in w.services && k != key ==> w'.services[k] == w.services[k])
                  && svc'.loadBalancer == svc.loadBalancer && svc'.request == svc.request
                  && svc'.lbClass == (if api.assign.Assigned? then Some("helios-lb") else svc.lbClass)
                  && |svc'.ingress| == (if s.job.copy.range6.Some? then 2 else 1)
                  && svc'.ingress[0] == ips.0
                  && (s.job.copy.range6.Some? ==> ips.1.Some? && svc'.ingress[1] == ips.1.value))
  {
    hide Choose, Others, QuotaReached;
  }

  /** The configs after a round: the job's gains the new addresses under the service's name, if the job goes on. */
  lemma RoundOnConfigs(s: System, api: CallApi, maxScan: nat)
    requires s.job.Working?
    ensures var w, s' := s.world, Next(s, Round(api), maxScan);
            && (s'.job.Idle? ==> s'.world.configs == w.configs)
            && (s'.job.Working? ==>
                  var id, name, ips := s.job.id, s.job.todo[0].0.name, Taken(s, maxScan).value;
                  var cfg, cfg' := w.configs[id], s'.world.configs[id];
                  && s'.world.configs == w.configs[id := cfg']
                  && cfg' == cfg.(alloc4 := cfg'.alloc4, alloc6 := cfg'.alloc6)
                  && cfg'.alloc4 == cfg.alloc4[name := ips.0]
                  && cfg'.alloc6 == (if cfg.range6.Some? then cfg.alloc6[name := ips.1.value] else cfg.alloc6))
  {
    hide Choose, Others, QuotaReached, AssignTo;
  }

  /** The pool after a round: marked once configs are listed, with the new addresses once they are assigned. */
  lemma RoundOnPool(s: System, api: CallApi, maxScan: nat, ip: Ip)
    requires JobProper(s) && s.job.Working?
    ensures var w, w' := s.world, Next(s, Round(api), maxScan).world;
            ip in w'.used <==>
            || ip in w.used
            || (s.job.todo != [] && !QuotaReached(s.job.copy) && api.listOk
                && exists c, name :: c != s.job.id && Records(w, c, name, ip))
            || (ReachesService(s, maxScan, api) && api.assign.Assigned? && ip in AddressesOf(Taken(s, maxScan).value))
  {
    hide Choose, Others, QuotaReached, AssignTo, Degenerate;
    MarkedIff(s.world, s.job.id, ip);
    if s.job.todo != [] {
      var pool, request := Marked(s.world, s.job.id), s.job.todo[0].1.request;
      GivenBackIsFresh(pool, s.job.copy, request, maxScan);
      if Taken(s, maxScan).Ok? {
        TakenIsFresh(pool, s.job.copy, request, maxScan);
      }
    }
  }

  lemma TakenIsFresh(pool: set<Ip>, cfg: Config, request: Request, maxScan: nat)
    requires ProperRanges(cfg) && ChoosePair(pool, cfg, request, maxScan).Ok?
    ensures AddressesOf(ChoosePair(pool, cfg, request, maxScan).value) !! pool
  {
  }

  // Who is served, over every run.

  /** A reconcile of the job's config listed the service with this value, and it passes the filter's tests. */
  ghost predicate WasListed(states: seq<System>, steps: seq<Step>, i: nat, id: Key, selector: seq<string>,
                            key: Key, svc: Service)
    requires |states| == |steps| + 1
  {
    && (exists j :: 0 <= j < i <= |steps| && steps[j].BeginReconcile? && steps[j].id == id
                    && (key, svc) in steps[j].listing
                    && key in states[j].world.services && states[j].world.services[key] == svc)
    && svc.loadBalancer && svc.lbClass in {None, Some("helios-lb")}
    && (selector == [] || key.ns in selector)
    && svc.ingress == [] && (svc.request.Text? ==> svc.request.parsed.Ok?)
  }

  lemma {:induction false} TodoWasListed(states: seq<System>, steps: seq<Step>, maxScan: nat, i: nat, k: nat)
    requires Run(states, steps, maxScan) && i <= |steps| && states[i].job.Working? && k < |states[i].job.todo|
    ensures var job := states[i].job;
            WasListed(states, steps, i, job.id, job.copy.selector, job.todo[k].0, job.todo[k].1)
    decreases i
  {
    hide Choose, Others, QuotaReached, AssignTo, Eligible, Conflicts;
    var s, step := states[i - 1], steps[i - 1];
    assert states[i] == Next(s, step, maxScan);
    if step.BeginReconcile? {
      ServesIff(s.world, step.id, step.listing, step.begin);
      var entry := states[i].job.todo[k];
      assert entry in EligibleOf(step.listing, s.world.configs[step.id]);
      EligibleByFields(entry.0, entry.1, s.world.configs[step.id]);
    } else if step.Round? {
      assert states[i].job.todo[k] == s.job.todo[k + 1];
      TodoWasListed(states, steps, maxScan, i - 1, k + 1);
    } else {
      TodoWasListed(states, steps, maxScan, i - 1, k);
    }
  }

  /**
    In every run a round changes one service at most, and that one was listed
    as a load balancer without a foreign class, in the selected namespaces and
    without an ingress.
   */
  lemma ServedWasListed(states: seq<System>, steps: seq<Step>, maxScan: nat, i: nat, key: Key)
    requires Run(states, steps, maxScan) && i < |steps| && steps[i].Round?
    requires key in states[i].world.services
    requires key !in states[i + 1].world.services
             || states[i + 1].world.services[key] != states[i].world.services[key]
    ensures var job := states[i].job;
            && key in states[i + 1].world.services && job.todo != [] && key == job.todo[0].0
            && WasListed(states, steps, i, job.id, job.copy.selector, key, job.todo[0].1)
  {
    hide ReachesService, Iterate, WasListed;
    RoundOnServices(states[i], steps[i].call, maxScan);
    ReachingHasTodo(states[i], maxScan, steps[i].call);
    TodoWasListed(states, steps, maxScan, i, 0);
  }

  lemma ReachingHasTodo(s: System, maxScan: nat, api: CallApi)
    requires ReachesService(s, maxScan, api)
    ensures s.job.Working? && s.job.todo != []
  {
  }

  /** An edit between listing and round is not noticed: the service is served whatever its type and class are then. */
  lemma EditIsNotNoticed(s: System, svc: Service, api: CallApi, maxScan: nat)
    requires ReachesService(s, maxScan, api) && api.assign.Assigned?
    requires svc.ingress == s.world.services[s.job.todo[0].0].ingress
    ensures var key := s.job.todo[0].0;
            && Enabled(s, EditService(key, svc))
            && var s1 := Next(s, EditService(key, svc), maxScan);
               var svc' := Next(s1, Round(api), maxScan).world.services[key];
               && svc'.loadBalancer == svc.loadBalancer
               && |svc'.ingress| > 0 && svc'.ingress[0] == Taken(s, maxScan).value.0
  {
    hide Choose, Others, QuotaReached;
    var s1 := Next(s, EditService(s.job.todo[0].0, svc), maxScan);
    assert Marked(s1.world, s.job.id) == Marked(s.world, s.job.id);
    RoundOnServices(s1, api, maxScan);
  }

  /** And a listed service that passes these tests and requests no address has its place in the list to serve. */
  lemma PassingIsListed(w: World, me: Key, listing: Listing, api: BeginApi, i: nat)
    requires Begin(w, me, listing, api).1.Working? && i < |listing|
    requires listing[i].1.loadBalancer && listing[i].1.lbClass in {None, Some("helios-lb")}
    requires w.configs[me].selector == [] || listing[i].0.ns in w.configs[me].selector
    requires listing[i].1.ingress == [] && listing[i].1.request == NoRequest
    ensures var todo, k := Begin(w, me, listing, api).1.todo, EligibleBefore(listing, w.configs[me], i);
            k < |todo| && todo[k] == listing[i]
  {
    hide Eligible, EligibleBefore, Conflicts, RecordedInside;
    ServesIff(w, me, listing, api);
    EligibleByFields(listing[i].0, listing[i].1, w.configs[me]);
    EligibleInOrder(listing, w.configs[me]);
    assert AtItsPlace(listing, w.configs[me], i);
  }
}
