/**
  Every run of the controller: reconciles, round by round, interleaved with
  changes of services and configs and with failing API calls. When no two
  services ever hold one address, and every held address is in the pool.
 */
module Ownership {
  import opened Parse
  import opened Allocator
  import opened Cluster
  import opened Manager

  datatype System = System(world: World, job: Job)

  datatype Step =
    | BeginReconcile(id: Key, listing: Listing, begin: BeginApi)
    | Round(call: CallApi)
    | CreateService(key: Key, svc: Service)
    | EditService(key: Key, svc: Service)
    | DeleteService(key: Key)
    | CreateConfig(id: Key, cfg: Config)
    | EditConfig(id: Key, cfg: Config)
    | DeleteConfig(id: Key)

  /** One worker, current reads; users write specs only, the controller writes statuses. */
  predicate Enabled(s: System, step: Step) {
    var w := s.world;
    match step
    case BeginReconcile(_, listing, _) =>
      && s.job.Idle?
      && (forall i :: 0 <= i < |listing| ==> listing[i].0 in w.services && w.services[listing[i].0] == listing[i].1)
      && DistinctKeys(listing)
    case Round(_) => s.job.Working?
    case CreateService(key, svc) => key !in w.services && svc.ingress == []
    case EditService(key, svc) => key in w.services && svc.ingress == w.services[key].ingress
    case DeleteService(key) => key in w.services
    case CreateConfig(id, cfg) =>
      id !in w.configs && cfg.alloc4 == map[] && cfg.alloc6 == map[] && !cfg.finalizer && !cfg.deleting
    case EditConfig(id, cfg) =>
      && id in w.configs
      && cfg.alloc4 == w.configs[id].alloc4 && cfg.alloc6 == w.configs[id].alloc6
      && cfg.finalizer == w.configs[id].finalizer && cfg.deleting == w.configs[id].deleting
    case DeleteConfig(id) => id in w.configs
  }

  function Next(s: System, step: Step, maxScan: nat): (s': System)
    requires Enabled(s, step)
  {
    var w := s.world;
    match step
    case BeginReconcile(id, listing, api) => var (w', job) := Begin(w, id, listing, api); System(w', job)
    case Round(api) => var (w', job) := Iterate(w, s.job, maxScan, api); System(w', job)
    case CreateService(key, svc) => s.(world := w.(services := w.services[key := svc]))
    case EditService(key, svc) => s.(world := w.(services := w.services[key := svc]))
    case DeleteService(key) => s.(world := w.(services := w.services - {key}))
    case CreateConfig(id, cfg) => s.(world := w.(configs := w.configs[id := cfg]))
    case EditConfig(id, cfg) => s.(world := w.(configs := w.configs[id := cfg]))
    case DeleteConfig(id) =>
      if w.configs[id].finalizer
      then s.(world := w.(configs := w.configs[id := w.configs[id].(deleting := true)]))
      else s.(world := w.(configs := w.configs - {id}))
  }

  // The setting.

  predicate ProperRanges(cfg: Config) {
    !Degenerate(cfg.range4) && (cfg.range6.Some? ==> !Degenerate(cfg.range6.value))
  }

  predicate AllProper(w: World) {
    forall c :: c in w.configs ==> ProperRanges(w.configs[c])
  }

  /**
    Every config has ranges of more than one address, and the services eligible
    for it are of its own namespace: its status names them without theirs.
   */
  ghost predicate Admissible(w: World) {
    && AllProper(w)
    && forall c, k :: c in w.configs && k in w.services && Eligible(k, w.services[k], w.configs[c]) ==> k.ns == c.ns
  }

  // The invariant.

  ghost predicate Holds(w: World, k: Key, ip: Ip) {
    k in w.services && ip in w.services[k].ingress
  }

  ghost predicate RecordsIn(cfg: Config, name: string, ip: Ip) {
    (name in cfg.alloc4 && cfg.alloc4[name] == ip) || (name in cfg.alloc6 && cfg.alloc6[name] == ip)
  }

  ghost predicate Records(w: World, c: Key, name: string, ip: Ip) {
    c in w.configs && RecordsIn(w.configs[c], name, ip)
  }

  /** Held addresses are in the pool. */
  ghost predicate HeldAreUsed(w: World) {
    forall k, ip :: Holds(w, k, ip) ==> ip in w.used
  }

  /** An address has one holder. */
  ghost predicate OneHolder(w: World) {
    forall k1, k2, ip :: Holds(w, k1, ip) && Holds(w, k2, ip) ==> k1 == k2
  }

  /** Only the service an address is recorded for can hold it. */
  ghost predicate HolderIsRecorded(w: World) {
    forall c, name, k, ip :: Records(w, c, name, ip) && Holds(w, k, ip) ==> k == Key(c.ns, name)
  }

  /** What a live config records is in the pool. */
  ghost predicate RecordedAreUsed(w: World) {
    forall c, name, ip :: Records(w, c, name, ip) && !w.configs[c].deleting ==> ip in w.used
  }

  /** An address is recorded by one config. */
  ghost predicate OneRecorder(w: World) {
    forall c1, c2, n1, n2, ip :: Records(w, c1, n1, ip) && Records(w, c2, n2, ip) ==> c1 == c2
  }

  /** The job's config is there, with its finalizer and with the records of the job's copy. */
  predicate JobCurrent(s: System) {
    var w, job := s.world, s.job;
    job.Working? ==>
      && job.id in w.configs && w.configs[job.id].finalizer
      && w.configs[job.id].alloc4 == job.copy.alloc4 && w.configs[job.id].alloc6 == job.copy.alloc6
  }

  predicate JobProper(s: System) {
    JobCurrent(s) && (s.job.Working? ==> ProperRanges(s.job.copy))
  }

  /** What is recorded, by live configs and by the job's, is in the pool and recorded by one config. */
  ghost predicate RecordsKept(s: System) {
    && RecordedAreUsed(s.world) && OneRecorder(s.world) && JobProper(s)
    && (s.job.Working? ==> forall name, ip :: RecordsIn(s.job.copy, name, ip) ==> ip in s.world.used)
  }

  ghost predicate JobInv(s: System) {
    && JobProper(s)
    && (s.job.Working? ==>
          && (forall name, ip :: RecordsIn(s.job.copy, name, ip) ==> ip in s.world.used)
          && (forall i :: 0 <= i < |s.job.todo| ==> s.job.todo[i].0.ns == s.job.id.ns))
  }

  ghost predicate WorldInv(w: World) {
    HeldAreUsed(w) && OneHolder(w) && HolderIsRecorded(w) && RecordedAreUsed(w) && OneRecorder(w)
  }

  ghost predicate Inv(s: System) {
    WorldInv(s.world) && JobInv(s)
  }

  lemma RecordedIs(cfg: Config, ip: Ip)
    ensures ip in Recorded(cfg) <==> exists name :: RecordsIn(cfg, name, ip)
  {
    if ip in cfg.alloc4.Values {
      var name :| name in cfg.alloc4 && cfg.alloc4[name] == ip;
      assert RecordsIn(cfg, name, ip);
    }
    if ip in cfg.alloc6.Values {
      var name :| name in cfg.alloc6 && cfg.alloc6[name] == ip;
      assert RecordsIn(cfg, name, ip);
    }
  }

  lemma OthersAre(w: World, me: Key, c: Key, name: string, ip: Ip)
    requires Records(w, c, name, ip) && c != me
    ensures ip in Others(w.configs, me)
  {
    RecordedIs(w.configs[c], ip);
  }

  lemma OthersFrom(w: World, me: Key, ip: Ip) returns (c: Key, name: string)
    requires ip in Others(w.configs, me)
    ensures c != me && Records(w, c, name, ip)
  {
    c :| c in w.configs && c != me && ip in Recorded(w.configs[c]);
    RecordedIs(w.configs[c], ip);
    name :| RecordsIn(w.configs[c], name, ip);
  }

  // A round of the loop.

  /** The round gets as far as assigning addresses to an existing service. */
  predicate ReachesService(s: System, maxScan: nat, api: CallApi) {
    var w, job := s.world, s.job;
    && job.Working? && job.todo != [] && !QuotaReached(job.copy) && api.listOk
    && ChoosePair(Marked(w, job.id), job.copy, job.todo[0].1.request, maxScan).Ok?
    && job.todo[0].0 in w.services
  }

  /** The addresses of a call are new: unused, unrecorded and, where holders are in the pool, unheld. */
  lemma PairIsFresh(s: System, request: Request, maxScan: nat)
    requires RecordsKept(s) && s.job.Working?
    requires ChoosePair(Marked(s.world, s.job.id), s.job.copy, request, maxScan).Ok?
    ensures var w := s.world;
            var ips := AddressesOf(ChoosePair(Marked(w, s.job.id), s.job.copy, request, maxScan).value);
            forall ip :: ip in ips ==>
              && ip !in Marked(w, s.job.id)
              && (HeldAreUsed(w) ==> forall k :: !Holds(w, k, ip))
              && (forall c, name :: !Records(w, c, name, ip))
  {
    hide Pick, PickSpecific, Bounds;
    var w, me := s.world, s.job.id;
    var pool := Marked(w, me);
    forall c, name, ip | Records(w, c, name, ip) ensures ip in pool {
      if c == me {
        assert RecordsIn(s.job.copy, name, ip);
      } else {
        OthersAre(w, me, c, name, ip);
      }
    }
  }

  /** A pool that grows by recorded addresses keeps the world's invariant. */
  lemma MarkingKeeps(w: World, me: Key)
    requires WorldInv(w)
    ensures WorldInv(w.(used := Marked(w, me)))
  {
    var w' := w.(used := Marked(w, me));
    assert forall k, ip :: Holds(w', k, ip) ==> Holds(w, k, ip);
    assert forall c, name, ip :: Records(w', c, name, ip) ==> Records(w, c, name, ip);
  }

  /** Giving a service new addresses keeps the world's invariant. */
  lemma AssigningKeeps(w: World, key: Key, svc: Service, used: set<Ip>)
    requires WorldInv(w) && w.used <= used && key in w.services
    requires forall ip :: ip in svc.ingress ==>
               ip in used && (forall k :: !Holds(w, k, ip)) && (forall c, name :: !Records(w, c, name, ip))
    ensures WorldInv(w.(used := used, services := w.services[key := svc]))
  {
    var w' := w.(used := used, services := w.services[key := svc]);
    assert forall k, ip :: Holds(w', k, ip) ==> (k == key && ip in svc.ingress) || Holds(w, k, ip);
    assert forall c, name, ip :: Records(w', c, name, ip) ==> Records(w, c, name, ip);
  }

  /** Recording addresses that only their own service holds keeps the world's invariant. */
  lemma RecordingKeeps(w: World, me: Key, name: string, ips: Pair)
    requires WorldInv(w) && me in w.configs
    requires forall ip :: ip in AddressesOf(ips) ==>
               && ip in w.used
               && (forall c, n :: !Records(w, c, n, ip))
               && (forall k :: Holds(w, k, ip) ==> k == Key(me.ns, name))
    ensures WorldInv(w.(configs := w.configs[me := Record(w.configs[me], name, ips)]))
  {
    var w' := w.(configs := w.configs[me := Record(w.configs[me], name, ips)]);
    assert forall k, ip :: Holds(w', k, ip) ==> Holds(w, k, ip);
    assert forall c, n, ip :: Records(w', c, n, ip) ==>
      Records(w, c, n, ip) || (c == me && n == name && ip in AddressesOf(ips));
  }

  lemma RoundKeeps(s: System, api: CallApi, maxScan: nat)
    requires Inv(s) && s.job.Working?
    requires !(ReachesService(s, maxScan, api) && api.assign.HalfWritten?)
    ensures Inv(Next(s, Round(api), maxScan))
  {
    hide Pick, PickSpecific, Bounds, Others;
    var w, job := s.world, s.job;
    if job.todo != [] && !QuotaReached(job.copy) && api.listOk {
      var (key, svc) := job.todo[0];
      var pool := Marked(w, job.id);
      MarkingKeeps(w, job.id);
      var pair := ChoosePair(pool, job.copy, svc.request, maxScan);
      if pair.Err? {
        assert pool - GivenBack(pool, job.copy, svc.request, maxScan) == pool;
      } else {
        PairIsFresh(s, svc.request, maxScan);
        var ips := pair.value;
        if !(key in w.services && api.assign.Assigned?) {
          assert pool + AddressesOf(ips) - AddressesOf(ips) == pool;
        } else {
          var svc' := w.services[key].(ingress := IngressOf(ips), lbClass := Some(HELIOS_CLASS));
          var used := pool + AddressesOf(ips);
          AssigningKeeps(w, key, svc', used);
          var w1 := w.(used := used, services := w.services[key := svc']);
          assert forall c, n, ip :: Records(w1, c, n, ip) <==> Records(w, c, n, ip);
          assert forall k, ip :: Holds(w1, k, ip) ==> k == key || Holds(w, k, ip);
          assert key == Key(job.id.ns, key.name);
          RecordingKeeps(w1, job.id, key.name, ips);
          assert forall n, ip :: RecordsIn(Record(job.copy, key.name, ips), n, ip) ==>
            RecordsIn(job.copy, n, ip) || ip in AddressesOf(ips);
        }
      }
    }
  }

  /** A service that keeps an address its failed call gives back holds it outside the pool. */
  lemma HalfWriteBreaks(s: System, api: CallApi, maxScan: nat)
    requires Inv(s) && ReachesService(s, maxScan, api) && api.assign.HalfWritten?
    ensures !HeldAreUsed(Next(s, Round(api), maxScan).world)
  {
    var key := s.job.todo[0].0;
    var w' := Next(s, Round(api), maxScan).world;
    var ips := ChoosePair(Marked(s.world, s.job.id), s.job.copy, s.job.todo[0].1.request, maxScan).value;
    assert Holds(w', key, ips.0) && ips.0 !in w'.used;
  }

  // Deletion.

  /** Some service is left holding an address that its config's deletion releases. */
  ghost predicate LeavesHolder(w: World, me: Key, failed: set<string>) {
    exists name, ip :: name in failed && Records(w, me, name, ip) && Holds(w, Key(me.ns, name), ip)
  }

  lemma ReleaseKeepsIff(w: World, me: Key, failed: set<string>)
    requires WorldInv(w) && me in w.configs && w.configs[me].deleting
    ensures WorldInv(ReleaseAll(w, me, w.configs[me], failed)) <==> !LeavesHolder(w, me, failed)
  {
    var cfg := w.configs[me];
    var w' := ReleaseAll(w, me, cfg, failed);
    forall ip ensures ip in Recorded(cfg) <==> exists name :: RecordsIn(cfg, name, ip) { RecordedIs(cfg, ip); }
    assert forall k, ip :: Holds(w', k, ip) ==> Holds(w, k, ip);
    assert forall c, n, ip :: Records(w', c, n, ip) <==> Records(w, c, n, ip);
    if LeavesHolder(w, me, failed) {
      ReleasedHolderRemains(w, me, failed);
    }
    if !HeldAreUsed(w') {
      var k, ip :| Holds(w', k, ip) && ip !in w'.used;
      var name :| RecordsIn(cfg, name, ip);
      assert Records(w, me, name, ip) && k == Key(me.ns, name);
      assert name in cfg.alloc4.Keys + cfg.alloc6.Keys && name in failed;
    }
    forall c, n, ip | Records(w', c, n, ip) && !w'.configs[c].deleting ensures ip in w'.used {
      RecordedElsewhere(w, me, c, n, ip);
    }
  }

  lemma RecordedElsewhere(w: World, me: Key, c: Key, name: string, ip: Ip)
    requires OneRecorder(w) && Records(w, c, name, ip) && me in w.configs && c != me
    ensures ip !in Recorded(w.configs[me])
  {
    RecordedIs(w.configs[me], ip);
    assert forall n :: RecordsIn(w.configs[me], n, ip) ==> Records(w, me, n, ip);
  }

  lemma ReleasedHolderRemains(w: World, me: Key, failed: set<string>)
    requires me in w.configs && LeavesHolder(w, me, failed)
    ensures var w' := ReleaseAll(w, me, w.configs[me], failed);
            !HeldAreUsed(w') && !HeldAreUsed(w'.(configs := w'.configs - {me}))
  {
    var w' := ReleaseAll(w, me, w.configs[me], failed);
    var name, ip :| name in failed && Records(w, me, name, ip) && Holds(w, Key(me.ns, name), ip);
    RecordedIs(w.configs[me], ip);
    assert Holds(w', Key(me.ns, name), ip) && ip !in w'.used;
    assert Holds(w'.(configs := w'.configs - {me}), Key(me.ns, name), ip);
  }

  lemma DroppingConfigKeeps(w: World, me: Key)
    requires WorldInv(w)
    ensures WorldInv(w.(configs := w.configs - {me}))
  {
    var w' := w.(configs := w.configs - {me});
    assert forall k, ip :: Holds(w', k, ip) ==> Holds(w, k, ip);
    assert forall c, n, ip :: Records(w', c, n, ip) ==> Records(w, c, n, ip);
  }

  /** Changing a config without touching what it records, or reviving it, keeps the world's invariant. */
  lemma EditingConfigKeeps(w: World, me: Key, cfg: Config)
    requires WorldInv(w)
    requires if me in w.configs
             then cfg.alloc4 == w.configs[me].alloc4 && cfg.alloc6 == w.configs[me].alloc6
                  && (w.configs[me].deleting ==> cfg.deleting)
             else cfg.alloc4 == map[] && cfg.alloc6 == map[]
    ensures WorldInv(w.(configs := w.configs[me := cfg]))
  {
    var w' := w.(configs := w.configs[me := cfg]);
    assert forall k, ip :: Holds(w', k, ip) ==> Holds(w, k, ip);
    assert forall c, n, ip :: Records(w', c, n, ip) ==> Records(w, c, n, ip);
  }

  /** The deletion step leaves a service with an address it releases. */
  ghost predicate BadDeletion(s: System, id: Key, api: BeginApi) {
    && id in s.world.configs && s.world.configs[id].deleting
    && (s.world.configs[id].finalizer || (api.addFinalizerOk && api.initialStatusOk))
    && LeavesHolder(s.world, id, api.clearFailed)
  }

  lemma BeginKeepsIff(s: System, id: Key, listing: Listing, api: BeginApi, maxScan: nat)
    requires Inv(s) && Admissible(s.world) && Enabled(s, BeginReconcile(id, listing, api))
    ensures Inv(Next(s, BeginReconcile(id, listing, api), maxScan)) <==> !BadDeletion(s, id, api)
  {
    hide Conflicts, RequestServed, Degenerate;
    var w := s.world;
    if id in w.configs {
      var cfg := w.configs[id].(finalizer := true);
      var w1 := w.(configs := w.configs[id := cfg]);
      EditingConfigKeeps(w, id, cfg);
      if cfg.deleting {
        ReleaseKeepsIff(w1, id, api.clearFailed);
        assert forall k, ip :: Holds(w1, k, ip) <==> Holds(w, k, ip);
        assert forall c, n, ip :: Records(w1, c, n, ip) <==> Records(w, c, n, ip);
        assert LeavesHolder(w1, id, api.clearFailed) <==> LeavesHolder(w, id, api.clearFailed);
        var w2 := ReleaseAll(w1, id, cfg, api.clearFailed);
        if !LeavesHolder(w, id, api.clearFailed) {
          DroppingConfigKeeps(w2, id);
        } else {
          ReleasedHolderRemains(w1, id, api.clearFailed);
        }
      } else {
        var todo := EligibleOf(listing, cfg);
        forall i | 0 <= i < |todo| ensures todo[i].0.ns == id.ns {
          assert todo[i] in listing;
        }
        assert forall name, ip :: RecordsIn(cfg, name, ip) ==> Records(w, id, name, ip);
      }
    }
  }

  // All steps.

  /** No call leaves a service half written, and no deletion leaves a holder behind. */
  ghost predicate Benign(s: System, step: Step, maxScan: nat) {
    match step
    case Round(api) => !(ReachesService(s, maxScan, api) && api.assign.HalfWritten?)
    case BeginReconcile(id, _, api) => !BadDeletion(s, id, api)
    case _ => true
  }

  lemma ServiceStepKeeps(s: System, step: Step, maxScan: nat)
    requires Inv(s) && Enabled(s, step)
    requires step.CreateService? || step.EditService? || step.DeleteService?
    ensures Inv(Next(s, step, maxScan))
  {
    var w, w' := s.world, Next(s, step, maxScan).world;
    assert forall k, ip :: Holds(w', k, ip) ==> Holds(w, k, ip);
    assert forall c, n, ip :: Records(w', c, n, ip) ==> Records(w, c, n, ip);
  }

  lemma ConfigStepKeeps(s: System, step: Step, maxScan: nat)
    requires Inv(s) && Enabled(s, step)
    requires step.CreateConfig? || step.EditConfig? || step.DeleteConfig?
    ensures Inv(Next(s, step, maxScan))
  {
    var w := s.world;
    match step {
      case CreateConfig(id, cfg) => EditingConfigKeeps(w, id, cfg);
      case EditConfig(id, cfg) => EditingConfigKeeps(w, id, cfg);
      case DeleteConfig(id) =>
        EditingConfigKeeps(w, id, w.configs[id].(deleting := true));
        DroppingConfigKeeps(w, id);
    }
  }

  /** A step that is not benign leaves a service with an address outside the pool. */
  lemma NotBenignBreaks(s: System, step: Step, maxScan: nat)
    requires Inv(s) && Enabled(s, step) && !Benign(s, step, maxScan)
    ensures !HeldAreUsed(Next(s, step, maxScan).world)
  {
    if step.Round? {
      HalfWriteBreaks(s, step.call, maxScan);
    } else {
      var w, id := s.world, step.id;
      var w1 := w.(configs := w.configs[id := w.configs[id].(finalizer := true)]);
      var name, ip :| name in step.begin.clearFailed && Records(w, id, name, ip) && Holds(w, Key(id.ns, name), ip);
      assert Records(w1, id, name, ip) && Holds(w1, Key(id.ns, name), ip);
      ReleasedHolderRemains(w1, id, step.begin.clearFailed);
    }
  }

  /** A step keeps the invariant exactly when it is benign. */
  lemma StepKeepsIff(s: System, step: Step, maxScan: nat)
    requires Inv(s) && Admissible(s.world) && Enabled(s, step)
    ensures Inv(Next(s, step, maxScan)) <==> Benign(s, step, maxScan)
  {
    hide Admissible, Next, Benign, Enabled, JobInv;
    if !Benign(s, step, maxScan) {
      NotBenignBreaks(s, step, maxScan);
    } else {
      BenignKeeps(s, step, maxScan);
    }
  }

  lemma BenignKeeps(s: System, step: Step, maxScan: nat)
    requires Inv(s) && Admissible(s.world) && Enabled(s, step) && Benign(s, step, maxScan)
    ensures Inv(Next(s, step, maxScan))
  {
    match step
    case BeginReconcile(id, listing, api) => BeginKeepsIff(s, id, listing, api, maxScan);
    case Round(api) => RoundKeeps(s, api, maxScan);
    case CreateService(_, _) => ServiceStepKeeps(s, step, maxScan);
    case EditService(_, _) => ServiceStepKeeps(s, step, maxScan);
    case DeleteService(_) => ServiceStepKeeps(s, step, maxScan);
    case CreateConfig(_, _) => ConfigStepKeeps(s, step, maxScan);
    case EditConfig(_, _) => ConfigStepKeeps(s, step, maxScan);
    case DeleteConfig(_) => ConfigStepKeeps(s, step, maxScan);
  }

  // What every step keeps, whatever fails and whoever is served.

  lemma StepKeepsJob(s: System, step: Step, maxScan: nat)
    requires JobCurrent(s) && Enabled(s, step)
    ensures JobCurrent(Next(s, step, maxScan))
  {
    hide ChoosePair, EligibleOf, Conflicts, AssignTo, Marked, GivenBack, QuotaReached, HandleDeletion;
  }

  lemma RoundKeepsRecords(s: System, api: CallApi, maxScan: nat)
    requires RecordsKept(s) && s.job.Working?
    ensures RecordsKept(Next(s, Round(api), maxScan))
  {
    hide Choose, Others, AssignTo, Degenerate, QuotaReached;
    var w, job := s.world, s.job;
    var s' := Next(s, Round(api), maxScan);
    StepKeepsJob(s, Round(api), maxScan);
    if job.todo != [] && !QuotaReached(job.copy) && api.listOk {
      var pool, request := Marked(w, job.id), job.todo[0].1.request;
      var pair := ChoosePair(pool, job.copy, request, maxScan);
      if pair.Ok? {
        PairIsFresh(s, request, maxScan);
        RecordsGrow(w, job.id, job.todo[0].0.name, pair.value, s'.world);
        assert forall n, ip :: RecordsIn(Record(job.copy, job.todo[0].0.name, pair.value), n, ip) ==>
          RecordsIn(job.copy, n, ip) || ip in AddressesOf(pair.value);
      } else {
        GivenBackIsFresh(pool, job.copy, request, maxScan);
        RecordsGrow(w, job.id, job.todo[0].0.name, ([0, 0, 0, 0], None), s'.world);
      }
    }
  }

  lemma GivenBackIsFresh(pool: set<Ip>, cfg: Config, request: Request, maxScan: nat)
    requires ProperRanges(cfg)
    ensures GivenBack(pool, cfg, request, maxScan) !! pool
  {
  }

  /** A pool that grows, and records that stay or grow by new addresses, keep the records' part of the invariant. */
  lemma RecordsGrow(w: World, me: Key, name: string, ips: Pair, w': World)
    requires RecordedAreUsed(w) && OneRecorder(w) && me in w.configs && w.used <= w'.used
    requires || w'.configs == w.configs
             || (w'.configs == w.configs[me := Record(w.configs[me], name, ips)]
                 && AddressesOf(ips) <= w'.used
                 && forall c, n, ip :: ip in AddressesOf(ips) ==> !Records(w, c, n, ip))
    ensures RecordedAreUsed(w') && OneRecorder(w')
  {
    assert forall c, n, ip :: Records(w', c, n, ip) ==>
      Records(w, c, n, ip) || (c == me && n == name && ip in AddressesOf(ips) && w'.configs != w.configs);
  }

  lemma BeginKeepsRecords(s: System, id: Key, listing: Listing, api: BeginApi, maxScan: nat)
    requires RecordsKept(s) && AllProper(s.world) && Enabled(s, BeginReconcile(id, listing, api))
    ensures RecordsKept(Next(s, BeginReconcile(id, listing, api), maxScan))
  {
    hide Conflicts, EligibleOf, Degenerate;
    var w := s.world;
    if id in w.configs {
      var w1 := w.(configs := w.configs[id := w.configs[id].(finalizer := true)]);
      assert forall c, n, ip :: Records(w1, c, n, ip) <==> Records(w, c, n, ip);
      assert forall n, ip :: RecordsIn(w1.configs[id], n, ip) ==> Records(w, id, n, ip);
      if w.configs[id].deleting {
        ReleaseKeepsRecords(w1, id, api);
      }
    }
  }

  lemma ReleaseKeepsRecords(w: World, me: Key, api: BeginApi)
    requires RecordedAreUsed(w) && OneRecorder(w) && me in w.configs && w.configs[me].deleting
    ensures RecordedAreUsed(HandleDeletion(w, me, api)) && OneRecorder(HandleDeletion(w, me, api))
  {
    var w' := HandleDeletion(w, me, api);
    assert forall c, n, ip :: Records(w', c, n, ip) ==> Records(w, c, n, ip);
    forall c, n, ip | Records(w', c, n, ip) && !w'.configs[c].deleting ensures ip in w'.used {
      RecordedElsewhere(w, me, c, n, ip);
    }
  }

  /** In every step the records' part of the invariant is kept. */
  lemma StepKeepsRecords(s: System, step: Step, maxScan: nat)
    requires RecordsKept(s) && AllProper(s.world) && Enabled(s, step)
    ensures RecordsKept(Next(s, step, maxScan))
  {
    hide ProperRanges;
    match step
    case Round(api) => RoundKeepsRecords(s, api, maxScan);
    case BeginReconcile(id, listing, api) => BeginKeepsRecords(s, id, listing, api, maxScan);
    case _ =>
      var w, w' := s.world, Next(s, step, maxScan).world;
      assert forall c, n, ip :: Records(w', c, n, ip) ==> Records(w, c, n, ip);
  }

  // Runs.

  const EMPTY := System(World({}, map[], map[]), Idle)

  /** The systems a sequence of steps passes through, from an empty cluster, whatever fails. */
  ghost predicate Run(states: seq<System>, steps: seq<Step>, maxScan: nat) {
    && |states| == |steps| + 1 && states[0] == EMPTY
    && forall i :: 0 <= i < |steps| ==>
         Enabled(states[i], steps[i]) && states[i + 1] == Next(states[i], steps[i], maxScan)
  }

  /** A run on ranges of more than one address. */
  ghost predicate ProperRun(states: seq<System>, steps: seq<Step>, maxScan: nat) {
    Run(states, steps, maxScan) && forall i :: 0 <= i < |steps| ==> AllProper(states[i].world)
  }

  /** A run on such ranges whose eligible services are of their config's namespace. */
  ghost predicate AdmissibleRun(states: seq<System>, steps: seq<Step>, maxScan: nat) {
    Run(states, steps, maxScan) && forall i :: 0 <= i < |steps| ==> Admissible(states[i].world)
  }

  lemma {:induction false} RunKeepsJob(states: seq<System>, steps: seq<Step>, maxScan: nat, i: nat)
    requires Run(states, steps, maxScan) && i <= |steps|
    ensures JobCurrent(states[i])
  {
    hide Next, Enabled;
    if i > 0 {
      RunKeepsJob(states, steps, maxScan, i - 1);
      StepKeepsJob(states[i - 1], steps[i - 1], maxScan);
    }
  }

  lemma {:induction false} RunKeepsRecords(states: seq<System>, steps: seq<Step>, maxScan: nat, i: nat)
    requires ProperRun(states, steps, maxScan) && i <= |steps|
    ensures RecordsKept(states[i])
  {
    hide Next, Enabled, AllProper;
    if i > 0 {
      RunKeepsRecords(states, steps, maxScan, i - 1);
      StepKeepsRecords(states[i - 1], steps[i - 1], maxScan);
    }
  }

  /** No two services hold one address, and what is held is in the pool. */
  ghost predicate Owned(w: World) {
    HeldAreUsed(w) && OneHolder(w)
  }

  lemma {:induction false} InvUpTo(states: seq<System>, steps: seq<Step>, maxScan: nat, i: nat)
    requires AdmissibleRun(states, steps, maxScan) && i <= |steps|
    requires (forall j :: 0 <= j <= i ==> Owned(states[j].world))
             || (forall j :: 0 <= j < i ==> Benign(states[j], steps[j], maxScan))
    ensures Inv(states[i])
  {
    hide Next, Enabled, Benign, Admissible, JobInv;
    if i == 0 {
      EmptyInv();
    } else {
      InvUpTo(states, steps, maxScan, i - 1);
      assert Benign(states[i - 1], steps[i - 1], maxScan) || Owned(states[i].world);
      if Benign(states[i - 1], steps[i - 1], maxScan) {
        BenignKeeps(states[i - 1], steps[i - 1], maxScan);
      } else {
        NotBenignBreaks(states[i - 1], steps[i - 1], maxScan);
      }
    }
  }

  lemma EmptyInv()
    ensures Inv(EMPTY)
  {
  }

  /** Over a whole run every state is owned, if and only if every step is benign. */
  lemma OwnedIff(states: seq<System>, steps: seq<Step>, maxScan: nat)
    requires AdmissibleRun(states, steps, maxScan)
    ensures (forall i :: 0 <= i <= |steps| ==> Owned(states[i].world))
            <==> forall i :: 0 <= i < |steps| ==> Benign(states[i], steps[i], maxScan)
  {
    hide Next, Enabled, Benign, Admissible, JobInv;
    if forall i :: 0 <= i <= |steps| ==> Owned(states[i].world) {
      forall i | 0 <= i < |steps| ensures Benign(states[i], steps[i], maxScan) {
        InvUpTo(states, steps, maxScan, i);
        assert Owned(states[i + 1].world);
        if !Benign(states[i], steps[i], maxScan) {
          NotBenignBreaks(states[i], steps[i], maxScan);
        }
      }
    }
    if forall i :: 0 <= i < |steps| ==> Benign(states[i], steps[i], maxScan) {
      forall i | 0 <= i <= |steps| ensures Owned(states[i].world) {
        InvUpTo(states, steps, maxScan, i);
      }
    }
  }

  /** As long as every step is benign, services hold disjoint addresses, all of them in the pool. */
  lemma ServicesNeverShare(states: seq<System>, steps: seq<Step>, maxScan: nat, i: nat, k1: Key, k2: Key, ip: Ip)
    requires AdmissibleRun(states, steps, maxScan) && i <= |steps|
    requires forall j :: 0 <= j < i ==> Benign(states[j], steps[j], maxScan)
    requires Holds(states[i].world, k1, ip) && Holds(states[i].world, k2, ip)
    ensures k1 == k2 && ip in states[i].world.used
  {
    InvUpTo(states, steps, maxScan, i);
  }

  /**
    Whatever failed before, an allocation returns no address that is used or
    recorded by any config, nor one that is held, as long as what is held is used.
   */
  lemma AllocationsAreNew(states: seq<System>, steps: seq<Step>, maxScan: nat, i: nat, api: CallApi, ip: Ip)
    requires ProperRun(states, steps, maxScan) && i < |steps| && steps[i] == Round(api) && states[i].job.todo != []
    requires var s := states[i];
             var r := AllocateAndAssign(s.world, s.job.id, s.job.copy, s.job.todo[0].0,
                                        s.job.todo[0].1.request, maxScan, api).1;
             r.Ok? && ip in AddressesOf(r.value)
    ensures var w := states[i].world;
            && ip !in w.used && (forall c, name :: !Records(w, c, name, ip))
            && (HeldAreUsed(w) ==> forall k :: !Holds(w, k, ip))
  {
    RunKeepsRecords(states, steps, maxScan, i);
    PairIsFresh(states[i], states[i].job.todo[0].1.request, maxScan);
  }

  /** A whole reconcile, as the controller runs it when nothing interleaves, keeps the invariant. */
  lemma ReconcileKeeps(w: World, me: Key, listing: Listing, maxScan: nat, api: BeginApi, apis: nat -> CallApi)
    requires Inv(System(w, Idle)) && Admissible(w)
    requires Enabled(System(w, Idle), BeginReconcile(me, listing, api))
    requires !BadDeletion(System(w, Idle), me, api) && forall i :: !apis(i).assign.HalfWritten?
    ensures Inv(System(Reconcile(w, me, listing, maxScan, api, apis), Idle))
  {
    hide Admissible, Benign;
    BeginKeepsIff(System(w, Idle), me, listing, api, maxScan);
    var (w1, job) := Begin(w, me, listing, api);
    FinishKeeps(w1, job, maxScan, apis, 0);
  }

  lemma {:induction false} FinishKeeps(w: World, job: Job, maxScan: nat, apis: nat -> CallApi, i: nat)
    requires Inv(System(w, job)) && forall j :: !apis(j).assign.HalfWritten?
    ensures Inv(System(Finish(w, job, maxScan, apis, i), Idle))
    decreases if job.Idle? then 0 else 1 + |job.todo|
  {
    hide WorldInv, AllocateAndAssign, QuotaReached;
    if job.Working? {
      RoundKeeps(System(w, job), apis(i), maxScan);
      var (w1, job1) := Iterate(w, job, maxScan, apis(i));
      if job1.Working? && |job1.todo| < |job.todo| {
        FinishKeeps(w1, job1, maxScan, apis, i + 1);
      }
    }
  }
}
