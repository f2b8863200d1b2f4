/**
  internal/controller/ip_manager.go and heliosconfig_controller.go: the loops
  that change the allocator and the API objects, proved against the steps of
  the Manager module.
 */
module Reconciler {
  import opened Parse
  import opened Allocator
  import opened Cluster
  import opened Manager

  /** What the configs of `done`, other than `me`, record. */
  function RecordedBy(configs: map<Key, Config>, done: set<Key>, me: Key): set<Ip> {
    set c, a | c in done && c in configs && c != me && a in Recorded(configs[c]) :: a
  }

  lemma RecordedByOneMore(configs: map<Key, Config>, done: set<Key>, me: Key, c: Key)
    requires c in configs
    ensures RecordedBy(configs, done + {c}, me)
            == RecordedBy(configs, done, me) + if c == me then {} else Recorded(configs[c])
  {
    var more := RecordedBy(configs, done, me) + if c == me then {} else Recorded(configs[c]);
    forall a | a in more ensures a in RecordedBy(configs, done + {c}, me) {
      if a in RecordedBy(configs, done, me) {
        var d :| d in done && d in configs && d != me && a in Recorded(configs[d]);
        assert d in done + {c};
      } else {
        assert c in done + {c};
      }
    }
  }

  /** The addresses under the names `done` that fall into `range`. */
  function Hits(ips: map<string, Ip>, done: set<string>, range: Range): set<Ip> {
    set n | n in done && n in ips && IPInRange(Ok(ips[n]), range) :: ips[n]
  }

  lemma HitsOneMore(ips: map<string, Ip>, done: set<string>, range: Range, n: string)
    requires n in ips
    ensures Hits(ips, done + {n}, range)
            == Hits(ips, done, range) + if IPInRange(Ok(ips[n]), range) then {ips[n]} else {}
  {
    hide IPInRange;
    var more := Hits(ips, done, range) + if IPInRange(Ok(ips[n]), range) then {ips[n]} else {};
    forall a | a in more ensures a in Hits(ips, done + {n}, range) {
      if a in Hits(ips, done, range) {
        var m :| m in done && m in ips && IPInRange(Ok(ips[m]), range) && ips[m] == a;
        assert m in done + {n};
      } else {
        assert n in done + {n};
      }
    }
  }

  /** The conflicts of `cfg` with one other config. */
  function ConflictsOf(cfg: Config, other: Config): set<Ip> {
    set ip | ip in Recorded(other) && ConflictsWith(cfg, other, ip)
  }

  lemma HitsAreConflicts(cfg: Config, other: Config)
    ensures ConflictsOf(cfg, other)
            == Hits(other.alloc4, other.alloc4.Keys, cfg.range4)
               + if cfg.range6.None? then {} else Hits(other.alloc6, other.alloc6.Keys, cfg.range6.value)
  {
    hide IPInRange;
  }

  function ConflictsBy(configs: map<Key, Config>, done: set<Key>, me: Key, cfg: Config): set<Ip> {
    set c, ip | c in done && c in configs && c != me
                && ip in Recorded(configs[c]) && ConflictsWith(cfg, configs[c], ip) :: ip
  }

  lemma ConflictsByOneMore(configs: map<Key, Config>, done: set<Key>, me: Key, cfg: Config, c: Key)
    requires c in configs
    ensures ConflictsBy(configs, done + {c}, me, cfg)
            == ConflictsBy(configs, done, me, cfg) + if c == me then {} else ConflictsOf(cfg, configs[c])
  {
    hide ConflictsWith;
    var more := ConflictsBy(configs, done, me, cfg) + if c == me then {} else ConflictsOf(cfg, configs[c]);
    forall a | a in more ensures a in ConflictsBy(configs, done + {c}, me, cfg) {
      if a in ConflictsBy(configs, done, me, cfg) {
        var d :| d in done && d in configs && d != me && a in Recorded(configs[d]) && ConflictsWith(cfg, configs[d], a);
        assert d in done + {c};
      } else {
        assert c in done + {c};
      }
    }
  }

  /** One round of the loop of Reconcile. */
  lemma FinishRound(w: World, job: Job, maxScan: nat, apis: nat -> CallApi, i: nat)
    requires job.Working?
    ensures Finish(w, job, maxScan, apis, i) ==
            var (w1, job1) := Iterate(w, job, maxScan, apis(i));
            if job1.Working? then Finish(w1, job1, maxScan, apis, i + 1) else w1
  {
  }

  class Controller {
    const allocator: IPAllocator
    var configs: map<Key, Config>
    var services: map<Key, Service>

    constructor (allocator: IPAllocator, configs: map<Key, Config>, services: map<Key, Service>)
      ensures this.allocator == allocator
      ensures State() == World(allocator.used, configs, services)
    {
      this.allocator := allocator;
      this.configs := configs;
      this.services := services;
    }

    function State(): World
      reads this, allocator
    {
      World(allocator.used, configs, services)
    }

    /** Mark every address of a status map. */
    method MarkAll(ips: map<string, Ip>)
      modifies allocator
      ensures allocator.used == old(allocator.used) + ips.Values
    {
      var done := {};
      while done != ips.Keys
        invariant done <= ips.Keys
        invariant allocator.used == old(allocator.used) + (set n | n in done :: ips[n])
        decreases ips.Keys - done
      {
        var n :| n in ips.Keys && n !in done;
        allocator.MarkUsed(ips[n]);
        done := done + {n};
      }
      assert (set n | n in done :: ips[n]) == ips.Values;
    }

    method ReleaseEach(ips: map<string, Ip>)
      modifies allocator
      ensures allocator.used == old(allocator.used) - ips.Values
    {
      var done := {};
      while done != ips.Keys
        invariant done <= ips.Keys
        invariant allocator.used == old(allocator.used) - (set n | n in done :: ips[n])
        decreases ips.Keys - done
      {
        var n :| n in ips.Keys && n !in done;
        allocator.ReleaseIP(ips[n]);
        done := done + {n};
      }
      assert (set n | n in done :: ips[n]) == ips.Values;
    }

    /** Mark the addresses that configs other than `me` record. */
    method MarkOthers(me: Key)
      modifies allocator
      ensures allocator.used == old(allocator.used) + Others(configs, me)
    {
      assert RecordedBy(configs, {}, me) == {};
      assert RecordedBy(configs, configs.Keys, me) == Others(configs, me);
      hide RecordedBy, Others;
      var done := {};
      while done != configs.Keys
        invariant done <= configs.Keys
        invariant allocator.used == old(allocator.used) + RecordedBy(configs, done, me)
        decreases configs.Keys - done
      {
        var c :| c in configs.Keys && c !in done;
        RecordedByOneMore(configs, done, me, c);
        if c != me {
          MarkAll(configs[c].alloc4);
          MarkAll(configs[c].alloc6);
        }
        done := done + {c};
      }
    }

    method AllocateIP(range: Range, requested: Option<Ip>) returns (ip: Result<Ip>)
      modifies allocator
      ensures ip == Choose(old(allocator.used), range, requested, allocator.maxScan)
      ensures allocator.used == if ip.Ok? then old(allocator.used) + {ip.value} else old(allocator.used)
    {
      if requested.None? {
        ip := allocator.AllocateIP(range);
      } else {
        ip := allocator.AllocateSpecificIP(range, Ok(requested.value));
      }
    }

    method AssignIPToService(key: Key, ips: Pair, outcome: AssignOutcome) returns (ok: bool)
      modifies this
      ensures ok == (key in old(services) && outcome.Assigned?)
      ensures services == AssignTo(old(services), key, ips, outcome) && configs == old(configs)
    {
      if key !in services || outcome.Untouched? { return false; }
      var svc := services[key].(ingress := [ips.0]);
      if ips.1.Some? {
        svc := svc.(ingress := svc.ingress + [ips.1.value]);
      }
      assert svc.ingress == IngressOf(ips);
      services := services[key := svc];
      if outcome.HalfWritten? { return false; }
      services := services[key := svc.(lbClass := Some(HELIOS_CLASS))];
      return true;
    }

    method AllocateAndAssign(me: Key, cfg: Config, key: Key, request: Request, api: CallApi)
      returns (r: Result<Pair>)
      modifies this, allocator
      ensures (State(), r)
              == Manager.AllocateAndAssign(old(State()), me, cfg, key, request, allocator.maxScan, api)
    {
      hide Choose;
      if !api.listOk { return Err; }
      MarkOthers(me);
      ghost var pool := allocator.used;
      assert pool == Marked(old(State()), me) == pool - {};
      var (want4, want6) := SplitRequest(request);
      var ip := AllocateIP(cfg.range4, want4);
      if ip.Err? { return Err; }
      var ip6: Option<Ip> := None;
      if cfg.range6.Some? {
        var second := AllocateIP(cfg.range6.value, want6);
        if second.Err? {
          allocator.ReleaseIP(ip.value);
          assert allocator.used == pool - {ip.value};
          return Err;
        }
        ip6 := Some(second.value);
      }
      var ok := AssignIPToService(key, (ip.value, ip6), api.assign);
      if !ok {
        allocator.ReleaseIP(ip.value);
        if ip6.Some? { allocator.ReleaseIP(ip6.value); }
        assert allocator.used == pool + AddressesOf((ip.value, ip6)) - AddressesOf((ip.value, ip6));
        return Err;
      }
      assert allocator.used == pool + AddressesOf((ip.value, ip6));
      return Ok((ip.value, ip6));
    }

    method ReleaseAll(me: Key, cfg: Config, failed: set<string>)
      modifies this, allocator
      ensures State() == Manager.ReleaseAll(old(State()), me, cfg, failed)
    {
      ReleaseEach(cfg.alloc4);
      ReleaseEach(cfg.alloc6);
      ClearAll(me.ns, cfg.alloc4.Keys + cfg.alloc6.Keys, failed);
      assert old(allocator.used) - cfg.alloc4.Values - cfg.alloc6.Values == old(allocator.used) - Recorded(cfg);
    }

    method ClearAll(ns: string, names: set<string>, failed: set<string>)
      modifies this
      ensures services == ClearIngress(old(services), ns, names - failed) && configs == old(configs)
    {
      var rest := names;
      while rest != {}
        invariant rest <= names && configs == old(configs)
        invariant services == ClearIngress(old(services), ns, names - rest - failed)
        decreases |rest|
      {
        var name :| name in rest;
        var key := Key(ns, name);
        if key in services && name !in failed {
          services := services[key := services[key].(ingress := [])];
        }
        rest := rest - {name};
      }
      assert names - rest - failed == names - failed;
    }

    /** Add the addresses of a status map that fall into `range`. */
    method AddConflicts(conflicts: set<Ip>, ips: map<string, Ip>, range: Range) returns (r: set<Ip>)
      ensures r == conflicts + Hits(ips, ips.Keys, range)
    {
      assert Hits(ips, {}, range) == {};
      hide IPInRange, Hits;
      r := conflicts;
      var done := {};
      while done != ips.Keys
        invariant done <= ips.Keys
        invariant r == conflicts + Hits(ips, done, range)
        decreases ips.Keys - done
      {
        var n :| n in ips.Keys && n !in done;
        HitsOneMore(ips, done, range, n);
        if IPInRange(Ok(ips[n]), range) {
          r := r + {ips[n]};
        }
        done := done + {n};
      }
    }

    /** CheckIPConflicts: the keys of the map it fills; the owners in it are only logged. */
    method CheckIPConflicts(me: Key, cfg: Config) returns (conflicts: set<Ip>)
      ensures conflicts == Conflicts(configs, me, cfg)
    {
      assert ConflictsBy(configs, {}, me, cfg) == {};
      assert ConflictsBy(configs, configs.Keys, me, cfg) == Conflicts(configs, me, cfg);
      hide Hits, ConflictsBy, ConflictsOf, Conflicts;
      conflicts := {};
      var done := {};
      while done != configs.Keys
        invariant done <= configs.Keys
        invariant conflicts == ConflictsBy(configs, done, me, cfg)
        decreases configs.Keys - done
      {
        var c :| c in configs.Keys && c !in done;
        ConflictsByOneMore(configs, done, me, cfg, c);
        if c != me {
          HitsAreConflicts(cfg, configs[c]);
          conflicts := AddConflicts(conflicts, configs[c].alloc4, cfg.range4);
          if cfg.range6.Some? {
            conflicts := AddConflicts(conflicts, configs[c].alloc6, cfg.range6.value);
          }
        }
        done := done + {c};
      }
    }

    method HandleDeletion(me: Key, api: BeginApi)
      requires me in configs
      modifies this, allocator
      ensures State() == Manager.HandleDeletion(old(State()), me, api)
    {
      ReleaseAll(me, configs[me], api.clearFailed);
      if api.removeFinalizerOk {
        configs := configs - {me};
      }
    }

    method ServeEligible(me: Key, cfg: Config, eligible: Listing, apis: nat -> CallApi)
      requires me in configs && configs[me] == cfg
      modifies this, allocator
      ensures State() == Finish(old(State()), Working(me, cfg, eligible), allocator.maxScan, apis, 0)
    {
      hide Choose, Conflicts;
      var copy := cfg;
      var i := 0;
      assert eligible[0..] == eligible;
      while i < |eligible|
        invariant 0 <= i <= |eligible|
        invariant me in configs && configs[me] == copy
        invariant Finish(old(State()), Working(me, cfg, eligible), allocator.maxScan, apis, 0)
                  == Finish(State(), Working(me, copy, eligible[i..]), allocator.maxScan, apis, i)
      {
        FinishRound(State(), Working(me, copy, eligible[i..]), allocator.maxScan, apis, i);
        if QuotaReached(copy) { return; }
        var (key, svc) := eligible[i];
        var r := AllocateAndAssign(me, copy, key, svc.request, apis(i));
        if r.Err? { return; }
        copy := Record(copy, key.name, r.value);
        if !apis(i).statusOk { return; }
        configs := configs[me := copy];
        i := i + 1;
      }
    }

    method Reconcile(me: Key, listing: Listing, api: BeginApi, apis: nat -> CallApi)
      modifies this, allocator
      ensures State() == Manager.Reconcile(old(State()), me, listing, allocator.maxScan, api, apis)
    {
      hide Iterate, Conflicts;
      if me !in configs { return; }
      var copy := configs[me];
      if !copy.finalizer {
        copy := copy.(finalizer := true);
        if !api.addFinalizerOk { return; }
        configs := configs[me := copy];
        if !api.initialStatusOk { return; }
      }
      assert copy == copy.(finalizer := true) && configs == configs[me := copy];
      if copy.deleting {
        HandleDeletion(me, api);
        return;
      }
      if !api.listServicesOk { return; }
      var eligible := FilterEligibleServices(listing, copy);
      if !api.listConfigsOk { return; }
      var conflicts := CheckIPConflicts(me, copy);
      if conflicts != {} { return; }
      ServeEligible(me, copy, eligible, apis);
    }
  }
}
