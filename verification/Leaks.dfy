/**
  When the pool stays the disjoint union of the records: exactly while no step
  leaks an address or drops a recorded one.
 */
module Leaks {
  import opened Parse
  import opened Cluster
  import opened Manager
  import opened Ownership

  /** A config records an address under a name, in its IPv4 or its IPv6 map. */
  ghost predicate RecordsAt(w: World, c: Key, v6: bool, name: string, ip: Ip) {
    c in w.configs &&
    var m := if v6 then w.configs[c].alloc6 else w.configs[c].alloc4;
    name in m && m[name] == ip
  }

  ghost predicate NameRecorded(w: World, c: Key, name: string) {
    c in w.configs && (name in w.configs[c].alloc4 || name in w.configs[c].alloc6)
  }

  /** The pool is the union of the records. */
  ghost predicate PoolIsRecords(w: World) {
    && (forall ip :: ip in w.used ==> exists c, v6, name :: RecordsAt(w, c, v6, name, ip))
    && (forall c, v6, name, ip :: RecordsAt(w, c, v6, name, ip) ==> ip in w.used)
  }

  /** The union is disjoint: an address is recorded once. */
  ghost predicate RecordedOnce(w: World) {
    forall c1, f1, n1, c2, f2, n2, ip ::
      RecordsAt(w, c1, f1, n1, ip) && RecordsAt(w, c2, f2, n2, ip) ==> c1 == c2 && f1 == f2 && n1 == n2
  }

  ghost predicate UnmarkedAreEmpty(w: World) {
    forall c, name :: NameRecorded(w, c, name) ==> w.configs[c].finalizer
  }

  ghost predicate Settled(s: System) {
    JobProper(s) && PoolIsRecords(s.world) && RecordedOnce(s.world) && UnmarkedAreEmpty(s.world)
  }

  /** The service's name is recorded already, in a map this call writes to. */
  predicate Overwrites(cfg: Config, name: string) {
    name in cfg.alloc4 || (cfg.range6.Some? && name in cfg.alloc6)
  }

  /** The addresses given to the service reach the status, and push none out of it. */
  predicate RoundLeakless(s: System, api: CallApi, maxScan: nat) {
    ReachesService(s, maxScan, api) && api.assign.Assigned? ==>
      && api.statusOk && s.job.id in s.world.configs && s.world.configs[s.job.id] == s.job.copy
      && !Overwrites(s.job.copy, s.job.todo[0].0.name)
  }

  /** A deletion that releases addresses also gets rid of the config. */
  predicate DeletionLeakless(w: World, id: Key, api: BeginApi) {
    && id in w.configs && w.configs[id].deleting
    && (w.configs[id].finalizer || (api.addFinalizerOk && api.initialStatusOk)) ==>
      api.removeFinalizerOk || Recorded(w.configs[id]) == {}
  }

  predicate Leakless(s: System, step: Step, maxScan: nat) {
    match step
    case Round(api) => RoundLeakless(s, api, maxScan)
    case BeginReconcile(id, _, api) => DeletionLeakless(s.world, id, api)
    case _ => true
  }

  lemma RecordsEither(w: World, c: Key, name: string, ip: Ip)
    ensures Records(w, c, name, ip) <==> RecordsAt(w, c, false, name, ip) || RecordsAt(w, c, true, name, ip)
  {
  }

  lemma OthersAreUsed(w: World, me: Key)
    requires PoolIsRecords(w)
    ensures Marked(w, me) == w.used
  {
    forall ip | ip in Others(w.configs, me) ensures ip in w.used {
      var c, name := OthersFrom(w, me, ip);
      RecordsEither(w, c, name, ip);
    }
  }

  /** A call takes distinct addresses that the pool does not have. */
  lemma PairIsDistinct(pool: set<Ip>, cfg: Config, request: Request, maxScan: nat)
    requires ProperRanges(cfg) && ChoosePair(pool, cfg, request, maxScan).Ok?
    ensures var ips := ChoosePair(pool, cfg, request, maxScan).value;
            && (forall ip :: ip in AddressesOf(ips) ==> ip !in pool)
            && (ips.1.Some? ==> ips.1.value != ips.0)
  {
  }

  lemma RecordedAtIs(w: World, c: Key, ip: Ip)
    requires c in w.configs
    ensures ip in Recorded(w.configs[c]) <==> exists f, n :: RecordsAt(w, c, f, n, ip)
  {
    RecordedIs(w.configs[c], ip);
    if ip in Recorded(w.configs[c]) {
      var n :| RecordsIn(w.configs[c], n, ip);
      assert RecordsAt(w, c, false, n, ip) || RecordsAt(w, c, true, n, ip);
    }
    if f, n :| RecordsAt(w, c, f, n, ip) {
      assert RecordsIn(w.configs[c], n, ip);
    }
  }

  /** Changing a config's spec or metadata, or adding an empty config, changes no record. */
  lemma RecordsUnchanged(w: World, id: Key, cfg: Config)
    requires if id in w.configs
             then cfg.alloc4 == w.configs[id].alloc4 && cfg.alloc6 == w.configs[id].alloc6
             else cfg.alloc4 == map[] && cfg.alloc6 == map[]
    ensures var w' := w.(configs := w.configs[id := cfg]);
            && (forall c, f, n, ip :: RecordsAt(w', c, f, n, ip) <==> RecordsAt(w, c, f, n, ip))
            && (forall c, n :: NameRecorded(w', c, n) <==> NameRecorded(w, c, n))
  {
  }

  ghost predicate InSlot(ips: Pair, v6: bool, ip: Ip) {
    if v6 then ips.1 == Some(ip) else ips.0 == ip
  }

  /** The records after a service got `ips`: the slots of its name are the new ones. */
  lemma SlotsAfter(w: World, me: Key, name: string, ips: Pair, w': World, c: Key, f: bool, n: string, ip: Ip)
    requires me in w.configs && w'.configs == w.configs[me := Record(w.configs[me], name, ips)]
    ensures RecordsAt(w', c, f, n, ip) <==>
            if c == me && n == name && (f ==> ips.1.Some?) then InSlot(ips, f, ip) else RecordsAt(w, c, f, n, ip)
  {
  }

  lemma RecordingConservesIff(w: World, me: Key, name: string, ips: Pair, w': World)
    requires PoolIsRecords(w) && RecordedOnce(w) && UnmarkedAreEmpty(w)
    requires me in w.configs && w.configs[me].finalizer
    requires w'.used == w.used + AddressesOf(ips)
    requires w'.configs == w.configs[me := Record(w.configs[me], name, ips)]
    requires forall ip :: ip in AddressesOf(ips) ==> ip !in w.used
    requires ips.1.Some? ==> ips.1.value != ips.0
    requires ips.1.Some? <==> w.configs[me].range6.Some?
    ensures RecordedOnce(w') && UnmarkedAreEmpty(w')
    ensures PoolIsRecords(w') <==> !Overwrites(w.configs[me], name)
  {
    forall c, f, n, ip
      ensures RecordsAt(w', c, f, n, ip) <==>
              if c == me && n == name && (f ==> ips.1.Some?) then InSlot(ips, f, ip) else RecordsAt(w, c, f, n, ip)
    {
      SlotsAfter(w, me, name, ips, w', c, f, n, ip);
    }
    assert forall c, n :: NameRecorded(w', c, n) ==> NameRecorded(w, c, n) || c == me;
    var cfg := w.configs[me];
    if name in cfg.alloc4 {
      assert RecordsAt(w, me, false, name, cfg.alloc4[name]);
    } else if Overwrites(cfg, name) {
      assert RecordsAt(w, me, true, name, cfg.alloc6[name]);
    } else {
      assert RecordsAt(w', me, false, name, ips.0);
      if ips.1.Some? {
        assert RecordsAt(w', me, true, name, ips.1.value);
      }
    }
  }

  lemma PoolMovesAlone(w: World, w': World)
    requires PoolIsRecords(w) && RecordedOnce(w) && UnmarkedAreEmpty(w) && w'.configs == w.configs
    ensures RecordedOnce(w') && UnmarkedAreEmpty(w')
    ensures PoolIsRecords(w') <==> w'.used == w.used
  {
    assert forall c, f, n, ip :: RecordsAt(w', c, f, n, ip) <==> RecordsAt(w, c, f, n, ip);
    assert forall c, n :: NameRecorded(w', c, n) ==> NameRecorded(w, c, n);
    if PoolIsRecords(w') {
      assert forall ip :: ip in w.used <==> ip in w'.used;
    }
  }

  lemma RoundConservesIff(s: System, api: CallApi, maxScan: nat)
    requires Settled(s) && s.job.Working?
    ensures var w' := Next(s, Round(api), maxScan).world;
            && RecordedOnce(w') && UnmarkedAreEmpty(w')
            && (PoolIsRecords(w') <==> RoundLeakless(s, api, maxScan))
  {
    hide Choose, Others, PoolIsRecords, RecordedOnce, UnmarkedAreEmpty, ProperRanges;
    var w, job := s.world, s.job;
    var w' := Next(s, Round(api), maxScan).world;
    OthersAreUsed(w, job.id);
    if ReachesService(s, maxScan, api) {
      var (key, svc) := job.todo[0];
      var ips := ChoosePair(w.used, job.copy, svc.request, maxScan).value;
      PairIsDistinct(w.used, job.copy, svc.request, maxScan);
      assert ips.0 in AddressesOf(ips);
      if api.assign.Assigned? && api.statusOk && w.configs[job.id] == job.copy {
        RecordingConservesIff(w, job.id, key.name, ips, w');
      } else {
        assert w.used + AddressesOf(ips) - AddressesOf(ips) == w.used;
        PoolMovesAlone(w, w');
      }
    } else {
      UnreachedKeepsPool(s, api, maxScan);
      PoolMovesAlone(w, w');
    }
  }

  lemma UnreachedKeepsPool(s: System, api: CallApi, maxScan: nat)
    requires JobProper(s) && s.job.Working? && Marked(s.world, s.job.id) == s.world.used
    requires !ReachesService(s, maxScan, api)
    ensures var w' := Next(s, Round(api), maxScan).world;
            w'.used == s.world.used && w'.configs == s.world.configs
  {
    hide Choose, Others, ProperRanges;
    var w, job := s.world, s.job;
    if job.todo != [] && !QuotaReached(job.copy) && api.listOk {
      var (key, svc) := job.todo[0];
      var pair := ChoosePair(w.used, job.copy, svc.request, maxScan);
      if pair.Err? {
        GivenBackIsFresh(w.used, job.copy, svc.request, maxScan);
      } else {
        PairIsDistinct(w.used, job.copy, svc.request, maxScan);
        assert w.used + AddressesOf(pair.value) - AddressesOf(pair.value) == w.used;
      }
    }
  }

  lemma DeletionConservesIff(w: World, me: Key, api: BeginApi)
    requires PoolIsRecords(w) && RecordedOnce(w) && UnmarkedAreEmpty(w) && me in w.configs
    ensures var w' := HandleDeletion(w, me, api);
            && RecordedOnce(w') && UnmarkedAreEmpty(w')
            && (PoolIsRecords(w') <==> api.removeFinalizerOk || Recorded(w.configs[me]) == {})
  {
    var cfg, w' := w.configs[me], HandleDeletion(w, me, api);
    forall ip ensures ip in Recorded(cfg) <==> exists f, n :: RecordsAt(w, me, f, n, ip) {
      RecordedAtIs(w, me, ip);
    }
    if api.removeFinalizerOk {
      assert forall c, f, n, ip :: RecordsAt(w', c, f, n, ip) <==> RecordsAt(w, c, f, n, ip) && c != me;
      assert forall c, n :: NameRecorded(w', c, n) <==> NameRecorded(w, c, n) && c != me;
      forall ip | ip in w'.used ensures exists c, f, n :: RecordsAt(w', c, f, n, ip) {
        var c, f, n :| RecordsAt(w, c, f, n, ip);
        assert RecordsAt(w', c, f, n, ip);
      }
    } else {
      PoolMovesAlone(w, w');
      assert Recorded(cfg) <= w.used && w'.used == w.used - Recorded(cfg);
      assert w'.used == w.used <==> Recorded(cfg) == {} by {
        if ip :| ip in Recorded(cfg) {
          assert ip in w.used && ip !in w'.used;
        }
      }
    }
  }

  /** Worlds with the same records, the same pool and no finalizer lost are settled alike. */
  lemma SameRecords(w: World, w': World)
    requires PoolIsRecords(w) && RecordedOnce(w) && UnmarkedAreEmpty(w) && w'.used == w.used
    requires forall c, f, n, ip :: RecordsAt(w', c, f, n, ip) <==> RecordsAt(w, c, f, n, ip)
    requires forall c, n :: NameRecorded(w', c, n) ==> NameRecorded(w, c, n) && w'.configs[c].finalizer
    ensures PoolIsRecords(w') && RecordedOnce(w') && UnmarkedAreEmpty(w')
  {
  }

  lemma BeginConservesIff(s: System, id: Key, listing: Listing, api: BeginApi, maxScan: nat)
    requires Settled(s) && Enabled(s, BeginReconcile(id, listing, api))
    ensures var w' := Next(s, BeginReconcile(id, listing, api), maxScan).world;
            && RecordedOnce(w') && UnmarkedAreEmpty(w')
            && (PoolIsRecords(w') <==> DeletionLeakless(s.world, id, api))
  {
    hide Conflicts, EligibleOf, HandleDeletion, PoolIsRecords, RecordedOnce;
    var w := s.world;
    if id in w.configs {
      var cfg := w.configs[id].(finalizer := true);
      var w1 := w.(configs := w.configs[id := cfg]);
      RecordsUnchanged(w, id, cfg);
      SameRecords(w, w1);
      DeletionConservesIff(w1, id, api);
    }
  }

  lemma OtherStepConserves(s: System, step: Step, maxScan: nat)
    requires Settled(s) && Enabled(s, step) && !step.Round? && !step.BeginReconcile?
    ensures var w' := Next(s, step, maxScan).world;
            RecordedOnce(w') && UnmarkedAreEmpty(w') && PoolIsRecords(w')
  {
    hide PoolIsRecords, RecordedOnce;
    var w, w' := s.world, Next(s, step, maxScan).world;
    match step {
      case CreateConfig(id, cfg) => RecordsUnchanged(w, id, cfg);
      case EditConfig(id, cfg) => RecordsUnchanged(w, id, cfg);
      case DeleteConfig(id) =>
        RecordsUnchanged(w, id, w.configs[id].(deleting := true));
        if !w.configs[id].finalizer {
          assert forall n :: !NameRecorded(w, id, n);
          assert forall f, n, ip :: RecordsAt(w, id, f, n, ip) ==> NameRecorded(w, id, n);
          assert forall c, f, n, ip :: RecordsAt(w', c, f, n, ip) <==> RecordsAt(w, c, f, n, ip);
        }
      case _ =>
    }
    SameRecords(w, w');
  }

  /** A step keeps the pool the union of the records exactly when it is leakless. */
  lemma StepConservesIff(s: System, step: Step, maxScan: nat)
    requires Settled(s) && Enabled(s, step)
    ensures var w' := Next(s, step, maxScan).world;
            && RecordedOnce(w') && UnmarkedAreEmpty(w')
            && (PoolIsRecords(w') <==> Leakless(s, step, maxScan))
  {
    match step
    case Round(api) => RoundConservesIff(s, api, maxScan);
    case BeginReconcile(id, listing, api) => BeginConservesIff(s, id, listing, api, maxScan);
    case _ => OtherStepConserves(s, step, maxScan);
  }

  lemma RunIsProper(states: seq<System>, steps: seq<Step>, maxScan: nat, i: nat)
    requires ProperRun(states, steps, maxScan) && i <= |steps|
    ensures JobProper(states[i])
  {
    hide Next, Enabled, AllProper;
    RunKeepsRecords(states, steps, maxScan, i);
  }

  lemma {:induction false} SettledUpTo(states: seq<System>, steps: seq<Step>, maxScan: nat, i: nat)
    requires ProperRun(states, steps, maxScan) && i <= |steps|
    requires (forall j :: 0 <= j <= i ==> PoolIsRecords(states[j].world))
             || (forall j :: 0 <= j < i ==> Leakless(states[j], steps[j], maxScan))
    ensures Settled(states[i])
  {
    hide Next, Enabled, AllProper, Leakless, RecordsKept, JobProper;
    RunIsProper(states, steps, maxScan, i);
    if i == 0 {
      assert states[0] == EMPTY;
    } else {
      SettledUpTo(states, steps, maxScan, i - 1);
      StepConservesIff(states[i - 1], steps[i - 1], maxScan);
      assert states[i] == Next(states[i - 1], steps[i - 1], maxScan);
    }
  }

  /**
    Over a whole run the pool is, in every state, the union of what the configs
    record, if and only if every step is leakless; the union is then disjoint.
   */
  lemma PoolIsRecordsIff(states: seq<System>, steps: seq<Step>, maxScan: nat)
    requires ProperRun(states, steps, maxScan)
    ensures (forall i :: 0 <= i <= |steps| ==> PoolIsRecords(states[i].world))
            <==> forall i :: 0 <= i < |steps| ==> Leakless(states[i], steps[i], maxScan)
    ensures (forall i :: 0 <= i < |steps| ==> Leakless(states[i], steps[i], maxScan)) ==>
              forall i :: 0 <= i <= |steps| ==> RecordedOnce(states[i].world)
  {
    hide Next, Enabled, AllProper, Leakless, PoolIsRecords, RecordedOnce;
    if forall i :: 0 <= i <= |steps| ==> PoolIsRecords(states[i].world) {
      forall i | 0 <= i < |steps| ensures Leakless(states[i], steps[i], maxScan) {
        SettledUpTo(states, steps, maxScan, i);
        StepConservesIff(states[i], steps[i], maxScan);
        assert states[i + 1] == Next(states[i], steps[i], maxScan);
      }
    }
    if forall i :: 0 <= i < |steps| ==> Leakless(states[i], steps[i], maxScan) {
      forall i | 0 <= i <= |steps| ensures PoolIsRecords(states[i].world) && RecordedOnce(states[i].world) {
        SettledUpTo(states, steps, maxScan, i);
      }
    }
  }

  /** Once every config of a leakless run is gone, the pool is empty. */
  lemma DeletingAllEmptiesPool(states: seq<System>, steps: seq<Step>, maxScan: nat, i: nat)
    requires ProperRun(states, steps, maxScan) && i <= |steps| && states[i].world.configs == map[]
    requires forall j :: 0 <= j < i ==> Leakless(states[j], steps[j], maxScan)
    ensures states[i].world.used == {}
  {
    SettledUpTo(states, steps, maxScan, i);
    assert forall c, f, n, ip :: !RecordsAt(states[i].world, c, f, n, ip);
  }
}
