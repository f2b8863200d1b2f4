/** Requested addresses, and the settings in which the controller's guarantees fail. */
module Requests {
  import opened Bytes
  import opened Parse
  import opened Allocator
  import opened Containment
  import opened Cluster
  import opened Manager
  import opened Ownership

  /**
    A call that succeeds returns the requested address, normalized and in its
    own family's slot, exactly when there is such a slot: an IPv6 request on a
    single-stack config is answered with some IPv4 address instead.
   */
  lemma RequestHonoredIff(pool: set<Ip>, cfg: Config, target: Ip, maxScan: nat)
    requires ChoosePair(pool, cfg, Text(Ok(target)), maxScan).Ok?
    requires |Bounds(cfg.range4).value.0| == 4
    ensures var ips := ChoosePair(pool, cfg, Text(Ok(target)), maxScan).value;
            var want := Normalize(target);
            && (|want| == 4 ==> ips.0 == want)
            && (|want| == 16 && cfg.range6.Some? ==> ips.1 == Some(want))
            && (want in AddressesOf(ips) <==> |want| == 4 || cfg.range6.Some?)
  {
    if |Normalize(target)| == 16 && cfg.range6.None? {
      PickFamily(pool, cfg.range4, maxScan);
    }
  }

  function OwnRange(cfg: Config, want: Ip): (r: Option<Range>) {
    if |want| == 4 then Some(cfg.range4) else cfg.range6
  }

  function OtherRange(cfg: Config, want: Ip): (r: Option<Range>) {
    if |want| == 4 then cfg.range6 else Some(cfg.range4)
  }

  /** `want` lies, as a number, in the range of its own family. */
  predicate OwnServes(cfg: Config, want: Ip) {
    && OwnRange(cfg, want).Some? && Bounds(OwnRange(cfg, want).value).Ok?
    && var (start, end) := Bounds(OwnRange(cfg, want).value).value;
       |want| == |start| && Val(start) <= Val(want) <= Val(end)
  }

  /** `want` is outside its own family's range and looks like an address of the other's. */
  predicate LookAlike(cfg: Config, want: Ip) {
    !OwnServes(cfg, want) && OtherRange(cfg, want).Some? && LooksLike(want, OtherRange(cfg, want).value)
  }

  lemma OwnRangeServesIff(cfg: Config, target: Ip)
    requires FamilyCorrect(cfg)
    ensures OwnRange(cfg, Normalize(target)).Some? ==>
              (IPAllocatable(Ok(target), OwnRange(cfg, Normalize(target)).value) <==> OwnServes(cfg, Normalize(target)))
  {
    hide Val, Compare, Bounds;
    var want := Normalize(target);
    if OwnRange(cfg, want).Some? {
      CompareIsNumeric(want, Bounds(OwnRange(cfg, want).value).value.0);
      CompareIsNumeric(want, Bounds(OwnRange(cfg, want).value).value.1);
    }
  }

  /**
    The filter lets a requested address pass exactly when its own family's range
    has it or it is a look-alike, on single- and dual-stack configs.
   */
  lemma AdmittedIff(key: Key, svc: Service, cfg: Config, target: Ip)
    requires svc.request == Text(Ok(target)) && FamilyCorrect(cfg)
    ensures Eligible(key, svc, cfg) <==>
            && Eligible(key, svc.(request := NoRequest), cfg)
            && (OwnServes(cfg, Normalize(target)) || LookAlike(cfg, Normalize(target)))
  {
    hide Val, Compare, Bounds, IPAllocatable;
    OwnRangeServesIff(cfg, target);
    if OtherRange(cfg, Normalize(target)).Some? {
      CrossFamily(OtherRange(cfg, Normalize(target)).value, target);
    }
  }

  /**
    An admitted request that its own family's range has is refused exactly when
    the address is taken or the range of the other family is exhausted.
   */
  lemma AdmittedRequestRefusedIff(pool: set<Ip>, key: Key, svc: Service, cfg: Config, target: Ip, maxScan: nat)
    requires Eligible(key, svc, cfg) && svc.request == Text(Ok(target)) && FamilyCorrect(cfg)
    requires !LookAlike(cfg, Normalize(target))
    ensures var want := Normalize(target);
            ChoosePair(pool, cfg, svc.request, maxScan).Err? <==>
            || want in pool
            || (OtherRange(cfg, want).Some? && Exhausted(pool + {want}, OtherRange(cfg, want).value, maxScan))
  {
    hide Val, Compare, Bounds, IPAllocatable, OwnServes, LookAlike, Eligible, Pick, Exhausted;
    var want := Normalize(target);
    AdmittedIff(key, svc, cfg, target);
    OwnRangeServesIff(cfg, target);
    OwnServesHasRange(cfg, want);
    if |want| == 4 {
      if cfg.range6.Some? {
        PickFailsIff(pool + {want}, cfg.range6.value, maxScan);
      }
    } else {
      PickFailsIff(pool, cfg.range4, maxScan);
      OtherFamilyIrrelevant(pool, want, cfg.range4, maxScan);
      if Pick(pool, cfg.range4, maxScan).Ok? {
        PickFamily(pool, cfg.range4, maxScan);
      }
    }
  }

  lemma OwnServesHasRange(cfg: Config, want: Ip)
    requires OwnServes(cfg, want)
    ensures OwnRange(cfg, want).Some?
  {
  }

  /** An IPv6 address in the pool does not exhaust an IPv4 range. */
  lemma OtherFamilyIrrelevant(pool: set<Ip>, want: Ip, r: Range, maxScan: nat)
    requires FamilyRange(r, 4) && |want| == 16
    ensures Exhausted(pool + {want}, r, maxScan) <==> Exhausted(pool, r, maxScan)
  {
    hide Bounds, Scanned;
    var (start, end) := Bounds(r).value;
    forall x: Ip | Scanned(x, start, end, maxScan) ensures Normalize(x) == x && x != want {
      ScannedLength(x, start, end, maxScan);
    }
  }

  /** On a pool with no address of `r`, an ordered range has one to give. */
  lemma FirstIsFree(pool: set<Ip>, r: Range, len: nat, maxScan: nat)
    requires FamilyRange(r, len) && maxScan > 0 && forall ip :: ip in pool ==> |ip| != len
    ensures Pick(pool, r, maxScan).Ok?
  {
    hide Val, Compare, Bounds;
    var (start, end) := Bounds(r).value;
    StartNormal(r);
    PickFailsIff(pool, r, maxScan);
    assert Scanned(start, start, end, maxScan);
  }

  /**
    An admitted request is never answered with its address, from any pool,
    exactly when it is a look-alike. On a dual-stack config it is then refused
    from every pool; on a single-stack config it is given some IPv4 address
    instead, as long as there is one.
   */
  lemma NeverHandedIff(key: Key, svc: Service, cfg: Config, target: Ip, maxScan: nat)
    requires Eligible(key, svc, cfg) && svc.request == Text(Ok(target)) && FamilyCorrect(cfg) && maxScan > 0
    ensures (forall pool :: ChoosePair(pool, cfg, svc.request, maxScan).Ok? ==>
               Normalize(target) !in AddressesOf(ChoosePair(pool, cfg, svc.request, maxScan).value))
            <==> LookAlike(cfg, Normalize(target))
    ensures LookAlike(cfg, Normalize(target)) ==>
              forall pool :: ChoosePair(pool, cfg, svc.request, maxScan).Err? <==>
                               cfg.range6.Some? || Exhausted(pool, cfg.range4, maxScan)
  {
    hide Val, Compare, Bounds, Eligible, Exhausted, ChoosePair;
    if LookAlike(cfg, Normalize(target)) {
      forall pool
        ensures ChoosePair(pool, cfg, svc.request, maxScan).Err? <==>
                cfg.range6.Some? || Exhausted(pool, cfg.range4, maxScan)
        ensures ChoosePair(pool, cfg, svc.request, maxScan).Ok? ==>
                Normalize(target) !in AddressesOf(ChoosePair(pool, cfg, svc.request, maxScan).value)
      {
        LookAlikeRefused(pool, cfg, target, maxScan);
      }
    } else {
      AdmittedIff(key, svc, cfg, target);
      HandedFromEmpty(cfg, target, maxScan);
    }
  }

  lemma LookAlikeRefused(pool: set<Ip>, cfg: Config, target: Ip, maxScan: nat)
    requires FamilyCorrect(cfg) && LookAlike(cfg, Normalize(target))
    ensures var r := ChoosePair(pool, cfg, Text(Ok(target)), maxScan);
            && (r.Err? <==> cfg.range6.Some? || Exhausted(pool, cfg.range4, maxScan))
            && (r.Ok? ==> Normalize(target) !in AddressesOf(r.value))
  {
    hide Val, Compare, Bounds, IPAllocatable, Pick, Exhausted;
    OwnRangeServesIff(cfg, target);
    PickFailsIff(pool, cfg.range4, maxScan);
    if |Normalize(target)| == 16 && Pick(pool, cfg.range4, maxScan).Ok? {
      PickFamily(pool, cfg.range4, maxScan);
    }
  }

  lemma HandedFromEmpty(cfg: Config, target: Ip, maxScan: nat)
    requires FamilyCorrect(cfg) && OwnServes(cfg, Normalize(target)) && maxScan > 0
    ensures var r := ChoosePair({}, cfg, Text(Ok(target)), maxScan);
            r.Ok? && Normalize(target) in AddressesOf(r.value)
  {
    hide Val, Compare, Bounds, IPAllocatable, Pick;
    var want := Normalize(target);
    OwnRangeServesIff(cfg, target);
    OwnServesHasRange(cfg, want);
    if |want| == 4 {
      if cfg.range6.Some? {
        FirstIsFree({} + {want}, cfg.range6.value, 16, maxScan);
      }
    } else {
      FirstIsFree({}, cfg.range4, 4, maxScan);
      PickFamily({}, cfg.range4, maxScan);
    }
  }

  /** A dual-stack config admits a request for 253.0.0.5 by its IPv6 range, and refuses it from every pool. */
  lemma DualStackExample(key: Key, pool: set<Ip>, maxScan: nat)
    ensures var cfg := Config(Span([10, 0, 0, 1], [10, 0, 0, 9]),
                              Some(Span([253, 0, 0, 0, 0, 0, 0, 0, 0, 0, 0, 0, 0, 0, 0, 0],
                                        [253, 255, 0, 0, 0, 0, 0, 0, 0, 0, 0, 0, 0, 0, 0, 0])),
                              [], 0, map[], map[], true, false);
            var svc := Service(true, None, Text(Ok([253, 0, 0, 5])), []);
            Eligible(key, svc, cfg) && ChoosePair(pool, cfg, svc.request, maxScan).Err?
  {
    hide Compare, Pick;
    CrossFamilyMirrorExample();
    DecidedAt([10, 0, 0, 9], [253, 0, 0, 5], 0);
  }

  /**
    With no conflict reported, an address that another config records can be
    handed out from the range it was compared with exactly when that is a CIDR
    of the other family which the address looks like an address of.
   */
  lemma NoConflictNoLoss(configs: map<Key, Config>, me: Key, cfg: Config, c: Key, ip: Ip)
    requires Conflicts(configs, me, cfg) == {} && c in configs && c != me && !Mapped(ip)
    ensures ip in configs[c].alloc4.Values ==>
              (IPAllocatable(Ok(ip), cfg.range4) <==> cfg.range4.Cidr? && LooksLike(ip, cfg.range4))
    ensures ip in configs[c].alloc6.Values && cfg.range6.Some? ==>
              (IPAllocatable(Ok(ip), cfg.range6.value) <==> cfg.range6.value.Cidr? && LooksLike(ip, cfg.range6.value))
  {
    hide Bounds, IPInRange, IPAllocatable, LooksLike;
    assert ip in Recorded(configs[c]) && ConflictsWith(cfg, configs[c], ip) ==> ip in Conflicts(configs, me, cfg);
    MissedIff(cfg.range4, ip);
    if cfg.range6.Some? {
      MissedIff(cfg.range6.value, ip);
    }
  }

  lemma MissedIff(r: Range, ip: Ip)
    requires !Mapped(ip)
    ensures IPAllocatable(Ok(ip), r) && !IPInRange(Ok(ip), r) <==> r.Cidr? && LooksLike(ip, r)
  {
    hide Val, Compare, Network, Broadcast;
    if r.Cidr? && Bounds(r).Ok? {
      if |ip| == |Bounds(r).value.0| {
        if IPAllocatable(Ok(ip), r) {
          AllocatableIsContained(r, ip);
        }
      } else {
        CrossFamily(r, ip);
      }
    }
  }

  /** The call reuses an address of a one-address range that a service other than `key` holds. */
  ghost predicate TakesHeld(w: World, pool: set<Ip>, range: Range, want: Option<Ip>, key: Key) {
    Reuses(pool, range, want) && exists k :: k != key && Holds(w, k, Bounds(range).value.0)
  }

  /** An assignment leaves one holder per address exactly when it takes none that another service holds. */
  lemma OneHolderIff(s: System, api: CallApi, maxScan: nat)
    requires HeldAreUsed(s.world) && OneHolder(s.world) && ReachesService(s, maxScan, api) && api.assign.Assigned?
    ensures var (want4, want6) := SplitRequest(s.job.todo[0].1.request);
            var key, pool := s.job.todo[0].0, Marked(s.world, s.job.id);
            OneHolder(Next(s, Round(api), maxScan).world) <==>
            && !TakesHeld(s.world, pool, s.job.copy.range4, want4, key)
            && (s.job.copy.range6.Some? ==> !TakesHeld(s.world, pool, s.job.copy.range6.value, want6, key))
  {
    hide Pick, PickSpecific, Others, QuotaReached;
    var w, w' := s.world, Next(s, Round(api), maxScan).world;
    var key, pool := s.job.todo[0].0, Marked(w, s.job.id);
    var (want4, want6) := SplitRequest(s.job.todo[0].1.request);
    var ips := ChoosePair(pool, s.job.copy, s.job.todo[0].1.request, maxScan).value;
    HoldersAfter(w, key, ips, w');
    TakenIff(w, pool, pool, s.job.copy.range4, want4, key, maxScan);
    if s.job.copy.range6.Some? {
      TakenIff(w, pool, pool + {ips.0}, s.job.copy.range6.value, want6, key, maxScan);
    }
  }

  lemma HoldersAfter(w: World, key: Key, ips: Pair, w': World)
    requires OneHolder(w) && key in w.services && w'.services == AssignTo(w.services, key, ips, Assigned)
    ensures OneHolder(w') <==> forall k, ip :: k != key && ip in AddressesOf(ips) ==> !Holds(w, k, ip)
  {
    assert forall k, ip :: Holds(w', k, ip) <==> if k == key then ip in AddressesOf(ips) else Holds(w, k, ip);
    if k, ip :| k != key && ip in AddressesOf(ips) && Holds(w, k, ip) {
      assert Holds(w', k, ip) && Holds(w', key, ip);
    }
  }

  lemma TakenIff(w: World, pool: set<Ip>, pool': set<Ip>, range: Range, want: Option<Ip>, key: Key, maxScan: nat)
    requires HeldAreUsed(w) && w.used <= pool <= pool' && Choose(pool', range, want, maxScan).Ok?
    ensures (exists k :: k != key && Holds(w, k, Choose(pool', range, want, maxScan).value))
            <==> TakesHeld(w, pool, range, want, key)
  {
    hide Bounds;
    FreshUnlessReused(pool, pool', range, want, maxScan);
  }

  /**
    Releasing a config leaves the held addresses in the pool exactly when every
    service that holds one of its addresses is of the config's namespace, is
    recorded by name, and could be cleared.
   */
  lemma ReleaseHeldIff(w: World, me: Key, cfg: Config, failed: set<string>)
    requires HeldAreUsed(w)
    ensures HeldAreUsed(ReleaseAll(w, me, cfg, failed)) <==>
            forall k, ip :: Holds(w, k, ip) && ip in Recorded(cfg) ==>
              k.ns == me.ns && k.name in cfg.alloc4.Keys + cfg.alloc6.Keys - failed
  {
    var w' := ReleaseAll(w, me, cfg, failed);
    var names := cfg.alloc4.Keys + cfg.alloc6.Keys - failed;
    assert forall k, ip :: Holds(w', k, ip) <==> Holds(w, k, ip) && !(k.ns == me.ns && k.name in names);
    assert forall ip :: ip in w'.used <==> ip in w.used && ip !in Recorded(cfg);
  }
}
