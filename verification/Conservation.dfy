/**
  Runs in which API writes succeed and recorded service names are not reused
  leak nothing: the pool is the disjoint union of what the live configs record.
 */
module Conservation {
  import opened Cluster
  import opened Manager
  import opened Ownership
  import opened Leaks

  ghost predicate RecordedAreServed(w: World) {
    forall c, name :: NameRecorded(w, c, name) && Key(c.ns, name) in w.services ==>
      w.services[Key(c.ns, name)].ingress != []
  }

  ghost predicate OneRecorderPerName(w: World) {
    forall c1, c2, name ::
      NameRecorded(w, c1, name) && NameRecorded(w, c2, name) && c1.ns == c2.ns ==> c1 == c2
  }

  ghost predicate TodoUnrecorded(s: System) {
    s.job.Working? ==>
      && (forall i, c: Key :: 0 <= i < |s.job.todo| && c.ns == s.job.id.ns ==>
            !NameRecorded(s.world, c, s.job.todo[i].0.name))
      && DistinctKeys(s.job.todo)
  }

  /** Recorded services have an ingress and one recorder, and the job serves none of them. */
  ghost predicate NamesKept(s: System) {
    RecordedAreServed(s.world) && OneRecorderPerName(s.world) && TodoUnrecorded(s)
  }

  ghost predicate Conserved(s: System) {
    Inv(s) && Settled(s) && NamesKept(s)
  }

  /** The step's API writes succeed and it reuses no recorded service name. */
  ghost predicate Smooth(s: System, step: Step) {
    match step
    case BeginReconcile(_, _, api) => api.removeFinalizerOk && api.clearFailed == {}
    case Round(api) =>
      && !api.assign.HalfWritten? && api.statusOk
      && (s.job.Working? ==> s.job.id in s.world.configs && s.world.configs[s.job.id] == s.job.copy)
    case CreateService(key, _) => forall c: Key :: c.ns == key.ns ==> !NameRecorded(s.world, c, key.name)
    case _ => true
  }

  /** Every smooth step of a conserved system is leakless: a leak needs a failed write or a reused name. */
  lemma SmoothIsLeakless(s: System, step: Step, maxScan: nat)
    requires Conserved(s) && Enabled(s, step) && Smooth(s, step)
    ensures Leakless(s, step, maxScan)
  {
    if step.Round? && s.job.todo != [] {
      assert !NameRecorded(s.world, s.job.id, s.job.todo[0].0.name);
    }
  }

  /** The world after a round that served a service: the old names and the new one. */
  predicate Served(w: World, me: Key, key: Key, ips: Pair, w': World) {
    && me in w.configs && key in w.services
    && w'.configs == w.configs[me := Record(w.configs[me], key.name, ips)]
    && w'.services.Keys == w.services.Keys
    && w'.services[key].ingress == IngressOf(ips)
    && forall k :: k in w.services && k != key ==> w'.services[k] == w.services[k]
  }

  lemma ServedNames(w: World, me: Key, key: Key, ips: Pair, w': World)
    requires Served(w, me, key, ips, w') && key.ns == me.ns
    requires forall c: Key :: c.ns == me.ns ==> !NameRecorded(w, c, key.name)
    requires RecordedAreServed(w) && OneRecorderPerName(w)
    ensures RecordedAreServed(w') && OneRecorderPerName(w')
    ensures forall c, n :: NameRecorded(w', c, n) <==> NameRecorded(w, c, n) || (c == me && n == key.name)
  {
    assert forall c, n :: NameRecorded(w', c, n) <==> NameRecorded(w, c, n) || (c == me && n == key.name);
  }

  lemma RoundKeepsNames(s: System, api: CallApi, maxScan: nat)
    requires Conserved(s) && Enabled(s, Round(api)) && Smooth(s, Round(api))
    ensures NamesKept(Next(s, Round(api), maxScan))
  {
    hide Choose, Others, WorldInv, PoolIsRecords, RecordedOnce, UnmarkedAreEmpty, QuotaReached;
    var w, s' := s.world, Next(s, Round(api), maxScan);
    if ReachesService(s, maxScan, api) && api.assign.Assigned? {
      var key := s.job.todo[0].0;
      var ips := ChoosePair(Marked(w, s.job.id), s.job.copy, s.job.todo[0].1.request, maxScan).value;
      ServedNames(w, s.job.id, key, ips, s'.world);
      assert forall i :: 0 <= i < |s'.job.todo| ==> s'.job.todo[i] == s.job.todo[i + 1];
    } else {
      assert s'.world.services == w.services && s'.world.configs == w.configs;
      SameNames(w, s'.world);
    }
  }

  lemma SameNames(w: World, w': World)
    requires w'.services == w.services && w'.configs == w.configs
    requires RecordedAreServed(w) && OneRecorderPerName(w)
    ensures RecordedAreServed(w') && OneRecorderPerName(w')
  {
    assert forall c, n :: NameRecorded(w', c, n) <==> NameRecorded(w, c, n);
  }

  lemma DeletionKeepsNames(w: World, me: Key, api: BeginApi)
    requires RecordedAreServed(w) && OneRecorderPerName(w) && me in w.configs && api.removeFinalizerOk
    ensures RecordedAreServed(HandleDeletion(w, me, api)) && OneRecorderPerName(HandleDeletion(w, me, api))
  {
    var w' := HandleDeletion(w, me, api);
    assert forall c, n :: NameRecorded(w', c, n) <==> NameRecorded(w, c, n) && c != me;
    forall c, n | NameRecorded(w', c, n) && Key(c.ns, n) in w'.services
      ensures w'.services[Key(c.ns, n)].ingress != []
    {
      assert NameRecorded(w, c, n);
      assert c.ns == me.ns ==> !NameRecorded(w, me, n);
    }
  }

  lemma BeginKeepsNames(s: System, id: Key, listing: Listing, api: BeginApi, maxScan: nat)
    requires Conserved(s) && Admissible(s.world)
    requires Enabled(s, BeginReconcile(id, listing, api)) && Smooth(s, BeginReconcile(id, listing, api))
    ensures NamesKept(Next(s, BeginReconcile(id, listing, api), maxScan))
  {
    hide Inv, Conflicts, RequestServed, ProperRanges, HandleDeletion, PoolIsRecords, RecordedOnce, UnmarkedAreEmpty;
    var w := s.world;
    if id in w.configs {
      var cfg := w.configs[id].(finalizer := true);
      var w1 := w.(configs := w.configs[id := cfg]);
      RecordsUnchanged(w, id, cfg);
      DeletionKeepsNames(w1, id, api);
      EligibleUnrecorded(w1, id, cfg, listing);
      EligibleDistinct(listing, cfg);
    }
  }

  lemma EligibleUnrecorded(w: World, id: Key, cfg: Config, listing: Listing)
    requires RecordedAreServed(w)
    requires forall i :: 0 <= i < |listing| ==>
               listing[i].0 in w.services && w.services[listing[i].0] == listing[i].1
    ensures var todo := EligibleOf(listing, cfg);
            forall i, c: Key :: 0 <= i < |todo| && c.ns == todo[i].0.ns ==> !NameRecorded(w, c, todo[i].0.name)
  {
    var todo := EligibleOf(listing, cfg);
    forall i, c: Key | 0 <= i < |todo| && c.ns == todo[i].0.ns ensures !NameRecorded(w, c, todo[i].0.name) {
      assert todo[i] in listing && Eligible(todo[i].0, todo[i].1, cfg);
      assert todo[i].0 == Key(c.ns, todo[i].0.name);
    }
  }

  lemma OtherStepKeepsNames(s: System, step: Step, maxScan: nat)
    requires Conserved(s) && Enabled(s, step) && Smooth(s, step) && !step.Round? && !step.BeginReconcile?
    ensures NamesKept(Next(s, step, maxScan))
  {
    hide Inv, PoolIsRecords, RecordedOnce;
    var w, w' := s.world, Next(s, step, maxScan).world;
    assert forall c, n :: NameRecorded(w', c, n) <==> NameRecorded(w, c, n) by {
      if step.DeleteConfig? && !w.configs[step.id].finalizer {
        assert forall n :: !NameRecorded(w, step.id, n);
      }
    }
  }

  lemma SmoothIsBenign(s: System, step: Step, maxScan: nat)
    requires Smooth(s, step)
    ensures Benign(s, step, maxScan)
  {
  }

  lemma InvHasProperJob(s: System)
    requires Inv(s)
    ensures JobProper(s)
  {
  }

  lemma StepConserves(s: System, step: Step, maxScan: nat)
    requires Conserved(s) && Admissible(s.world) && Enabled(s, step) && Smooth(s, step)
    ensures Conserved(Next(s, step, maxScan))
  {
    hide Inv, Next, Enabled, PoolIsRecords, RecordedOnce, UnmarkedAreEmpty, NamesKept, Smooth, Benign, Leakless;
    SmoothIsBenign(s, step, maxScan);
    StepKeepsIff(s, step, maxScan);
    InvHasProperJob(Next(s, step, maxScan));
    SmoothIsLeakless(s, step, maxScan);
    StepConservesIff(s, step, maxScan);
    match step
    case Round(api) => RoundKeepsNames(s, api, maxScan);
    case BeginReconcile(id, listing, api) => BeginKeepsNames(s, id, listing, api, maxScan);
    case _ => OtherStepKeepsNames(s, step, maxScan);
  }

  ghost predicate SmoothRun(states: seq<System>, steps: seq<Step>, maxScan: nat) {
    AdmissibleRun(states, steps, maxScan) && forall i :: 0 <= i < |steps| ==> Smooth(states[i], steps[i])
  }

  lemma {:induction false} RunConserves(states: seq<System>, steps: seq<Step>, maxScan: nat, i: nat)
    requires SmoothRun(states, steps, maxScan) && i <= |steps|
    ensures Conserved(states[i])
  {
    if i > 0 {
      RunConserves(states, steps, maxScan, i - 1);
      StepConserves(states[i - 1], steps[i - 1], maxScan);
    }
  }

  /** In every state of every smooth run each pool address is recorded exactly once, and nothing else is. */
  lemma PoolIsDisjointUnion(states: seq<System>, steps: seq<Step>, maxScan: nat, i: nat)
    requires SmoothRun(states, steps, maxScan) && i <= |steps|
    ensures PoolIsRecords(states[i].world) && RecordedOnce(states[i].world)
  {
    RunConserves(states, steps, maxScan, i);
  }
}
