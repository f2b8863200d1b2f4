/** MaxAllocations over whole runs. */
module Quota {
  import opened Bytes
  import opened Cluster
  import opened Manager
  import opened Ownership

  function Max(a: int, b: int): int { if a > b then a else b }

  lemma RecordGrowsByOne(cfg: Config, name: string, ips: Pair)
    ensures |Record(cfg, name, ips).alloc4| <= |cfg.alloc4| + 1
  {
    var alloc := cfg.alloc4[name := ips.0];
    assert alloc.Keys == cfg.alloc4.Keys + {name};
    assert |alloc.Keys| <= |cfg.alloc4.Keys| + 1;
  }

  /** No step takes a config past its quota, or past where it already was. */
  lemma StepKeepsQuota(s: System, step: Step, maxScan: nat, c: Key)
    requires Enabled(s, step) && JobCurrent(s) && c in s.world.configs
    requires s.world.configs[c].maxAllocations > 0 && |s.world.configs[c].alloc4| <= MAX_INT32
    ensures var s' := Next(s, step, maxScan);
            c in s'.world.configs ==>
              |s'.world.configs[c].alloc4| <= Max(|s.world.configs[c].alloc4|, s.world.configs[c].maxAllocations)
  {
    hide ChoosePair, EligibleOf, Conflicts, AssignTo, Marked, GivenBack;
    if step.Round? && c == s.job.id && s.job.todo != [] {
      var ips := AllocateAndAssign(s.world, c, s.job.copy, s.job.todo[0].0, s.job.todo[0].1.request,
                                   maxScan, step.call).1;
      if ips.Ok? {
        RecordGrowsByOne(s.job.copy, s.job.todo[0].0.name, ips.value);
      }
    }
  }

  /** While a config keeps its quota m > 0, it never records more than m IPv4 addresses. */
  lemma {:induction false} QuotaOverRuns(states: seq<System>, steps: seq<Step>, maxScan: nat,
                                         c: Key, m: int, from: nat, i: nat)
    requires Run(states, steps, maxScan) && from <= i <= |steps| && 0 < m <= MAX_INT32
    requires forall j :: from <= j <= i ==>
               c in states[j].world.configs && states[j].world.configs[c].maxAllocations == m
    requires |states[from].world.configs[c].alloc4| <= m
    ensures |states[i].world.configs[c].alloc4| <= m
  {
    if from < i {
      QuotaOverRuns(states, steps, maxScan, c, m, from, i - 1);
      RunKeepsJob(states, steps, maxScan, i - 1);
      StepKeepsQuota(states[i - 1], steps[i - 1], maxScan, c);
    }
  }
}
