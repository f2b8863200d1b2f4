/**
  internal/loadbalancer/health.go and balancer.go: the health-check loop, the
  checks it spawns, the two wait groups and Stop, step by step.
 */
module HealthLoop {

  /** The goroutine of healthCheckLoop; Off when health checks are disabled. */
  datatype LoopPc = Off | Starting | Selecting | Draining | Ended

  /** A spawned check: probing, probed but not yet Done on the wait group, or gone. */
  datatype CheckPc = Probing | Probed | Gone

  /** The first call of Stop. */
  datatype StopPc = NotCalled | WaitsForLoop | WaitsForChecks | Returned

  datatype State = State(closed: bool, loop: LoopPc, checks: seq<CheckPc>, wg: int, checkWg: int, stop: StopPc)

  datatype Step =
    | FirstCheck
    | Tick
    | SeeStop
    | LoopReturns
    | ProbeEnds(check: nat)
    | CheckDone(check: nat)
    | CallStop
    | LoopAwaited
    | ChecksAwaited

  /** NewLoadBalancer. */
  function Start(healthCheck: bool): (s: State) {
    State(false, if healthCheck then Starting else Off, [], if healthCheck then 1 else 0, 0, NotCalled)
  }

  /** A select with both channels ready may take either; a Wait passes at zero. */
  predicate Enabled(s: State, step: Step) {
    match step
    case FirstCheck => s.loop == Starting
    case Tick => s.loop == Selecting
    case SeeStop => s.loop == Selecting && s.closed
    case LoopReturns => s.loop == Draining && s.checkWg == 0
    case ProbeEnds(i) => i < |s.checks| && s.checks[i] == Probing
    case CheckDone(i) => i < |s.checks| && s.checks[i] == Probed
    case CallStop => s.stop == NotCalled || s.stop == Returned
    case LoopAwaited => s.stop == WaitsForLoop && s.wg == 0
    case ChecksAwaited => s.stop == WaitsForChecks && s.checkWg == 0
  }

  function Next(s: State, step: Step): (s': State)
    requires Enabled(s, step)
  {
    match step
    case FirstCheck => s.(loop := Selecting, checks := s.checks + [Probing], checkWg := s.checkWg + 1)
    case Tick => s.(checks := s.checks + [Probing], checkWg := s.checkWg + 1)
    case SeeStop => s.(loop := Draining)
    case LoopReturns => s.(loop := Ended, wg := s.wg - 1)
    case ProbeEnds(i) => s.(checks := s.checks[i := Probed])
    case CheckDone(i) => s.(checks := s.checks[i := Gone], checkWg := s.checkWg - 1)
    case CallStop => if s.closed then s else s.(closed := true, stop := WaitsForLoop)
    case LoopAwaited => s.(stop := WaitsForChecks)
    case ChecksAwaited => s.(stop := Returned)
  }

  /** The checks that have not called Done. */
  function Pending(checks: seq<CheckPc>): (n: nat)
    ensures n == 0 <==> forall i :: 0 <= i < |checks| ==> checks[i] == Gone
  {
    if checks == [] then 0 else
      var n := |checks| - 1;
      assert forall i :: 0 <= i < n ==> checks[..n][i] == checks[i];
      Pending(checks[..n]) + if checks[n] == Gone then 0 else 1
  }

  lemma PendingSpawn(checks: seq<CheckPc>)
    ensures Pending(checks + [Probing]) == Pending(checks) + 1
  {
    assert (checks + [Probing])[..|checks|] == checks;
  }

  lemma {:induction false} PendingUpdate(checks: seq<CheckPc>, i: nat, pc: CheckPc)
    requires i < |checks| && checks[i] != Gone
    ensures Pending(checks[i := pc]) == if pc == Gone then Pending(checks) - 1 else Pending(checks)
    decreases |checks|
  {
    var n := |checks| - 1;
    if i == n {
      assert checks[i := pc][..n] == checks[..n];
    } else {
      PendingUpdate(checks[..n], i, pc);
      assert checks[i := pc][..n] == checks[..n][i := pc];
    }
  }

  /** Both wait groups count what they stand for, and each wait has seen its zero. */
  predicate Inv(s: State) {
    && s.checkWg == Pending(s.checks)
    && s.wg == (if s.loop == Off || s.loop == Ended then 0 else 1)
    && (s.closed <==> s.stop != NotCalled)
    && (s.loop == Draining || s.loop == Ended ==> s.closed)
    && (s.loop == Off || s.loop == Starting ==> s.checks == [])
    && (s.loop == Ended ==> Pending(s.checks) == 0)
    && (s.stop == WaitsForChecks || s.stop == Returned ==> s.loop == Off || s.loop == Ended)
  }

  lemma StepKeepsInv(s: State, step: Step)
    requires Inv(s) && Enabled(s, step)
    ensures Inv(Next(s, step))
  {
    match step {
      case FirstCheck => PendingSpawn(s.checks);
      case Tick => PendingSpawn(s.checks);
      case ProbeEnds(i) => PendingUpdate(s.checks, i, Probed);
      case CheckDone(i) => PendingUpdate(s.checks, i, Gone);
      case _ =>
    }
  }

  ghost predicate Run(states: seq<State>, steps: seq<Step>) {
    && |states| == |steps| + 1 && (states[0] == Start(true) || states[0] == Start(false))
    && forall i :: 0 <= i < |steps| ==> Enabled(states[i], steps[i]) && states[i + 1] == Next(states[i], steps[i])
  }

  lemma {:induction false} RunInv(states: seq<State>, steps: seq<Step>, i: nat)
    requires Run(states, steps) && i <= |steps|
    ensures Inv(states[i])
  {
    if i > 0 {
      RunInv(states, steps, i - 1);
      StepKeepsInv(states[i - 1], steps[i - 1]);
    }
  }

  /** How many of the first `i` steps are the first check or a tick. */
  function Spawns(steps: seq<Step>, i: nat): (n: nat)
    requires i <= |steps|
  {
    |set j | 0 <= j < i && (steps[j] == FirstCheck || steps[j] == Tick)|
  }

  /** The first check and every tick put one new probing check in flight, and no other step starts one. */
  lemma StepSpawns(s: State, step: Step)
    requires Enabled(s, step)
    ensures step == FirstCheck || step == Tick ==> Next(s, step).checks == s.checks + [Probing]
    ensures step != FirstCheck && step != Tick ==> |Next(s, step).checks| == |s.checks|
  {
  }

  lemma SpawnsStep(steps: seq<Step>, i: nat)
    requires i < |steps|
    ensures Spawns(steps, i + 1) == Spawns(steps, i) + if steps[i] == FirstCheck || steps[i] == Tick then 1 else 0
  {
    var before := set j | 0 <= j < i && (steps[j] == FirstCheck || steps[j] == Tick);
    assert (set j | 0 <= j < i + 1 && (steps[j] == FirstCheck || steps[j] == Tick))
           == if steps[i] == FirstCheck || steps[i] == Tick then before + {i} else before;
  }

  /** Over every run there are as many checks as ticks and first checks made. */
  lemma {:induction false} ChecksAreSpawns(states: seq<State>, steps: seq<Step>, i: nat)
    requires Run(states, steps) && i <= |steps|
    ensures |states[i].checks| == Spawns(steps, i)
  {
    hide Next, Enabled;
    if i > 0 {
      ChecksAreSpawns(states, steps, i - 1);
      StepSpawns(states[i - 1], steps[i - 1]);
      SpawnsStep(steps, i - 1);
    }
  }

  /** With health checks on the loop makes its first check, once; without them it never runs. */
  lemma {:induction false} FirstCheckOnce(states: seq<State>, steps: seq<Step>, i: nat)
    requires Run(states, steps) && i <= |steps|
    ensures states[0] == Start(true) ==>
              && states[i].loop != Off
              && (states[i].loop == Starting <==> forall j :: 0 <= j < i ==> steps[j] != FirstCheck)
              && (forall j, k :: 0 <= j < k < i && steps[j] == FirstCheck ==> steps[k] != FirstCheck)
    ensures states[0] == Start(false) ==> states[i].loop == Off
  {
    if i > 0 {
      FirstCheckOnce(states, steps, i - 1);
    }
  }

  /**
    The first call of Stop closes the channel and waits; later calls change
    nothing. So Stop is at work or done exactly when it was called.
   */
  lemma StopCalled(states: seq<State>, steps: seq<Step>, i: nat)
    requires Run(states, steps) && i < |steps| && steps[i] == CallStop
    ensures states[i].stop == NotCalled ==> states[i + 1] == states[i].(closed := true, stop := WaitsForLoop)
    ensures states[i].stop != NotCalled ==> states[i + 1] == states[i]
  {
    RunInv(states, steps, i);
  }

  lemma {:induction false} StopCalledIff(states: seq<State>, steps: seq<Step>, i: nat)
    requires Run(states, steps) && i <= |steps|
    ensures states[i].stop != NotCalled <==> exists j :: 0 <= j < i && steps[j] == CallStop
  {
    if i > 0 {
      StopCalledIff(states, steps, i - 1);
      if steps[i - 1] == CallStop {
        StopCalled(states, steps, i - 1);
      }
    }
  }

  /** Nothing is running: the loop has ended and no check is in flight. */
  predicate Quiet(s: State) {
    && (s.loop == Off || s.loop == Ended)
    && forall i :: 0 <= i < |s.checks| ==> s.checks[i] == Gone
  }

  /** In every interleaving, once Stop has returned everything is quiet, and no check starts ever after. */
  lemma {:induction false} QuietAfterStop(states: seq<State>, steps: seq<Step>, i: nat, j: nat)
    requires Run(states, steps) && i <= j <= |steps| && states[i].stop == Returned
    ensures Quiet(states[j]) && states[j].checks == states[i].checks && states[j].stop == Returned
    decreases j
  {
    if i == j {
      ReturnedIsQuiet(states, steps, i);
    } else {
      QuietAfterStop(states, steps, i, j - 1);
      RunInv(states, steps, j - 1);
    }
  }

  lemma {:induction false} ReturnedIsQuiet(states: seq<State>, steps: seq<Step>, i: nat)
    requires Run(states, steps) && i <= |steps| && states[i].stop == Returned
    ensures Quiet(states[i])
  {
    if i > 0 {
      RunInv(states, steps, i - 1);
      RunInv(states, steps, i);
      if states[i - 1].stop == Returned {
        ReturnedIsQuiet(states, steps, i - 1);
      }
    }
  }

  /** No wait group goes negative, and none is added to while Stop waits on it. */
  lemma WaitGroupsAreUsedProperly(states: seq<State>, steps: seq<Step>, i: nat)
    requires Run(states, steps) && i < |steps|
    ensures states[i].wg >= 0 && states[i].checkWg >= 0
    ensures states[i].stop == WaitsForChecks ==> steps[i] != FirstCheck && steps[i] != Tick
    ensures steps[i].CheckDone? ==> states[i].checkWg > 0
    ensures steps[i].LoopReturns? ==> states[i].wg > 0
  {
    RunInv(states, steps, i);
    if steps[i].CheckDone? {
      PendingUpdate(states[i].checks, steps[i].check, Gone);
    }
  }

  // Stop returns.

  function LoopRank(pc: LoopPc): (n: nat) {
    match pc case Starting => 5 case Selecting => 2 case Draining => 1 case Off => 0 case Ended => 0
  }

  function CheckRank(checks: seq<CheckPc>): (n: nat) {
    if checks == [] then 0 else
      var n := |checks| - 1;
      CheckRank(checks[..n]) + match checks[n] case Probing => 2 case Probed => 1 case Gone => 0
  }

  function StopRank(pc: StopPc): (n: nat) {
    match pc case WaitsForLoop => 2 case WaitsForChecks => 1 case NotCalled => 0 case Returned => 0
  }

  /** How many steps are left until Stop returns, ticks aside. */
  function Rank(s: State): (n: nat) { LoopRank(s.loop) + CheckRank(s.checks) + StopRank(s.stop) }

  lemma {:induction false} CheckRankUpdate(checks: seq<CheckPc>, i: nat, pc: CheckPc)
    requires i < |checks| && ((checks[i] == Probing && pc == Probed) || (checks[i] == Probed && pc == Gone))
    ensures CheckRank(checks[i := pc]) == CheckRank(checks) - 1
    decreases |checks|
  {
    var n := |checks| - 1;
    if i < n {
      CheckRankUpdate(checks[..n], i, pc);
      assert checks[i := pc][..n] == checks[..n][i := pc];
    } else {
      assert checks[i := pc][..n] == checks[..n];
    }
  }

  predicate Waiting(s: State) { s.stop == WaitsForLoop || s.stop == WaitsForChecks }

  lemma {:induction false} SomePending(checks: seq<CheckPc>) returns (i: nat)
    requires Pending(checks) > 0
    ensures i < |checks| && checks[i] != Gone
  {
    i :| 0 <= i < |checks| && checks[i] != Gone;
  }

  /** Whatever Stop waits for, some step towards it is possible. */
  lemma StopIsNeverStuck(states: seq<State>, steps: seq<Step>, i: nat) returns (step: Step)
    requires Run(states, steps) && i <= |steps| && Waiting(states[i])
    ensures Enabled(states[i], step) && step != Tick && step != CallStop
  {
    RunInv(states, steps, i);
    var s := states[i];
    if Pending(s.checks) > 0 {
      var k := SomePending(s.checks);
      step := if s.checks[k] == Probing then ProbeEnds(k) else CheckDone(k);
    } else {
      step := match s.loop
        case Starting => FirstCheck
        case Selecting => SeeStop
        case Draining => LoopReturns
        case _ => if s.stop == WaitsForLoop then LoopAwaited else ChecksAwaited;
    }
  }

  /** Every step but a tick takes a waiting Stop nearer to its return. */
  lemma StepsApproach(s: State, step: Step)
    requires Inv(s) && Waiting(s) && Enabled(s, step) && step != Tick
    ensures Rank(Next(s, step)) < Rank(s)
  {
    match step {
      case FirstCheck =>
        assert (s.checks + [Probing])[..|s.checks|] == s.checks;
      case ProbeEnds(i) => CheckRankUpdate(s.checks, i, Probed);
      case CheckDone(i) => CheckRankUpdate(s.checks, i, Gone);
      case _ =>
    }
  }

  /** So a stretch without ticks in which Stop has not returned is no longer than the rank at its start. */
  lemma {:induction false} StopReturnsWithin(states: seq<State>, steps: seq<Step>, i: nat, j: nat)
    requires Run(states, steps) && i <= j <= |steps|
    requires forall k :: i <= k <= j ==> Waiting(states[k])
    requires forall k :: i <= k < j ==> steps[k] != Tick
    ensures j - i + Rank(states[j]) <= Rank(states[i])
    decreases j
  {
    if i < j {
      StopReturnsWithin(states, steps, i, j - 1);
      RunInv(states, steps, j - 1);
      StepsApproach(states[j - 1], steps[j - 1]);
    }
  }
}
