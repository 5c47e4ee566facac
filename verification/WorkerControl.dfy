/** What the controller of a worker can rely on: the function runs as a running task, disabling returns, and a stop is
    followed by the exit. */
module WorkerControl {
  import opened Worker

  /** The function runs as a running task: it may sleep without losing a wake-up of its own. */
  lemma RunsAwake(n: nat, stopSignals: bool, es: seq<Event>)
    ensures Run(Init(n, stopSignals), es).pc.Fn? ==> !Run(Init(n, stopSignals), es).asleepable
  {
    InitKeeps(n, stopSignals);
    RunKeepsInv(Init(n, stopSignals), es);
  }

  /** The controller takes a command exactly while it is in no other, on an enabled or a disabled worker. */
  lemma CommandsWait(s: State, e: Event)
    requires e.Disable? || e.Enable? || e.Teardown?
    ensures Step(s, e).ctl != s.ctl <==> s.ctl.Free? || s.ctl.Disabled?
    ensures Step(s, e).ctl != s.ctl ==> (Disabling(Step(s, e)) <==> e.Disable?) && (ShouldStop(Step(s, e)) <==> e.Teardown?)
  {
  }

  // ---- disable returns ----

  /** Steps of the worker until it parks, while it is told to. */
  function StepsToPark(pc: Pc): nat {
    match pc
    case Parked => 0
    case CheckPark => 1
    case SetInterruptible => 2
    case Top => 3
    case ClearRunning => 4
    case Fn => 5
    case SetTaskRunning => 6
    case SetRunning => 7
    case Sleep => 4
    case TestScheduled => 8
    case Exited => 0
  }

  /** Steps of a disable until it returns. */
  function DisableRank(s: State): nat {
    match s.ctl
    case ParkWake => StepsToPark(s.pc) + 3
    case ParkWait => StepsToPark(s.pc) + 2
    case ClearState => 1
    case _ => 0
  }

  predicate Disabling(s: State) {
    s.ctl.ParkWake? || s.ctl.ParkWait? || s.ctl.ClearState?
  }

  /** The next state is one step further, or the disable has returned with both bits clear. */
  predicate DisableGoesOn(s: State, s': State, moved: bool) {
    if Disabling(s') then
      DisableRank(s') <= DisableRank(s) && (moved ==> DisableRank(s') < DisableRank(s))
    else s'.ctl.Disabled? && s'.pc.Parked? && !s'.scheduled && !s'.running
  }

  lemma WorkerGoesOn(s: State)
    requires Inv(s) && Disabling(s)
    ensures DisableGoesOn(s, WorkerNext(s), WorkerNext(s) != s)
  {
    hide Requesting, NoLostWakeup;
  }

  lemma ControllerGoesOn(s: State)
    requires Inv(s) && Disabling(s)
    ensures DisableGoesOn(s, ControllerNext(s), ControllerNext(s) != s)
  {
    hide Requesting, NoLostWakeup;
  }

  /** Whoever has to move can: the worker is never left asleep once the call has woken it. */
  lemma DisableMoves(s: State)
    requires Inv(s) && Disabling(s)
    ensures Step(s, WorkerStep) != s || Step(s, ControllerStep).ctl != s.ctl
  {
    hide Requesting;
  }

  /** While a disable is under way, every step of worker or controller that changes something brings its return nearer,
      requests do not delay it, one of the two can always move, and it returns with both bits clear. */
  lemma DisableRanks(s: State, e: Event)
    requires Inv(s) && Disabling(s)
    ensures DisableGoesOn(s, Step(s, e), (e.WorkerStep? || e.ControllerStep?) && Step(s, e) != s)
    ensures Step(s, WorkerStep) != s || Step(s, ControllerStep).ctl != s.ctl
  {
    DisableMoves(s);
    WorkerGoesOn(s);
    ControllerGoesOn(s);
    if !e.WorkerStep? && !e.ControllerStep? {
      OthersKeep(s, e);
    }
    assert e.WorkerStep? ==> Step(s, e) == WorkerNext(s);
    assert e.ControllerStep? ==> Step(s, e) == ControllerNext(s);
    hide Step, Inv, WorkerNext, ControllerNext, StepsToPark;
  }

  /** Requests and further commands change neither the worker nor the call. */
  lemma OthersKeep(s: State, e: Event)
    requires Disabling(s) && !e.WorkerStep? && !e.ControllerStep?
    ensures Step(s, e).pc == s.pc && Step(s, e).ctl == s.ctl
  {
  }

  predicate DisableReturns(s: State, es: seq<Event>)
    decreases |es|
  {
    s.ctl.Disabled? || (es != [] && DisableReturns(Step(s, es[0]), es[1..]))
  }

  /** How many steps of worker and controller changed something. */
  function Moves(s: State, es: seq<Event>): nat
    decreases |es|
  {
    if es == [] then 0
    else (if (es[0].WorkerStep? || es[0].ControllerStep?) && Step(s, es[0]) != s then 1 else 0) + Moves(Step(s, es[0]), es[1..])
  }

  lemma {:induction false} DisableEnds(s: State, es: seq<Event>)
    requires Inv(s) && Disabling(s) && Moves(s, es) > DisableRank(s)
    ensures DisableReturns(s, es)
    decreases |es|
  {
    var s1 := Step(s, es[0]);
    StepKeepsInv(s, es[0]);
    DisableRanks(s, es[0]);
    hide Step, Inv, DisableRank;
    if Disabling(s1) {
      DisableEnds(s1, es[1..]);
    }
  }

  /** `mt76_worker_disable` returns: in every interleaving after at most eleven steps of the worker and of the call
      itself, however many requests come in; on a worker that is disabled already, after one. */
  lemma DisableIsBounded(s: State, es: seq<Event>)
    requires Inv(s) && (s.ctl.Free? || s.ctl.Disabled?) && Moves(Step(s, Disable), es) > (if s.ctl.Free? then 11 else 1)
    ensures DisableReturns(Step(s, Disable), es)
  {
    var s1 := Step(s, Disable);
    StepKeepsInv(s, Disable);
    assert Disabling(s1) && DisableRank(s1) <= if s.ctl.Free? then 11 else 1;
    hide Step, Inv, DisableRank;
    DisableEnds(s1, es);
  }

  // ---- teardown ----

  /** Steps of the worker until it exits, while it is told to stop. */
  function StepsToExit(pc: Pc): nat {
    match pc
    case Exited => 0
    case Top => 1
    case Sleep => 2
    case Parked => 2
    case ClearRunning => 2
    case Fn => 3
    case SetTaskRunning => 4
    case SetRunning => 5
    case TestScheduled => 6
    case CheckPark => 7
    case SetInterruptible => 8
  }

  /** Once the stop has been set and signals end its sleep, every step of the worker brings its exit nearer and nothing
      takes it away; with or without signals it only stops moving when it has exited or sleeps unwoken. */
  lemma StopRanks(s: State, e: Event)
    requires Inv(s) && ShouldStop(s)
    ensures var s' := Step(s, e);
            && ShouldStop(s') && StepsToExit(s'.pc) <= StepsToExit(s.pc)
            && (e.WorkerStep? && !Blocked(s) && !s.pc.Exited? ==> StepsToExit(s'.pc) < StepsToExit(s.pc))
            && (s.stopSignals ==> !Blocked(s))
  {
  }

  function WorkerSteps(es: seq<Event>): nat {
    if es == [] then 0 else (if es[0].WorkerStep? then 1 else 0) + WorkerSteps(es[1..])
  }

  /** With signals the worker exits after at most eight of its own steps, in every interleaving. */
  lemma {:induction false} TeardownEnds(s: State, es: seq<Event>)
    requires Inv(s) && ShouldStop(s) && s.stopSignals && WorkerSteps(es) >= StepsToExit(s.pc)
    ensures Run(s, es).pc.Exited? && StepsToExit(s.pc) <= 8
    decreases |es|
  {
    if es != [] {
      var s1 := Step(s, es[0]);
      StepKeepsInv(s, es[0]);
      StopRanks(s, es[0]);
      hide Step, Inv, ShouldStop;
      TeardownEnds(s1, es[1..]);
    }
  }
}
