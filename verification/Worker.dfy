/** The worker thread of util.c and its callers of util.h, as sequentially consistent steps with program counters.
    Any number of requesters, one controller (disable, enable, teardown) and the worker interleave freely. */
module Worker {

  /** Where the worker is in `__mt76_worker_fn`; each value is the next thing it does. */
  datatype Pc =
    | Top | SetInterruptible | CheckPark | TestScheduled | Sleep
    | SetRunning | SetTaskRunning | Fn | ClearRunning | Parked | Exited

  /** Where a caller is in `mt76_worker_schedule`. */
  datatype ReqPc = Out | TestRunning | Wake

  /** Where the controller is: `Park*` in disable, `Enable*` in enable, `Stop*` in teardown. */
  datatype CtlPc = Free | ParkWake | ParkWait | ClearState | Disabled | Enabling(req: ReqPc) | EnableCall | StopWake | StopWait

  /** `asleepable` is TASK_INTERRUPTIBLE; `stopSignals` tells whether stopping a thread leaves a signal pending on it.
      `runs` counts the calls of `w->fn`. */
  datatype State = State(
    scheduled: bool, running: bool, asleepable: bool, pc: Pc, reqs: seq<ReqPc>,
    ctl: CtlPc, stopSignals: bool, runs: nat)

  /** KTHREAD_SHOULD_PARK: set on entry to disable, cleared on entry to enable or teardown. */
  predicate ShouldPark(s: State) {
    s.ctl.ParkWake? || s.ctl.ParkWait? || s.ctl.ClearState? || s.ctl.Disabled?
  }

  /** KTHREAD_SHOULD_STOP: set on entry to teardown. */
  predicate ShouldStop(s: State) {
    s.ctl.StopWake? || s.ctl.StopWait?
  }

  datatype Event = WorkerStep | Request(i: nat) | ControllerStep | Disable | Enable | Teardown

  function Init(n: nat, stopSignals: bool): State {
    State(false, false, false, Top, seq(n, _ => Out), Free, stopSignals, 0)
  }

  /** `schedule()` blocks while the task may sleep and no signal is pending. */
  predicate Blocked(s: State) {
    s.pc == Sleep && s.asleepable && !(ShouldStop(s) && s.stopSignals)
  }

  function WorkerNext(s: State): (s': State)
    ensures s.runs <= s'.runs && s'.stopSignals == s.stopSignals
  {
    match s.pc
    case Top => s.(pc := if ShouldStop(s) then Exited else SetInterruptible)
    case SetInterruptible => s.(asleepable := true, pc := CheckPark)
    case CheckPark => s.(pc := if ShouldPark(s) then Parked else TestScheduled)
    case TestScheduled => s.(scheduled := false, pc := if s.scheduled then SetRunning else Sleep)
    case Sleep => if Blocked(s) then s else s.(asleepable := false, pc := Top)
    case SetRunning => s.(running := true, pc := SetTaskRunning)
    case SetTaskRunning => s.(asleepable := false, pc := Fn, runs := s.runs + 1)
    case Fn => s.(pc := ClearRunning)
    case ClearRunning => s.(running := false, pc := Top)
    case Parked => if ShouldPark(s) then s else s.(asleepable := false, pc := Top)
    case Exited => s
  }

  /** One step of `mt76_worker_schedule`, with the caller's next position. */
  function Schedule(s: State, r: ReqPc): (State, ReqPc) {
    match r
    case Out => (s.(scheduled := true), if s.scheduled then Out else TestRunning)
    case TestRunning => (s, if s.running then Out else Wake)
    case Wake => (WakeUp(s), Out)
  }

  /** `wake_up_process` makes an interruptible task runnable; it does not wake a parked one. */
  function WakeUp(s: State): State {
    s.(asleepable := false)
  }

  function ControllerNext(s: State): (s': State)
    ensures s'.runs == s.runs && s'.stopSignals == s.stopSignals
  {
    match s.ctl
    case ParkWake => WakeUp(s).(ctl := ParkWait)
    case ParkWait => if s.pc.Parked? then s.(ctl := ClearState) else s
    case ClearState => s.(scheduled := false, running := false, ctl := Disabled)
    case EnableCall => var (s1, r) := Schedule(s, Out); s1.(ctl := if r.Out? then Free else Enabling(r))
    case Enabling(req) => var (s1, r) := Schedule(s, req); s1.(ctl := if r.Out? then Free else Enabling(r))
    case StopWake => WakeUp(s).(ctl := StopWait)
    case _ => s
  }

  /** An event that is not enabled changes nothing. */
  function Step(s: State, e: Event): (s': State)
    ensures s.runs <= s'.runs && s'.stopSignals == s.stopSignals
  {
    match e
    case WorkerStep => WorkerNext(s)
    case Request(i) =>
      if i < |s.reqs| then
        var (s1, r) := Schedule(s, s.reqs[i]);
        s1.(reqs := s.reqs[i := r])
      else
        s
    case ControllerStep => ControllerNext(s)
    case Disable =>
      if s.ctl.Free? then s.(ctl := ParkWake)
      else if s.ctl.Disabled? then s.(ctl := ClearState)
      else s
    case Enable => if s.ctl.Free? || s.ctl.Disabled? then s.(ctl := EnableCall) else s
    case Teardown =>
      if s.ctl.Free? || s.ctl.Disabled? then s.(ctl := StopWake) else s
  }

  function Run(s: State, es: seq<Event>): State
    decreases |es|
  {
    if es == [] then s else Run(Step(s, es[0]), es[1..])
  }

  // ---- no wake-up is lost ----

  ghost predicate Requesting(reqs: seq<ReqPc>) {
    exists i :: 0 <= i < |reqs| && !reqs[i].Out?
  }

  /** A caller that is between setting SCHEDULED and its wake-up. */
  ghost predicate InFlight(s: State) {
    s.ctl.Enabling? || Requesting(s.reqs)
  }

  ghost predicate NoLostWakeup(s: State) {
    Blocked(s) ==>
      && (s.scheduled ==> InFlight(s))
      && (ShouldPark(s) ==> s.ctl.ParkWake?)
      && (s.stopSignals ==> ShouldStop(s) ==> s.ctl.StopWake?)
  }

  ghost predicate Consistent(s: State) {
    && (s.running <==> s.pc.SetTaskRunning? || s.pc.Fn? || s.pc.ClearRunning?)
    && (s.pc.TestScheduled? && s.asleepable && ShouldPark(s) ==> s.ctl.ParkWake?)
    && (s.ctl.ClearState? || s.ctl.Disabled? ==> s.pc.Parked?)
    && (s.pc.Exited? ==> ShouldStop(s))
    && (s.ctl.Enabling? ==> !s.ctl.req.Out?)
    && (s.asleepable ==> s.pc.CheckPark? || s.pc.TestScheduled? || s.pc.Sleep? || s.pc.SetRunning? || s.pc.SetTaskRunning? || s.pc.Parked?)
  }

  ghost predicate Inv(s: State) {
    NoLostWakeup(s) && Consistent(s)
  }

  lemma WorkerKeepsInv(s: State)
    requires Inv(s)
    ensures Inv(WorkerNext(s))
  {
    hide Requesting;
  }

  lemma RequestingElsewhere(reqs: seq<ReqPc>, i: nat, r: ReqPc)
    requires i < |reqs|
    ensures !r.Out? || (reqs[i].Out? && Requesting(reqs)) ==> Requesting(reqs[i := r])
  {
    assert reqs[i := r][i] == r;
    if reqs[i].Out? && Requesting(reqs) {
      var k :| 0 <= k < |reqs| && !reqs[k].Out?;
      assert reqs[i := r][k] == if k == i then r else reqs[k];
    }
  }

  lemma RequestKeepsInv(s: State, i: nat)
    requires Inv(s) && i < |s.reqs|
    ensures Inv(Step(s, Request(i)))
  {
    RequestingElsewhere(s.reqs, i, Schedule(s, s.reqs[i]).1);
    hide Requesting;
  }

  lemma ControllerKeepsInv(s: State)
    requires Inv(s)
    ensures Inv(ControllerNext(s))
  {
    hide Requesting;
  }

  lemma CommandKeepsInv(s: State, e: Event)
    requires Inv(s) && (e.Disable? || e.Enable? || e.Teardown?)
    ensures Inv(Step(s, e))
  {
    hide Requesting;
  }

  lemma StepKeepsInv(s: State, e: Event)
    requires Inv(s)
    ensures Inv(Step(s, e))
  {
    match e
    case WorkerStep => WorkerKeepsInv(s);
    case Request(i) => if i < |s.reqs| { RequestKeepsInv(s, i); }
    case ControllerStep => ControllerKeepsInv(s);
    case _ => CommandKeepsInv(s, e);
  }

  /** Every interleaving: whenever the worker sleeps with a request, a park or a stop outstanding,
      somebody is still on the way to wake it. */
  lemma {:induction false} RunKeepsInv(s: State, es: seq<Event>)
    requires Inv(s)
    ensures Inv(Run(s, es))
    decreases |es|
  {
    if es != [] {
      StepKeepsInv(s, es[0]);
      RunKeepsInv(Step(s, es[0]), es[1..]);
    }
  }

  lemma InitKeeps(n: nat, stopSignals: bool)
    ensures Inv(Init(n, stopSignals))
  {
  }

  // ---- every request is served ----

  /** The worker has taken a request and has not called `w->fn` for it yet. */
  predicate Committed(s: State) {
    s.pc.SetRunning? || s.pc.SetTaskRunning?
  }

  predicate Asked(s: State) {
    s.scheduled || Committed(s) || s.ctl.EnableCall?
  }

  predicate Undisturbed(s: State) {
    !ShouldPark(s) && !ShouldStop(s)
  }

  /** Steps of the worker and of calls already made; not a new command of the controller. */
  predicate Progress(e: Event) {
    e.WorkerStep? || e.Request? || e.ControllerStep?
  }

  function ReqWeight(r: ReqPc): nat {
    match r
    case Out => 0
    case TestRunning => 11
    case Wake => 10
  }

  function Weight(reqs: seq<ReqPc>): (w: nat)
    ensures w <= 11 * |reqs|
  {
    if reqs == [] then 0 else ReqWeight(reqs[0]) + Weight(reqs[1..])
  }

  lemma {:induction false} WeightUpdate(reqs: seq<ReqPc>, i: nat, r: ReqPc)
    requires i < |reqs|
    ensures Weight(reqs[i := r]) == Weight(reqs) - ReqWeight(reqs[i]) + ReqWeight(r)
  {
    if i == 0 {
      assert reqs[0 := r][1..] == reqs[1..];
    } else {
      assert reqs[i := r][1..] == reqs[1..][i - 1 := r];
      WeightUpdate(reqs[1..], i - 1, r);
    }
  }

  function CtlWeight(c: CtlPc): nat {
    match c
    case EnableCall => 12
    case Enabling(req) => ReqWeight(req)
    case _ => 0
  }

  /** Steps of the worker until it calls `w->fn`, when it will find SCHEDULED set. */
  function StepsToRun(s: State): nat {
    match s.pc
    case SetTaskRunning => 1
    case SetRunning => 2
    case TestScheduled => 15
    case CheckPark => 16
    case SetInterruptible => 17
    case Top => 18
    case Sleep => if Blocked(s) then 20 else 19
    case Fn => 20
    case _ => 19
  }

  /** Steps of the worker until it blocks, when SCHEDULED stays clear. */
  function StepsToBlock(s: State): nat {
    var again := if s.asleepable then 0 else 6;
    match s.pc
    case Sleep => if Blocked(s) then 0 else 5
    case TestScheduled => 1 + again
    case CheckPark => 2 + again
    case SetInterruptible => 3
    case Top => 4
    case Fn => 6
    case _ => 5
  }

  /** Bounds the steps that can still happen before `w->fn` is called. */
  function Rank(s: State): nat {
    Weight(s.reqs) + CtlWeight(s.ctl)
    + if s.scheduled then StepsToRun(s)
      else if Committed(s) then 12 + StepsToRun(s)
      else 52 + StepsToBlock(s)
  }

  lemma WorkerRanks(s: State)
    requires Inv(s) && Undisturbed(s) && Asked(s)
    ensures var s' := WorkerNext(s);
            s'.runs == s.runs ==> Asked(s') && Undisturbed(s') && (s' == s || Rank(s') < Rank(s))
  {
    hide Requesting, Weight;
  }

  lemma RequestRanks(s: State, i: nat)
    requires Inv(s) && Undisturbed(s) && Asked(s) && i < |s.reqs|
    ensures var s' := Step(s, Request(i));
            s'.runs == s.runs && Asked(s') && Undisturbed(s') && (s' == s || Rank(s') < Rank(s))
  {
    var r := Schedule(s, s.reqs[i]).1;
    WeightUpdate(s.reqs, i, r);
    assert s.reqs[i := s.reqs[i]] == s.reqs;
    hide Requesting, Weight;
  }

  lemma ControllerRanks(s: State)
    requires Inv(s) && Undisturbed(s) && Asked(s)
    ensures var s' := ControllerNext(s);
            s'.runs == s.runs && Asked(s') && Undisturbed(s') && (s' == s || Rank(s') < Rank(s))
  {
    hide Requesting, Weight;
  }

  lemma StepRanks(s: State, e: Event)
    requires Inv(s) && Undisturbed(s) && Asked(s) && Progress(e)
    ensures var s' := Step(s, e);
            && s.runs <= s'.runs
            && (s'.runs == s.runs ==> Asked(s') && Undisturbed(s') && (s' == s || Rank(s') < Rank(s)))
  {
    match e
    case WorkerStep => WorkerRanks(s);
    case Request(i) => if i < |s.reqs| { RequestRanks(s, i); }
    case ControllerStep => ControllerRanks(s);
  }

  ghost predicate CanMove(s: State) {
    exists e :: Progress(e) && Step(s, e) != s
  }

  /** While a request waits, the system cannot come to rest. */
  lemma NotStuck(s: State)
    requires Inv(s) && Undisturbed(s) && Asked(s)
    ensures CanMove(s)
  {
    if Blocked(s) && s.scheduled && !s.ctl.Enabling? {
      var i :| 0 <= i < |s.reqs| && !s.reqs[i].Out?;
      assert s.reqs[i := Schedule(s, s.reqs[i]).1][i] != s.reqs[i];
      assert Step(s, Request(i)) != s;
    } else if Blocked(s) {
      assert Step(s, ControllerStep) != s;
    } else {
      assert Step(s, WorkerStep) != s;
    }
  }

  /** How many events of the run changed something. */
  function Changes(s: State, es: seq<Event>): nat
    decreases |es|
  {
    if es == [] then 0 else (if Step(s, es[0]) != s then 1 else 0) + Changes(Step(s, es[0]), es[1..])
  }

  lemma RankBound(s: State)
    ensures Rank(s) <= 75 + 11 * |s.reqs|
  {
  }

  /** Every request is served: however the steps interleave, at most 75 of them, and 11 more for each requester, can
      happen before `w->fn` is called, and until then some step can happen. */
  lemma {:induction false} RequestIsServed(s: State, es: seq<Event>)
    requires Inv(s) && Undisturbed(s) && Asked(s) && forall e <- es :: Progress(e)
    ensures Run(s, es).runs > s.runs || (Changes(s, es) <= Rank(s) && CanMove(Run(s, es)))
    ensures Rank(s) <= 75 + 11 * |s.reqs|
    decreases |es|
  {
    RankBound(s);
    if es == [] {
      NotStuck(s);
    } else {
      var s1 := Step(s, es[0]);
      StepKeepsInv(s, es[0]);
      StepRanks(s, es[0]);
      hide Step, Inv, Rank, Asked;
      if s1.runs == s.runs {
        RequestIsServed(s1, es[1..]);
      } else {
        RunsGrow(s1, es[1..]);
      }
    }
  }

  lemma {:induction false} RunsGrow(s: State, es: seq<Event>)
    ensures s.runs <= Run(s, es).runs
    decreases |es|
  {
    if es != [] {
      hide Step;
      RunsGrow(Step(s, es[0]), es[1..]);
    }
  }

  /** `mt76_worker_schedule` asks for a run, and so does `mt76_worker_enable`, from any state. */
  lemma CallsAsk(s: State, i: nat)
    requires Inv(s)
    ensures i < |s.reqs| && s.reqs[i].Out? ==> Asked(Step(s, Request(i)))
    ensures s.ctl.Free? || s.ctl.Disabled? ==> Asked(Step(s, Enable)) && Undisturbed(Step(s, Enable))
  {
  }

  /** Requests taken or waiting that have not led to a call of `w->fn` yet. */
  function Outstanding(s: State): nat {
    (if s.scheduled then 1 else 0) + if Committed(s) then 1 else 0
  }

  /** How many events of the run turned SCHEDULED on. */
  function Requests(s: State, es: seq<Event>): nat
    decreases |es|
  {
    if es == [] then 0
    else (if !s.scheduled && Step(s, es[0]).scheduled then 1 else 0) + Requests(Step(s, es[0]), es[1..])
  }

  lemma StepRunsOnlyRequests(s: State, e: Event)
    ensures var s' := Step(s, e);
            s'.runs + Outstanding(s') <= s.runs + Outstanding(s) + if !s.scheduled && s'.scheduled then 1 else 0
  {
    match e
    case WorkerStep => {}
    case ControllerStep =>
      assert ControllerNext(s).runs == s.runs && ControllerNext(s).pc == s.pc;
    case _ => {}
  }

  /** `w->fn` is called at most once for each time the bit was turned on: never without a request. */
  lemma {:induction false} RunsOnlyRequests(s: State, es: seq<Event>)
    ensures Run(s, es).runs + Outstanding(Run(s, es)) <= s.runs + Outstanding(s) + Requests(s, es)
    decreases |es|
  {
    if es != [] {
      StepRunsOnlyRequests(s, es[0]);
      hide Step, Outstanding;
      RunsOnlyRequests(Step(s, es[0]), es[1..]);
    }
  }

  /** From the moment disable has seen the worker park until the next enable or teardown,
      `w->fn` is not called, whoever asks. */
  lemma {:induction false} DisabledNeverRuns(s: State, es: seq<Event>)
    requires Inv(s) && (s.ctl.Disabled? || s.ctl.ClearState?) && forall e <- es :: !e.Enable? && !e.Teardown?
    ensures Run(s, es).runs == s.runs
    decreases |es|
  {
    if es != [] {
      StepKeepsInv(s, es[0]);
      DisabledNeverRuns(Step(s, es[0]), es[1..]);
    }
  }

  // ---- teardown ----

  /** The worker sleeps, it was told to stop, and nobody will wake it. */
  ghost predicate MissedStop(s: State) {
    Blocked(s) && ShouldStop(s) && s.ctl.StopWait? && !s.scheduled && forall r <- s.reqs :: r.Out?
  }

  ghost predicate CanMissStop(n: nat, stopSignals: bool) {
    exists es :: MissedStop(Run(Init(n, stopSignals), es))
  }

  /** The loop tests for a stop before it becomes interruptible, so a stop between the two is missed
      exactly when stopping a thread does not also leave a signal pending on it. */
  lemma StopCanBeMissed(n: nat, stopSignals: bool)
    ensures CanMissStop(n, stopSignals) <==> !stopSignals
  {
    if stopSignals {
      forall es ensures !MissedStop(Run(Init(n, stopSignals), es)) {
        InitKeeps(n, stopSignals);
        RunKeepsInv(Init(n, stopSignals), es);
        RunKeepsSignals(Init(n, stopSignals), es);
      }
    } else {
      var s := Init(n, false);
      var late := [WorkerStep, WorkerStep, WorkerStep];
      var es := [WorkerStep, Teardown, ControllerStep] + late + [WorkerStep];
      var s1 := Step(Step(Step(s, WorkerStep), Teardown), ControllerStep);
      var s2 := Step(Step(Step(s1, WorkerStep), WorkerStep), WorkerStep);
      assert MissedStop(s2);
      Unroll3(s, WorkerStep, Teardown, ControllerStep, late);
      Unroll3(s1, WorkerStep, WorkerStep, WorkerStep, []);
      assert Run(s, [WorkerStep, Teardown, ControllerStep] + late) == s2;
    }
  }

  /** A missed stop is never made up for: until somebody schedules the worker again, it sleeps and the teardown waits. */
  lemma {:induction false} MissedStopStays(s: State, es: seq<Event>)
    requires MissedStop(s) && forall e <- es :: !e.Request?
    ensures Run(s, es) == s
    decreases |es|
  {
    if es != [] {
      assert !es[0].Request?;
      MissedStopStays(Step(s, es[0]), es[1..]);
    }
  }

  lemma Unroll3(s: State, e1: Event, e2: Event, e3: Event, es: seq<Event>)
    ensures Run(s, [e1, e2, e3] + es) == Run(Step(Step(Step(s, e1), e2), e3), es)
  {
    hide Step;
    var all := [e1, e2, e3] + es;
    assert all[1..] == [e2, e3] + es;
    assert all[1..][1..] == [e3] + es;
    assert all[1..][1..][1..] == es;
    assert Run(s, all) == Run(Step(s, e1), all[1..]);
    assert Run(Step(s, e1), all[1..]) == Run(Step(Step(s, e1), e2), all[1..][1..]);
  }

  lemma {:induction false} RunKeepsSignals(s: State, es: seq<Event>)
    ensures Run(s, es).stopSignals == s.stopSignals
    decreases |es|
  {
    if es != [] {
      hide Step;
      RunKeepsSignals(Step(s, es[0]), es[1..]);
    }
  }
}
