/** Runs read from their steps alone: what the clock, the environment, the startup tasks, the services and the
    selects did, as functions of the sequence of steps, and the state that every run leads to in those terms. */
module HostRuns {
  import opened Common
  import opened Restart
  import opened Supervisor
  import opened Protocol
  import opened HostInvariant
  import opened HostTheorems

  ghost predicate RunTo(c: Config, steps: seq<Step>, s: State) {
    Path(c, Init(c), steps, s)
  }

  // Readings of a run.

  /** The time that has passed. */
  function Clock(steps: seq<Step>): nat {
    if steps == [] then 0 else Clock(Front(steps)) + (if Last(steps).Tick? then Last(steps).d else 0)
  }

  function Front(steps: seq<Step>): seq<Step>
    requires steps != []
  {
    steps[..|steps| - 1]
  }

  function Last(steps: seq<Step>): Step
    requires steps != []
  {
    steps[|steps| - 1]
  }

  /** The services launched, in registration order. */
  function Launches(steps: seq<Step>): nat {
    if steps == [] then 0 else Launches(Front(steps)) + (if Last(steps) == LaunchAll(Launch) then 1 else 0)
  }

  /** The startup tasks begun. */
  function TasksBegun(steps: seq<Step>): nat {
    if steps == [] then 0 else TasksBegun(Front(steps)) + (if Last(steps) == RunTasks(TaskBegin) then 1 else 0)
  }

  /** A task that returned this error failed, unless the error is context.Canceled and the tasks' context was
      cancelled by then. */
  predicate TaskFails(before: seq<Step>, err: Err) {
    err.Error? && !(err.canceled && CancelTasks in before)
  }

  /** The task that failed, and its error. */
  function FailedTask(steps: seq<Step>): Option<(int, Err)> {
    if steps == [] then None
    else if Last(steps).RunTasks? && Last(steps).task.TaskEnd? && TaskFails(Front(steps), Last(steps).task.err) then
      Some((TasksBegun(Front(steps)) - 1, Last(steps).task.err))
    else FailedTask(Front(steps))
  }

  /** What the supervisor of one service did. */
  function Acts(steps: seq<Step>, i: nat): seq<Act> {
    if steps == [] then []
    else Acts(Front(steps), i) + (if Last(steps).Supervise? && Last(steps).service == i then [Last(steps).act] else [])
  }

  /** The final message that is due after these acts: nil after a pause that shutdown ended, since the policy has
      dealt with the failure before it, and otherwise what Start returned. */
  function Due(acts: seq<Act>): Err {
    if acts != [] && acts[|acts| - 1].StopWait? then NoError else LastResult(acts)
  }

  /** The final messages sent. */
  function Finals(acts: seq<Act>): seq<Err> {
    if acts == [] then []
    else
      var front := acts[..|acts| - 1];
      Finals(front) + if acts[|acts| - 1].PutDone? then [Due(front)] else []
  }

  /** When the latest run of the service began: at its launch or at its latest restart. */
  function StartedAt(steps: seq<Step>, i: nat): nat {
    if steps == [] then 0
    else
      var front, last := Front(steps), Last(steps);
      if (last == LaunchAll(Launch) && Launches(front) == i)
         || (last.Supervise? && last.service == i && last.act.Restart?) then Clock(front)
      else StartedAt(front, i)
  }

  /** When the latest exit of the service was decided on. */
  function DecidedAt(steps: seq<Step>, i: nat): nat {
    if steps == [] then 0
    else
      var front, last := Front(steps), Last(steps);
      if last.Supervise? && last.service == i && last.act.Decide? then Clock(front) else DecidedAt(front, i)
  }

  /** The restarts of the service after stoppingCh was closed. */
  function LateRestarts(steps: seq<Step>, i: nat): nat {
    if steps == [] then 0
    else
      var front, last := Front(steps), Last(steps);
      LateRestarts(front, i)
      + if last.Supervise? && last.service == i && last.act.Restart? && Leave(CloseStopping) in front then 1 else 0
  }

  /** The calls of Stop. */
  function StopCalls(steps: seq<Step>): nat {
    if steps == [] then 0 else StopCalls(Front(steps)) + (if Last(steps) == StopAll(StopService) then 1 else 0)
  }

  /** What the calls of the service's Stop returned. */
  function StopResults(steps: seq<Step>, i: nat): seq<Err> {
    if steps == [] then []
    else
      StopResults(Front(steps), i)
      + (if Last(steps).StopReturns? && Last(steps).service == i then [Last(steps).err] else [])
  }

  lemma Snoc(steps: seq<Step>, step: Step)
    ensures Front(steps + [step]) == steps && Last(steps + [step]) == step
  {
  }

  // Runs grow at their end.

  lemma {:induction false} PathLast(c: Config, from: State, steps: seq<Step>, to: State) returns (mid: State)
    requires Path(c, from, steps, to) && steps != []
    ensures Path(c, from, Front(steps), mid) && Enabled(c, mid, Last(steps)) && to == Apply(c, mid, Last(steps))
    decreases |steps|
  {
    var next := Apply(c, from, steps[0]);
    if |steps| == 1 {
      mid := from;
      assert Front(steps) == [] && Path(c, next, [], to);
      assert steps[1..] == [];
    } else {
      mid := PathLast(c, next, steps[1..], to);
      assert Front(steps)[1..] == Front(steps[1..]) && Last(steps) == Last(steps[1..]);
    }
  }

  // The environment and the main goroutine.

  ghost predicate EnvRead(steps: seq<Step>, s: State) {
    && s.now == Clock(steps)
    && (s.ctxDone <==> CancelCtx in steps)
    && (s.shutdown <==> RequestShutdown in steps)
    && (s.tasksCanceled <==> CancelTasks in steps)
    && (s.tasksCanceled ==> s.ctxDone || s.shutdown)
    && (s.stopping <==> Leave(CloseStopping) in steps)
    && s.launched == Launches(steps)
  }

  lemma EnvStep(c: Config, steps: seq<Step>, s: State, step: Step)
    requires EnvRead(steps, s) && Enabled(c, s, step)
    ensures EnvRead(steps + [step], Apply(c, s, step))
  {
    Snoc(steps, step);
    hide SvcAfter;
    match step {
      case RunTasks(act) => EnvTasks(c, s, act);
      case LaunchAll(act) => EnvLaunch(c, s, act);
      case Leave(act) => EnvLeave(c, s, act);
      case StopAll(act) => EnvStop(c, s, act);
      case _ =>
    }
  }

  predicate SameEnv(s: State, next: State) {
    && next.now == s.now && next.ctxDone == s.ctxDone && next.shutdown == s.shutdown
    && next.tasksCanceled == s.tasksCanceled
  }

  lemma EnvTasks(c: Config, s: State, act: TaskAct)
    requires TasksEnabled(c, s, act)
    ensures var next := TasksApply(c, s, act);
      SameEnv(s, next) && next.stopping == s.stopping && next.launched == s.launched
  {
    match act {
      case TasksDone =>
      case TasksAborted =>
      case TaskBegin =>
      case TaskEnd(err) =>
        if err.NoError? {
        } else if err.canceled && s.tasksCanceled {
        } else {
        }
    }
  }

  lemma EnvLaunch(c: Config, s: State, act: LaunchAct)
    requires LaunchEnabled(c, s, act)
    ensures var next := LaunchApply(c, s, act);
      SameEnv(s, next) && next.stopping == s.stopping && next.launched == s.launched + if act.Launch? then 1 else 0
  {
    match act {
      case Launch =>
      case AllLaunched =>
      case SeeReady =>
    }
  }

  lemma EnvLeave(c: Config, s: State, act: LeaveAct)
    requires LeaveEnabled(c, s, act)
    ensures var next := LeaveApply(c, s, act);
      SameEnv(s, next) && next.stopping == (s.stopping || act.CloseStopping?) && next.launched == s.launched
  {
    match act {
      case TakeExit =>
      case SeeStartTimeout =>
      case SeeCancel =>
      case SeeShutdown =>
      case CloseStopping =>
      case BeginStop =>
    }
  }

  lemma EnvStop(c: Config, s: State, act: StopAct)
    requires StopEnabled(c, s, act)
    ensures var next := StopApply(c, s, act);
      SameEnv(s, next) && next.stopping == s.stopping && next.launched == s.launched
  {
    match act {
      case StopService =>
      case TakeStop =>
      case StopDeadline =>
      case TakeDone =>
      case DoneDeadline =>
      case Return =>
    }
  }

  /** The startup tasks: counted while they run, all begun before any launch, and the failed one remembered. */
  ghost predicate TaskRead(c: Config, steps: seq<Step>, s: State) {
    && (s.pc.InTasks? ==> s.pc.task == TasksBegun(steps))
    && (s.pc.InTask? ==> s.pc.task == TasksBegun(steps) - 1)
    && (s.pc.InTasks? || s.pc.InTask? || s.trigger.TaskFailure? || s.trigger.TasksInterrupted? || TasksBegun(steps) == c.tasks)
    && FailedTask(steps) == (if s.trigger.TaskFailure? then Some((s.trigger.task, s.trigger.taskErr)) else None)
    && (s.trigger.TasksInterrupted? ==> s.tasksCanceled)
  }

  lemma TaskStep(c: Config, steps: seq<Step>, s: State, step: Step)
    requires TaskRead(c, steps, s) && EnvRead(steps, s) && PcInv(c, s) && Enabled(c, s, step)
    ensures TaskRead(c, steps + [step], Apply(c, s, step))
  {
    Snoc(steps, step);
    match step {
      case RunTasks(act) => TaskStepIn(c, steps, s, act);
      case LaunchAll(act) =>
        hide FailedTask, TasksBegun, LaunchApply;
        NoTask(steps, step);
        LaunchTrigger(c, s, act);
      case Leave(act) =>
        hide FailedTask, TasksBegun, LeaveApply;
        NoTask(steps, step);
        LeaveTrigger(c, s, act);
        EnvLeave(c, s, act);
      case StopAll(act) =>
        hide FailedTask, TasksBegun, StopApply;
        NoTask(steps, step);
        StopTrigger(c, s, act);
        EnvStop(c, s, act);
      case _ =>
        hide FailedTask, TasksBegun;
        NoTask(steps, step);
        OutsideFrame(c, s, step);
        OutsideEnv(c, s, step);
    }
  }

  lemma NoTask(steps: seq<Step>, step: Step)
    requires !step.RunTasks?
    ensures TasksBegun(steps + [step]) == TasksBegun(steps) && FailedTask(steps + [step]) == FailedTask(steps)
  {
    Snoc(steps, step);
  }

  lemma LaunchTrigger(c: Config, s: State, act: LaunchAct)
    requires LaunchEnabled(c, s, act)
    ensures var next := LaunchApply(c, s, act); next.trigger == s.trigger && !next.pc.InTasks? && !next.pc.InTask?
    ensures !s.pc.InTasks? && !s.pc.InTask?
  {
    match act {
      case Launch =>
      case AllLaunched =>
      case SeeReady =>
    }
  }

  /** The trigger that the cases of the two selects leave. */
  function TriggerAfter(s: State, act: LeaveAct): Trigger {
    match act
    case TakeExit => if s.exits == [] then s.trigger else ExitTaken(s.exits[0])
    case SeeStartTimeout => if s.launched == 0 then s.trigger else ReadyTimeout(s.launched - 1)
    case SeeCancel => Requested
    case SeeShutdown => Requested
    case _ => s.trigger
  }

  lemma LeaveTrigger(c: Config, s: State, act: LeaveAct)
    requires LeaveEnabled(c, s, act)
    ensures var next := LeaveApply(c, s, act);
      next.trigger == TriggerAfter(s, act) && !next.pc.InTasks? && !next.pc.InTask?
    ensures !s.pc.InTasks? && !s.pc.InTask?
  {
    match act {
      case TakeExit =>
      case SeeStartTimeout =>
      case SeeCancel =>
      case SeeShutdown =>
      case CloseStopping =>
      case BeginStop =>
    }
  }

  lemma StopTrigger(c: Config, s: State, act: StopAct)
    requires StopEnabled(c, s, act)
    ensures var next := StopApply(c, s, act); next.trigger == s.trigger && !next.pc.InTasks? && !next.pc.InTask?
    ensures !s.pc.InTasks? && !s.pc.InTask?
  {
    match act {
      case StopService =>
      case TakeStop =>
      case StopDeadline =>
      case TakeDone =>
      case DoneDeadline =>
      case Return =>
    }
  }

  lemma TaskStepIn(c: Config, steps: seq<Step>, s: State, act: TaskAct)
    requires TaskRead(c, steps, s) && EnvRead(steps, s) && PcInv(c, s) && TasksEnabled(c, s, act)
    ensures TaskRead(c, steps + [RunTasks(act)], TasksApply(c, s, act))
  {
    Snoc(steps, RunTasks(act));
    match act {
      case TasksDone =>
      case TasksAborted =>
      case TaskBegin =>
      case TaskEnd(err) =>
        if err.NoError? {
        } else if err.canceled && s.tasksCanceled {
        } else {
        }
    }
  }

  /** The selects: which of their cases were taken, and on what grounds. */
  ghost predicate SelectRead(c: Config, steps: seq<Step>, s: State) {
    && (s.trigger.ExitTaken? <==> Leave(TakeExit) in steps)
    && (s.trigger.ReadyTimeout? <==> Leave(SeeStartTimeout) in steps)
    && (s.trigger.Requested? ==> s.ctxDone || s.shutdown)
    && (s.trigger.ReadyTimeout? ==> 0 < c.startTimeout <= s.now)
  }

  lemma SelectStep(c: Config, steps: seq<Step>, s: State, step: Step)
    requires SelectRead(c, steps, s) && PcInv(c, s) && Enabled(c, s, step)
    ensures SelectRead(c, steps + [step], Apply(c, s, step))
  {
    match step {
      case RunTasks(act) =>
        hide TasksApply;
        EnvTasks(c, s, act);
        TasksTrigger(c, s, act);
      case LaunchAll(act) =>
        hide LaunchApply;
        EnvLaunch(c, s, act);
        LaunchTrigger(c, s, act);
      case Leave(act) =>
        hide LeaveApply;
        EnvLeave(c, s, act);
        LeaveTrigger(c, s, act);
        LeaveSelects(c, s, act);
      case StopAll(act) =>
        hide StopApply;
        EnvStop(c, s, act);
        StopTrigger(c, s, act);
      case _ =>
        OutsideFrame(c, s, step);
        OutsideEnv(c, s, step);
    }
  }

  lemma TasksTrigger(c: Config, s: State, act: TaskAct)
    requires TasksEnabled(c, s, act) && PcInv(c, s)
    ensures s.trigger.NoTrigger?
    ensures var t := TasksApply(c, s, act).trigger; !t.ExitTaken? && !t.ReadyTimeout? && !t.Requested?
  {
    match act {
      case TasksDone =>
      case TasksAborted =>
      case TaskBegin =>
      case TaskEnd(err) =>
        if err.NoError? {
        } else if err.canceled && s.tasksCanceled {
        } else {
        }
    }
  }

  lemma LeaveSelects(c: Config, s: State, act: LeaveAct)
    requires LeaveEnabled(c, s, act) && PcInv(c, s)
    ensures act.TakeExit? ==> s.exits != [] && s.trigger.NoTrigger?
    ensures act.SeeStartTimeout? ==> 0 < s.launched && 0 < c.startTimeout <= s.now && s.trigger.NoTrigger?
    ensures act.SeeCancel? ==> s.ctxDone && s.trigger.NoTrigger?
    ensures act.SeeShutdown? ==> s.shutdown && s.trigger.NoTrigger?
  {
  }

  lemma OutsideEnv(c: Config, s: State, step: Step)
    requires Enabled(c, s, step) && IsOutside(step)
    ensures var next := Apply(c, s, step);
      && (s.ctxDone ==> next.ctxDone) && (s.shutdown ==> next.shutdown) && (s.tasksCanceled ==> next.tasksCanceled)
      && s.now <= next.now
  {
    hide SvcAfter;
    match step {
      case Tick(_) =>
      case CancelCtx =>
      case RequestShutdown =>
      case CancelTasks =>
      case BecomeReady(_) =>
      case StopReturns(_, _) =>
      case Supervise(_, _) =>
    }
  }

  // One service.

  /** The messages and the error in flight are those of the acts. */
  ghost predicate MsgRead(pol: Option<Policy>, acts: seq<Act>, svc: Svc) {
    && svc.sent == Finals(acts)
    && (pol.Some? ==> svc.sup.exits == ExitsIn(acts))
    && (match svc.sup.phase
        case Exited(err) => err == LastResult(acts)
        case Decided(err) => err == LastResult(acts)
        case SendDone(msg, report) => msg == Due(acts) && (report <==> !EndedQuietly(acts))
        case SendExit(_) => !EndedQuietly(acts)
        case Finished(report) => report <==> !EndedQuietly(acts)
        case _ => !EndedQuietly(acts))
    && (svc.sup.phase.Exited? || svc.sup.phase.Decided? ==> !EndedQuietly(acts))
    && (PutExit in acts <==> svc.sup.phase == Phase.Finished(true))
  }

  /** A select found that the host is shutting down. */
  predicate EndedQuietly(acts: seq<Act>) {
    SeeStop in acts || StopWait in acts
  }

  lemma MsgStep(pol: Option<Policy>, s: State, svc: Svc, act: Act, acts: seq<Act>)
    requires MsgRead(pol, acts, svc) && Can(svc.sup, act)
    ensures MsgRead(pol, acts + [act], SvcAfter(pol, s, svc, act))
  {
    hide Finals, ExitsIn, LastResult, Due, EndedQuietly, NextDelay, Streak;
    ActsGrow(acts, act);
    match act {
      case StartReturns(_) =>
      case SeeStop =>
      case Proceed =>
      case Decide(_) =>
      case StopWait =>
      case Restart(_) =>
      case PutDone =>
      case PutExit =>
    }
  }

  /** The readings of a supervisor's acts, one act later. */
  lemma ActsGrow(acts: seq<Act>, act: Act)
    ensures var all := acts + [act];
      && Finals(all) == Finals(acts) + (if act.PutDone? then [Due(acts)] else [])
      && ExitsIn(all) == ExitsIn(acts) + (if act.Decide? then [Exit(act.elapsed, LastResult(acts))] else [])
      && LastResult(all) == (if act.StartReturns? then act.err else LastResult(acts))
      && Due(all) == (if act.StopWait? then NoError else LastResult(all))
      && (EndedQuietly(all) <==> EndedQuietly(acts) || act.SeeStop? || act.StopWait?)
      && (PutExit in all <==> PutExit in acts || act.PutExit?)
  {
    var all := acts + [act];
    assert all[..|all| - 1] == acts && all[|all| - 1] == act;
  }

  /** The supervisor's clock reading is that of the run or the pause it is in, and a pause has been announced. */
  ghost predicate TimeRead(svc: Svc, startedAt: nat, decidedAt: nat) {
    match svc.sup.phase
    case Running => svc.mark == startedAt
    case Exited(_) => svc.mark == startedAt
    case Decided(_) => svc.mark == startedAt
    case Waiting =>
      && svc.mark == decidedAt && svc.sup.reports != []
      && svc.sup.reports[|svc.sup.reports| - 1].delay == svc.sup.delay
    case _ => true
  }

  lemma TimeStep(pol: Option<Policy>, s: State, svc: Svc, act: Act, started: nat, decided: nat)
    requires TimeRead(svc, started, decided) && Can(svc.sup, act)
    ensures TimeRead(SvcAfter(pol, s, svc, act), if act.Restart? then s.now else started, if act.Decide? then s.now else decided)
  {
    match act {
      case StartReturns(_) =>
      case SeeStop =>
      case Proceed =>
      case Decide(_) =>
      case StopWait =>
      case Restart(_) =>
      case PutDone =>
      case PutExit =>
    }
  }

  ghost predicate SupRead(c: Config, steps: seq<Step>, s: State, i: nat)
    requires i < |s.svcs|
  {
    && i < |c.services| &&
    var acts, svc := Acts(steps, i), s.svcs[i];
    && MsgRead(c.services[i].restart, acts, svc)
    && TimeRead(svc, StartedAt(steps, i), DecidedAt(steps, i))
    && (svc.sup.phase.Idle? ==> acts == [])
    && (EndedQuietly(acts) ==> s.stopping)
    && svc.lateStarts == LateRestarts(steps, i)
  }

  lemma SupStep(c: Config, steps: seq<Step>, s: State, step: Step, i: nat)
    requires EnvRead(steps, s) && Enabled(c, s, step) && PcInv(c, s) && SvcsInv(c, s) && StopInv(c, s) && i < |s.svcs|
    requires SupRead(c, steps, s, i)
    ensures var next := Apply(c, s, step); i < |next.svcs| && SupRead(c, steps + [step], next, i)
  {
    Snoc(steps, step);
    if step.Supervise? && step.service == i {
      SupOwnStep(c, steps, s, step.act, i);
    } else if step == LaunchAll(Launch) && i == s.launched {
      SupLaunched(c, steps, s, i);
    } else {
      SupOthersStep(c, steps, s, step, i);
    }
  }

  lemma SupOthersStep(c: Config, steps: seq<Step>, s: State, step: Step, i: nat)
    requires EnvRead(steps, s) && Enabled(c, s, step) && i < |s.svcs| && SupRead(c, steps, s, i)
    requires !(step.Supervise? && step.service == i) && (step == LaunchAll(Launch) ==> i != s.launched)
    ensures var next := Apply(c, s, step); i < |next.svcs| && SupRead(c, steps + [step], next, i)
  {
    hide Apply, Acts, StartedAt, DecidedAt, LateRestarts, SupRead, EnvRead, SameSupervisor;
    OthersStep(c, s, step, i);
    StoppingStays(c, s, step);
    LaunchedReading(steps, s);
    OthersReading(steps, step, i);
    SupKept(c, steps, s, steps + [step], Apply(c, s, step), i);
  }

  lemma LaunchedReading(steps: seq<Step>, s: State)
    requires EnvRead(steps, s)
    ensures s.launched == Launches(steps)
  {
  }

  lemma SupKept(c: Config, steps: seq<Step>, s: State, more: seq<Step>, next: State, i: nat)
    requires i < |s.svcs| == |next.svcs| && SupRead(c, steps, s, i) && SameSupervisor(s.svcs[i], next.svcs[i])
    requires s.stopping ==> next.stopping
    requires Acts(more, i) == Acts(steps, i) && StartedAt(more, i) == StartedAt(steps, i)
    requires DecidedAt(more, i) == DecidedAt(steps, i) && LateRestarts(more, i) == LateRestarts(steps, i)
    ensures SupRead(c, more, next, i)
  {
    hide Acts, StartedAt, DecidedAt, LateRestarts, Finals, ExitsIn, LastResult, Due, EndedQuietly;
  }

  lemma OthersReading(steps: seq<Step>, step: Step, i: nat)
    requires !(step.Supervise? && step.service == i) && (step == LaunchAll(Launch) ==> i != Launches(steps))
    ensures Acts(steps + [step], i) == Acts(steps, i) && StartedAt(steps + [step], i) == StartedAt(steps, i)
    ensures DecidedAt(steps + [step], i) == DecidedAt(steps, i) && LateRestarts(steps + [step], i) == LateRestarts(steps, i)
  {
    Snoc(steps, step);
  }

  lemma StoppingStays(c: Config, s: State, step: Step)
    requires Enabled(c, s, step)
    ensures s.stopping ==> Apply(c, s, step).stopping
  {
    hide SvcAfter;
    match step {
      case RunTasks(act) => EnvTasks(c, s, act);
      case LaunchAll(act) => EnvLaunch(c, s, act);
      case Leave(act) => EnvLeave(c, s, act);
      case StopAll(act) => EnvStop(c, s, act);
      case _ => OutsideFrame(c, s, step);
    }
  }

  lemma SupLaunched(c: Config, steps: seq<Step>, s: State, i: nat)
    requires EnvRead(steps, s) && Enabled(c, s, LaunchAll(Launch)) && i == s.launched && i < |s.svcs|
    requires SvcsInv(c, s) && SupRead(c, steps, s, i)
    ensures var next := Apply(c, s, LaunchAll(Launch)); i < |next.svcs| && SupRead(c, steps + [LaunchAll(Launch)], next, i)
  {
    Snoc(steps, LaunchAll(Launch));
    assert SvcInv(c.services[i].restart, false, s.stopping, s.svcs[i]);
  }

  lemma SupOwnStep(c: Config, steps: seq<Step>, s: State, act: Act, i: nat)
    requires EnvRead(steps, s) && Enabled(c, s, Step.Supervise(i, act)) && i < |s.svcs| && SupRead(c, steps, s, i)
    requires SvcsInv(c, s) && StopInv(c, s) && PcInv(c, s)
    ensures var next := Apply(c, s, Step.Supervise(i, act)); i < |next.svcs| && SupRead(c, steps + [Step.Supervise(i, act)], next, i)
  {
    hide Acts, StartedAt, DecidedAt, LateRestarts, SvcAfter, MsgRead, TimeRead, Do, Apply, StopInv, SvcsInv, PcInv;
    var pol, svc := c.services[i].restart, s.svcs[i];
    OwnReading(steps, act, i);
    OwnApply(c, s, act, i);
    MsgStep(pol, s, svc, act, Acts(steps, i));
    TimeStep(pol, s, svc, act, StartedAt(steps, i), DecidedAt(steps, i));
    NeverIdle(pol, svc.sup, act);
    if act.SeeStop? || act.StopWait? {
      OnlyWhenStopping(c, s, i);
    }
  }

  lemma OwnApply(c: Config, s: State, act: Act, i: nat)
    requires Enabled(c, s, Step.Supervise(i, act))
    ensures var next := Apply(c, s, Step.Supervise(i, act));
      && |next.svcs| == |s.svcs| && next.svcs[i] == SvcAfter(c.services[i].restart, s, s.svcs[i], act)
      && next.svcs[i].sup == Do(c.services[i].restart, s.svcs[i].sup, act)
      && next.stopping == s.stopping
      && next.svcs[i].lateStarts == s.svcs[i].lateStarts + (if act.Restart? && s.stopping then 1 else 0)
      && (act.SeeStop? || act.StopWait? ==> StopSeen(s, s.svcs[i]))
  {
  }

  lemma OwnReading(steps: seq<Step>, act: Act, i: nat)
    ensures var all := steps + [Step.Supervise(i, act)];
      && Acts(all, i) == Acts(steps, i) + [act]
      && StartedAt(all, i) == (if act.Restart? then Clock(steps) else StartedAt(steps, i))
      && DecidedAt(all, i) == (if act.Decide? then Clock(steps) else DecidedAt(steps, i))
      && LateRestarts(all, i) == LateRestarts(steps, i) + (if act.Restart? && Leave(CloseStopping) in steps then 1 else 0)
  {
    Snoc(steps, Step.Supervise(i, act));
  }

  lemma NeverIdle(pol: Option<Policy>, sup: Sup, act: Act)
    requires Can(sup, act)
    ensures !Do(pol, sup, act).phase.Idle?
  {
  }

  /** A service's context is cancelled only after shutdown has begun. */
  lemma OnlyWhenStopping(c: Config, s: State, i: nat)
    requires PcInv(c, s) && StopInv(c, s) && i < |s.svcs| && StopSeen(s, s.svcs[i])
    ensures s.stopping
  {
    assert StopSvc(c, s, i, s.svcs[i], s.outcomes[i]);
  }

  /** The calls of Stop, and readiness. */
  ghost predicate CallsRead(c: Config, steps: seq<Step>, s: State, i: nat)
    requires i < |s.svcs|
  {
    var svc, results := s.svcs[i], StopResults(steps, i);
    && (match svc.stop
        case NotCalled => results == []
        case InStop => results == []
        case StopSent(err) => results == [err]
        case StopTaken(err) => results == [err])
    && (svc.ready <==> BecomeReady(i) in steps)
    && (Passed(c, s, i) ==> svc.ready)
  }

  /** The host has gone on past the readiness of this Readier. */
  predicate Passed(c: Config, s: State, i: nat) {
    i < |c.services| && c.services[i].readier && (i + 1 < s.launched || (i + 1 == s.launched && !s.gated))
  }

  /** How a step may change a service's Stop call. */
  predicate CallAfter(call: StopCall, step: Step, i: nat, next: StopCall) {
    if step.StopReturns? && step.service == i then call.InStop? && next == StopSent(step.err)
    else
      || next == call
      || (call.NotCalled? && next.InStop?)
      || (call.StopSent? && next == StopTaken(call.err))
  }

  predicate CallOf(s: State, step: Step, next: State, i: nat)
    requires i < |s.svcs|
  {
    && |next.svcs| == |s.svcs|
    && CallAfter(s.svcs[i].stop, step, i, next.svcs[i].stop)
    && next.svcs[i].ready == (s.svcs[i].ready || step == BecomeReady(i))
  }

  lemma CallsStep(c: Config, steps: seq<Step>, s: State, step: Step, i: nat)
    requires Enabled(c, s, step) && PcInv(c, s) && StopInv(c, s) && i < |s.svcs| && CallsRead(c, steps, s, i)
    ensures var next := Apply(c, s, step); i < |next.svcs| && CallsRead(c, steps + [step], next, i)
  {
    hide Apply, PcInv, StopInv, StopResults, Enabled;
    CallStep(c, s, step, i);
    PassedStep(c, s, step, i);
    ResultsStep(steps, step, i);
  }

  lemma ResultsStep(steps: seq<Step>, step: Step, i: nat)
    ensures StopResults(steps + [step], i)
            == StopResults(steps, i) + if step.StopReturns? && step.service == i then [step.err] else []
  {
    Snoc(steps, step);
  }

  lemma CallStep(c: Config, s: State, step: Step, i: nat)
    requires Enabled(c, s, step) && PcInv(c, s) && StopInv(c, s) && i < |s.svcs|
    ensures CallOf(s, step, Apply(c, s, step), i)
  {
    hide SvcAfter, TasksApply, LaunchApply, LeaveApply, StopApply;
    match step {
      case RunTasks(act) => EnvTasksSvcs(c, s, act);
      case LaunchAll(act) => CallLaunch(c, s, act, i);
      case Leave(act) => LeaveKeeps(c, s, act);
      case StopAll(act) => CallStop(c, s, act, i);
      case _ => CallOutside(c, s, step, i);
    }
  }

  lemma EnvTasksSvcs(c: Config, s: State, act: TaskAct)
    requires TasksEnabled(c, s, act)
    ensures TasksApply(c, s, act).svcs == s.svcs
  {
    TasksFrame(c, s, act);
  }

  lemma CallLaunch(c: Config, s: State, act: LaunchAct, i: nat)
    requires LaunchEnabled(c, s, act) && i < |s.svcs|
    ensures CallOf(s, LaunchAll(act), LaunchApply(c, s, act), i)
  {
    match act {
      case Launch =>
      case AllLaunched =>
      case SeeReady =>
    }
  }

  lemma CallStop(c: Config, s: State, act: StopAct, i: nat)
    requires StopEnabled(c, s, act) && PcInv(c, s) && StopInv(c, s) && i < |s.svcs|
    ensures CallOf(s, StopAll(act), StopApply(c, s, act), i)
  {
    hide Expired, LastErr, ReportOf, StopErr;
    if act.StopService? {
      var j := s.pc.left - 1;
      assert StopSvc(c, s, j, s.svcs[j], s.outcomes[j]);
    }
    hide StopInv, StopSvc, PcInv;
    match act {
      case StopService =>
      case TakeStop =>
      case StopDeadline =>
      case TakeDone =>
      case DoneDeadline =>
      case Return =>
    }
  }

  lemma CallOutside(c: Config, s: State, step: Step, i: nat)
    requires Enabled(c, s, step) && IsOutside(step) && i < |s.svcs|
    ensures CallOf(s, step, Apply(c, s, step), i)
  {
    match step {
      case Tick(_) =>
      case CancelCtx =>
      case RequestShutdown =>
      case CancelTasks =>
      case BecomeReady(_) =>
      case StopReturns(_, _) =>
      case Supervise(_, _) =>
    }
  }

  /** The host goes on past a Readier only when it is ready. */
  lemma PassedStep(c: Config, s: State, step: Step, i: nat)
    requires Enabled(c, s, step) && PcInv(c, s) && i < |s.svcs|
    ensures Passed(c, Apply(c, s, step), i) ==> Passed(c, s, i) || s.svcs[i].ready
  {
    hide SvcAfter, TasksApply, LaunchApply, LeaveApply, StopApply;
    match step {
      case RunTasks(act) => GateTasks(c, s, act);
      case LaunchAll(act) => GateLaunch(c, s, act, i);
      case Leave(act) => GateLeave(c, s, act);
      case StopAll(act) => GateStop(c, s, act);
      case _ => OutsideFrame(c, s, step);
    }
  }

  lemma GateTasks(c: Config, s: State, act: TaskAct)
    requires TasksEnabled(c, s, act)
    ensures var next := TasksApply(c, s, act); next.launched == s.launched && next.gated == s.gated
  {
    match act {
      case TasksDone =>
      case TasksAborted =>
      case TaskBegin =>
      case TaskEnd(err) =>
        if err.NoError? {
        } else if err.canceled && s.tasksCanceled {
        } else {
        }
    }
  }

  lemma GateLaunch(c: Config, s: State, act: LaunchAct, i: nat)
    requires LaunchEnabled(c, s, act) && PcInv(c, s) && i < |s.svcs|
    ensures Passed(c, LaunchApply(c, s, act), i) ==> Passed(c, s, i) || s.svcs[i].ready
  {
    match act {
      case Launch =>
      case AllLaunched =>
      case SeeReady =>
    }
  }

  lemma GateLeave(c: Config, s: State, act: LeaveAct)
    requires LeaveEnabled(c, s, act)
    ensures var next := LeaveApply(c, s, act); next.launched == s.launched && next.gated == s.gated
  {
    match act {
      case TakeExit =>
      case SeeStartTimeout =>
      case SeeCancel =>
      case SeeShutdown =>
      case CloseStopping =>
      case BeginStop =>
    }
  }

  lemma GateStop(c: Config, s: State, act: StopAct)
    requires StopEnabled(c, s, act)
    ensures var next := StopApply(c, s, act); next.launched == s.launched && next.gated == s.gated
  {
    match act {
      case StopService =>
      case TakeStop =>
      case StopDeadline =>
      case TakeDone =>
      case DoneDeadline =>
      case Return =>
    }
  }

  // The stop deadline.

  predicate Stuck(outcome: Outcome) {
    outcome.StuckInStop? || outcome.StuckInStart?
  }

  ghost predicate AnyStuck(outcomes: seq<Outcome>) {
    exists i :: 0 <= i < |outcomes| && Stuck(outcomes[i])
  }

  predicate DeadlineTaken(steps: seq<Step>) {
    StopAll(StopDeadline) in steps || StopAll(DoneDeadline) in steps
  }

  lemma AnyStuckUpdate(outcomes: seq<Outcome>, i: nat, outcome: Outcome)
    requires i < |outcomes| && outcomes[i].Pending?
    ensures AnyStuck(outcomes[i := outcome]) <==> AnyStuck(outcomes) || Stuck(outcome)
  {
    var next := outcomes[i := outcome];
    if j :| 0 <= j < |outcomes| && Stuck(outcomes[j]) {
      assert Stuck(next[j]);
    }
    if Stuck(outcome) {
      assert Stuck(next[i]);
    }
    if j :| 0 <= j < |next| && Stuck(next[j]) {
      assert j == i || Stuck(outcomes[j]);
    }
  }

  lemma StuckStep(c: Config, steps: seq<Step>, s: State, step: Step)
    requires Enabled(c, s, step) && PcInv(c, s) && StopInv(c, s) && (AnyStuck(s.outcomes) <==> DeadlineTaken(steps))
    ensures AnyStuck(Apply(c, s, step).outcomes) <==> DeadlineTaken(steps + [step])
  {
    hide SvcAfter, TasksApply, LaunchApply, LeaveApply, StopApply, AnyStuck;
    match step {
      case RunTasks(act) => OutcomesTasks(c, s, act);
      case LaunchAll(act) => OutcomesLaunch(c, s, act);
      case Leave(act) => OutcomesLeave(c, s, act);
      case StopAll(act) => OutcomesStop(c, s, act);
      case _ => OutsideFrame(c, s, step);
    }
  }

  lemma OutcomesTasks(c: Config, s: State, act: TaskAct)
    requires TasksEnabled(c, s, act)
    ensures TasksApply(c, s, act).outcomes == s.outcomes
  {
    match act {
      case TasksDone =>
      case TasksAborted =>
      case TaskBegin =>
      case TaskEnd(err) =>
        if err.NoError? {
        } else if err.canceled && s.tasksCanceled {
        } else {
        }
    }
  }

  lemma OutcomesLaunch(c: Config, s: State, act: LaunchAct)
    requires LaunchEnabled(c, s, act)
    ensures LaunchApply(c, s, act).outcomes == s.outcomes
  {
    match act {
      case Launch =>
      case AllLaunched =>
      case SeeReady =>
    }
  }

  lemma OutcomesLeave(c: Config, s: State, act: LeaveAct)
    requires LeaveEnabled(c, s, act)
    ensures LeaveApply(c, s, act).outcomes == s.outcomes
  {
    match act {
      case TakeExit =>
      case SeeStartTimeout =>
      case SeeCancel =>
      case SeeShutdown =>
      case CloseStopping =>
      case BeginStop =>
    }
  }

  lemma OutcomesStop(c: Config, s: State, act: StopAct)
    requires StopEnabled(c, s, act) && PcInv(c, s) && StopInv(c, s)
    ensures AnyStuck(StopApply(c, s, act).outcomes) <==> AnyStuck(s.outcomes) || act.StopDeadline? || act.DoneDeadline?
  {
    hide AnyStuck;
    if s.pc.AwaitingStop? || s.pc.AwaitingDone? {
      var i := s.pc.service;
      assert StopSvc(c, s, i, s.svcs[i], s.outcomes[i]);
    }
    match act {
      case StopService =>
      case TakeStop =>
      case StopDeadline => AnyStuckUpdate(s.outcomes, s.pc.service, StuckInStop);
      case TakeDone => AnyStuckUpdate(s.outcomes, s.pc.service, Ended(s.pc.stopErr, s.svcs[s.pc.service].done[0]));
      case DoneDeadline => AnyStuckUpdate(s.outcomes, s.pc.service, StuckInStart(s.pc.stopErr));
      case Return =>
    }
  }

  // The exits channel.

  /** The services whose exits were sent to the host, in order. */
  function ExitsPut(steps: seq<Step>): seq<nat> {
    if steps == [] then []
    else ExitsPut(Front(steps)) + (if Last(steps).Supervise? && Last(steps).act.PutExit? then [Last(steps).service] else [])
  }

  function Senders(exits: seq<ServiceExit>): seq<nat> {
    seq(|exits|, k requires 0 <= k < |exits| => exits[k].service)
  }

  /** First in, first out, and at most one is read. */
  ghost predicate ExitRead(steps: seq<Step>, s: State) {
    ExitsPut(steps) == (if s.trigger.ExitTaken? then [s.trigger.exit.service] else []) + Senders(s.exits)
  }

  lemma ExitStep(c: Config, steps: seq<Step>, s: State, step: Step)
    requires Enabled(c, s, step) && PcInv(c, s) && ExitRead(steps, s)
    ensures ExitRead(steps + [step], Apply(c, s, step))
  {
    Snoc(steps, step);
    hide TasksApply, LaunchApply, LeaveApply, StopApply;
    match step {
      case RunTasks(act) =>
        TasksTrigger(c, s, act);
        TasksFrame(c, s, act);
      case LaunchAll(act) =>
        LaunchTrigger(c, s, act);
        ExitsLaunchKeep(c, s, act);
      case Leave(act) =>
        LeaveTrigger(c, s, act);
        LeaveSelects(c, s, act);
        ExitsLeaveKeep(c, s, act);
      case StopAll(act) =>
        StopTrigger(c, s, act);
        ExitsStopKeep(c, s, act);
      case Supervise(i, act) =>
        OutsideFrame(c, s, step);
        ExitsSupervise(c, s, i, act);
      case _ =>
        OutsideFrame(c, s, step);
        ExitsOutside(c, s, step);
    }
  }

  lemma ExitsLaunchKeep(c: Config, s: State, act: LaunchAct)
    requires LaunchEnabled(c, s, act)
    ensures LaunchApply(c, s, act).exits == s.exits
  {
    match act {
      case Launch =>
      case AllLaunched =>
      case SeeReady =>
    }
  }

  lemma ExitsLeaveKeep(c: Config, s: State, act: LeaveAct)
    requires LeaveEnabled(c, s, act)
    ensures LeaveApply(c, s, act).exits == if act.TakeExit? && s.exits != [] then s.exits[1..] else s.exits
    ensures act.TakeExit? ==> s.exits != [] && [s.exits[0].service] + Senders(s.exits[1..]) == Senders(s.exits)
  {
    match act {
      case TakeExit =>
      case SeeStartTimeout =>
      case SeeCancel =>
      case SeeShutdown =>
      case CloseStopping =>
      case BeginStop =>
    }
  }

  lemma ExitsStopKeep(c: Config, s: State, act: StopAct)
    requires StopEnabled(c, s, act)
    ensures StopApply(c, s, act).exits == s.exits
  {
    match act {
      case StopService =>
      case TakeStop =>
      case StopDeadline =>
      case TakeDone =>
      case DoneDeadline =>
      case Return =>
    }
  }

  lemma ExitsSupervise(c: Config, s: State, i: nat, act: Act)
    requires Enabled(c, s, Step.Supervise(i, act))
    ensures Senders(Apply(c, s, Step.Supervise(i, act)).exits) == Senders(s.exits) + if act.PutExit? then [i] else []
  {
    hide SvcAfter, Unblocked;
  }

  lemma ExitsOutside(c: Config, s: State, step: Step)
    requires Enabled(c, s, step) && IsOutside(step) && !step.Supervise?
    ensures Apply(c, s, step).exits == s.exits
  {
    match step {
      case Tick(_) =>
      case CancelCtx =>
      case RequestShutdown =>
      case CancelTasks =>
      case BecomeReady(_) =>
      case StopReturns(_, _) =>
    }
  }

  // The loop of stopAll.

  /** stopAll has called Stop as often as it has gone down the list. */
  ghost predicate CountRead(steps: seq<Step>, s: State) {
    match s.pc
    case StopLoop(left) => left + StopCalls(steps) == s.launched
    case AwaitingStop(i) => i + StopCalls(steps) == s.launched
    case AwaitingDone(i, _) => i + StopCalls(steps) == s.launched
    case Returned => StopCalls(steps) == s.launched
    case _ => StopCalls(steps) == 0
  }

  lemma CountStep(c: Config, steps: seq<Step>, s: State, step: Step)
    requires Enabled(c, s, step) && CountRead(steps, s)
    ensures CountRead(steps + [step], Apply(c, s, step))
  {
    Snoc(steps, step);
    hide StopCalls;
    CountOne(steps, step);
    match step {
      case RunTasks(act) => CountTasks(c, s, act);
      case LaunchAll(act) => CountLaunch(c, s, act);
      case Leave(act) => CountLeave(c, s, act);
      case StopAll(act) => CountStop(c, s, act);
      case _ => OutsideFrame(c, s, step);
    }
  }

  lemma CountOne(steps: seq<Step>, step: Step)
    ensures StopCalls(steps + [step]) == StopCalls(steps) + if step == StopAll(StopService) then 1 else 0
  {
    Snoc(steps, step);
  }

  lemma CountTasks(c: Config, s: State, act: TaskAct)
    requires TasksEnabled(c, s, act)
    ensures !InStopAll(s) && !InStopAll(TasksApply(c, s, act))
  {
    match act {
      case TasksDone =>
      case TasksAborted =>
      case TaskBegin =>
      case TaskEnd(err) =>
        if err.NoError? {
        } else if err.canceled && s.tasksCanceled {
        } else {
        }
    }
  }

  lemma CountLaunch(c: Config, s: State, act: LaunchAct)
    requires LaunchEnabled(c, s, act)
    ensures !InStopAll(s) && !InStopAll(LaunchApply(c, s, act))
  {
    match act {
      case Launch =>
      case AllLaunched =>
      case SeeReady =>
    }
  }

  lemma CountLeave(c: Config, s: State, act: LeaveAct)
    requires LeaveEnabled(c, s, act)
    ensures !InStopAll(s)
    ensures var next := LeaveApply(c, s, act);
      next.launched == s.launched && if act.BeginStop? then next.pc == StopLoop(s.launched) else !InStopAll(next)
  {
    match act {
      case TakeExit =>
      case SeeStartTimeout =>
      case SeeCancel =>
      case SeeShutdown =>
      case CloseStopping =>
      case BeginStop =>
    }
  }

  lemma CountStop(c: Config, s: State, act: StopAct)
    requires StopEnabled(c, s, act)
    ensures StopApply(c, s, act).launched == s.launched
    ensures match act
      case StopService => s.pc.StopLoop? && 0 < s.pc.left && StopApply(c, s, act).pc == AwaitingStop(s.pc.left - 1)
      case TakeStop => s.pc.AwaitingStop? && StopApply(c, s, act).pc.AwaitingDone? && StopApply(c, s, act).pc.service == s.pc.service
      case StopDeadline => s.pc.AwaitingStop? && StopApply(c, s, act).pc == StopLoop(s.pc.service)
      case TakeDone => s.pc.AwaitingDone? && StopApply(c, s, act).pc == StopLoop(s.pc.service)
      case DoneDeadline => s.pc.AwaitingDone? && StopApply(c, s, act).pc == StopLoop(s.pc.service)
      case Return => s.pc == StopLoop(0) && StopApply(c, s, act).pc.Returned?
  {
    match act {
      case StopService =>
      case TakeStop =>
      case StopDeadline =>
      case TakeDone =>
      case DoneDeadline =>
      case Return =>
    }
  }

  // Every run is read correctly.

  ghost predicate ServicesRead(c: Config, steps: seq<Step>, s: State) {
    forall i: nat :: i < |s.svcs| ==> SupRead(c, steps, s, i) && CallsRead(c, steps, s, i)
  }

  ghost predicate Reads(c: Config, steps: seq<Step>, s: State) {
    && EnvRead(steps, s) && TaskRead(c, steps, s) && SelectRead(c, steps, s) && ExitRead(steps, s)
    && (AnyStuck(s.outcomes) <==> DeadlineTaken(steps))
    && CountRead(steps, s)
    && ServicesRead(c, steps, s)
  }

  lemma ReadsInit(c: Config)
    ensures Reads(c, [], Init(c))
  {
    forall i: nat | i < |Init(c).svcs|
      ensures SupRead(c, [], Init(c), i) && CallsRead(c, [], Init(c), i)
    {
      assert Init(c).svcs[i] == FRESH_SVC;
    }
  }

  lemma ReadsStep(c: Config, steps: seq<Step>, s: State, step: Step)
    requires Inv(c, s) && Reads(c, steps, s) && Enabled(c, s, step)
    ensures Reads(c, steps + [step], Apply(c, s, step))
  {
    hide Enabled, Apply, EnvRead, TaskRead, SelectRead, ExitRead, DeadlineTaken, AnyStuck, CountRead, ServicesRead;
    EnvStep(c, steps, s, step);
    TaskStep(c, steps, s, step);
    SelectStep(c, steps, s, step);
    ExitStep(c, steps, s, step);
    StuckStep(c, steps, s, step);
    CountStep(c, steps, s, step);
    ServicesStep(c, steps, s, step);
  }

  lemma ServicesStep(c: Config, steps: seq<Step>, s: State, step: Step)
    requires Inv(c, s) && EnvRead(steps, s) && ServicesRead(c, steps, s) && Enabled(c, s, step)
    ensures ServicesRead(c, steps + [step], Apply(c, s, step))
  {
    var next := Apply(c, s, step);
    SameServices(c, s, step);
    hide Enabled, Apply, SupRead, CallsRead;
    forall i: nat | i < |next.svcs|
      ensures SupRead(c, steps + [step], next, i) && CallsRead(c, steps + [step], next, i)
    {
      SupStep(c, steps, s, step, i);
      CallsStep(c, steps, s, step, i);
    }
  }

  lemma SameServices(c: Config, s: State, step: Step)
    requires Inv(c, s) && Enabled(c, s, step)
    ensures |Apply(c, s, step).svcs| == |s.svcs|
  {
    hide Enabled, Apply;
    InvStep(c, s, step);
  }

  lemma {:induction false} RunReads(c: Config, steps: seq<Step>, s: State)
    requires RunTo(c, steps, s)
    ensures Inv(c, s) && Reads(c, steps, s)
    decreases |steps|
  {
    if steps == [] {
      ReadsInit(c);
      InitInv(c);
    } else {
      hide *;
      var mid := PathLast(c, Init(c), steps, s);
      RunBack(c, steps, mid);
      RunReads(c, Front(steps), mid);
      InvStep(c, mid, Last(steps));
      ReadsStep(c, Front(steps), mid, Last(steps));
      FrontLast(steps);
    }
  }

  lemma RunBack(c: Config, steps: seq<Step>, mid: State)
    requires steps != [] && Path(c, Init(c), Front(steps), mid)
    ensures RunTo(c, Front(steps), mid) && |Front(steps)| < |steps|
  {
  }

  lemma FrontLast(steps: seq<Step>)
    requires steps != []
    ensures Front(steps) + [Last(steps)] == steps
  {
  }
}
