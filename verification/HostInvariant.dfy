/** The inductive invariant of the host protocol. */
module HostInvariant {
  import opened Common
  import opened Restart
  import opened Supervisor
  import opened Protocol

  predicate InStopAll(s: State) {
    s.pc.StopLoop? || s.pc.AwaitingStop? || s.pc.AwaitingDone? || s.pc.Returned?
  }

  predicate InStartup(s: State) {
    s.pc.InTasks? || s.pc.InTask? || s.pc.Launching? || s.pc.AwaitingReady?
  }

  /** The services below this index have not been touched by stopAll. */
  function Left(s: State): nat {
    match s.pc
    case StopLoop(left) => left
    case AwaitingStop(i) => i
    case AwaitingDone(i, _) => i
    case Returned => 0
    case _ => s.launched
  }

  /** The service stopAll is waiting for. */
  predicate IsCurrent(s: State, i: nat) {
    (s.pc.AwaitingStop? || s.pc.AwaitingDone?) && s.pc.service == i
  }

  // One conjunct per concern.

  ghost predicate PcInv(c: Config, s: State) {
    && |s.svcs| == |s.outcomes| == |c.services|
    && s.launched <= |c.services|
    && Left(s) <= s.launched
    && (s.pc.InTasks? ==> s.pc.task <= c.tasks)
    && (s.pc.InTask? ==> s.pc.task < c.tasks)
    && (s.pc.InTasks? || s.pc.InTask? || s.trigger.TaskFailure? || s.trigger.TasksInterrupted? ==> s.launched == 0)
    && (s.pc.AwaitingReady? ==> 0 < s.launched)
    && (s.pc.AwaitingStop? || s.pc.AwaitingDone? ==> s.pc.service < s.launched)
    && (s.stopping <==> InStopAll(s) || s.pc.InStoppingHooks?)
    && (s.trigger.NoTrigger? <==> InStartup(s) || s.pc.Serving?)
    && (s.gated ==> 0 < s.launched && c.services[s.launched - 1].readier)
    && (s.pc.AwaitingReady? ==> s.gated)
    && (s.pc.Launching? || s.pc.Serving? || s.hostStarted ==> !s.gated)
    && (s.pc.Serving? ==> s.hostStarted)
    && (s.hostStarted ==> s.launched == |c.services| && !InStartup(s))
    && (s.trigger.TaskFailure? || s.trigger.ReadyTimeout? ==> !s.hostStarted)
    && (s.trigger.TaskFailure? ==> s.trigger.taskErr.Error?)
    && (s.trigger.ReadyTimeout? || s.trigger.ExitTaken? || s.trigger.Requested? ==> s.hostStarted || s.gated)
    && (s.trigger.ReadyTimeout? ==> s.launched > 0 && s.trigger.slow == s.launched - 1 && s.gated)
    && s.cause == (if s.trigger.ExitTaken? then s.trigger.exit.service else -1)
  }

  ghost predicate SvcsInv(c: Config, s: State) {
    && |s.svcs| == |c.services|
    && forall i :: 0 <= i < |s.svcs| ==> SvcInv(c.services[i].restart, i < s.launched, s.stopping, s.svcs[i])
  }

  ghost predicate SvcInv(pol: Option<Policy>, launched: bool, stopping: bool, svc: Svc) {
    && LoopInv(pol, svc.sup)
    && (svc.sup.phase.Idle? <==> !launched)
    && SentInv(svc)
    && LateInv(stopping, svc)
  }

  /** `done` has carried a message exactly when the supervisor is past its send. */
  ghost predicate SentInv(svc: Svc) {
    && (match svc.sup.phase
        case SendExit(err) => svc.sent == [err]
        case Finished(_) => |svc.sent| == 1
        case _ => svc.sent == [])
    && |svc.done| <= |svc.sent|
  }

  /** One decision taken before stoppingCh was closed may still lead to one report and one run. */
  ghost predicate LateInv(stopping: bool, svc: Svc) {
    var mayReport := if svc.sup.phase.Decided? then 1 else 0;
    var mayStart := if svc.sup.phase.Decided? || svc.sup.phase.Waiting? then 1 else 0;
    && svc.lateReports + mayReport <= 1
    && svc.lateStarts + mayStart <= 1
    && (svc.lateStarts == 1 ==>
          || svc.sup.phase.Running? || svc.sup.phase.Exited?
          || (svc.sup.phase.SendDone? && !svc.sup.phase.report) || svc.sup.phase == Finished(false))
    && (!stopping ==> svc.lateReports == 0 && svc.lateStarts == 0)
  }

  ghost predicate ExitsInv(c: Config, s: State) {
    && |s.svcs| == |c.services|
    && (forall k :: 0 <= k < |s.exits| ==> ExitSent(s, s.exits[k]))
    && (forall j, k :: 0 <= j < k < |s.exits| ==> s.exits[j].service != s.exits[k].service)
    && (s.trigger.ExitTaken? ==> ExitSent(s, s.trigger.exit))
    && (s.trigger.ExitTaken? ==> forall k :: 0 <= k < |s.exits| ==> s.exits[k].service != s.trigger.exit.service)
  }

  /** The exit's sender has finished, and put the same error on `done` first. */
  ghost predicate ExitSent(s: State, exit: ServiceExit) {
    && exit.service < s.launched && exit.service < |s.svcs|
    && s.svcs[exit.service].sup.phase == Finished(true)
    && s.svcs[exit.service].sent == [exit.err]
  }

  ghost predicate StopInv(c: Config, s: State) {
    && |s.svcs| == |s.outcomes|
    && forall i :: 0 <= i < |s.svcs| ==> StopSvc(c, s, i, s.svcs[i], s.outcomes[i])
  }

  ghost predicate StopSvc(c: Config, s: State, i: nat, svc: Svc, outcome: Outcome) {
    && (outcome.Ended? ==> svc.done == [] && svc.sent == [outcome.startErr])
    && (!outcome.Ended? ==> svc.done == svc.sent)
    && (if IsCurrent(s, i) then
          && svc.canceled && svc.stopCalls == 1 && outcome.Pending?
          && (s.pc.AwaitingStop? ==> svc.stop.InStop? || svc.stop.StopSent?)
          && (s.pc.AwaitingDone? ==> svc.stop == StopTaken(s.pc.stopErr))
        else if InStopAll(s) && Left(s) <= i < s.launched then
          svc.canceled && svc.stopCalls == 1 && Settled(c, s, svc, outcome)
        else
          !svc.canceled && svc.stopCalls == 0 && svc.stop.NotCalled? && outcome.Pending?)
  }

  /** stopAll has given an outcome to this service. */
  ghost predicate Settled(c: Config, s: State, svc: Svc, outcome: Outcome) {
    match outcome
    case Pending => false
    case Ended(stopErr, _) => svc.stop == StopTaken(stopErr)
    case StuckInStop => Expired(c, s) && (svc.stop.InStop? || svc.stop.StopSent?)
    case StuckInStart(stopErr) => Expired(c, s) && svc.stop == StopTaken(stopErr)
  }

  // The joined error and the event trace as functions of the histories.

  function TriggerErrs(trigger: Trigger): seq<Entry> {
    match trigger
    case TaskFailure(k, err) => [TaskFailed(k, err)]
    case ReadyTimeout(i) => [NotReadyInTime(i)]
    case ExitTaken(exit) => [ServiceFailure(exit.service, exit.err)]
    case _ => []
  }

  /** What stopAll reports for one settled service. */
  function OutcomeErrs(i: nat, cause: int, outcome: Outcome): seq<Entry> {
    OutcomeStopErrs(i, outcome) + LastErr(i, cause, outcome)
  }

  function OutcomeStopErrs(i: nat, outcome: Outcome): seq<Entry> {
    match outcome
    case Ended(stopErr, _) => StopErr(i, stopErr)
    case StuckInStart(stopErr) => StopErr(i, stopErr)
    case _ => []
  }

  /** What stopAll has reported once it is done with the services from `from` upwards, newest last. */
  function StopAllErrs(outcomes: seq<Outcome>, cause: int, launched: nat, from: nat): seq<Entry>
    requires from <= launched <= |outcomes|
    decreases launched - from
  {
    if from == launched then []
    else StopAllErrs(outcomes, cause, launched, from + 1) + OutcomeErrs(from, cause, outcomes[from])
  }

  function StopAllEvents(outcomes: seq<Outcome>, cause: int, launched: nat, from: nat): seq<Event>
    requires from <= launched <= |outcomes|
    decreases launched - from
  {
    if from == launched then []
    else StopAllEvents(outcomes, cause, launched, from + 1) + [ServiceStopped(from, ReportOf(from, cause, outcomes[from]))]
  }

  /** Started for each launched service, each Readier followed by Ready before the next one starts. */
  function LaunchEvents(c: Config, launched: nat, gated: bool): seq<Event>
    requires launched <= |c.services|
  {
    if launched == 0 then []
    else LaunchEvents(c, launched - 1, false) + [ServiceStarted(launched - 1)]
         + if c.services[launched - 1].readier && !gated then [ServiceReady(launched - 1)] else []
  }

  function TriggerEvents(trigger: Trigger): seq<Event> {
    match trigger
    case ExitTaken(exit) => [ServiceFailed(exit.service, exit.err)]
    case _ => []
  }

  function From(s: State): nat {
    if s.pc.AwaitingStop? || s.pc.AwaitingDone? then s.pc.service + 1 else Left(s)
  }

  ghost predicate ErrsInv(c: Config, s: State) {
    && From(s) <= s.launched <= |s.outcomes|
    && s.errs == TriggerErrs(s.trigger) + StopAllErrs(s.outcomes, s.cause, s.launched, From(s))
                 + (if s.pc.AwaitingDone? then StopErr(s.pc.service, s.pc.stopErr) else [])
  }

  ghost predicate EventsInv(c: Config, s: State) {
    && From(s) <= s.launched <= |s.outcomes|
    && s.launched <= |c.services|
    && s.events == EventsSoFar(c, s) + if s.pc.Returned? then [HostStopped(s.errs)] else []
  }

  ghost function EventsSoFar(c: Config, s: State): seq<Event>
    requires From(s) <= s.launched <= |s.outcomes| && s.launched <= |c.services|
  {
    FrontEvents(c, s.launched, s.gated, s.hostStarted, s.trigger) + StopAllEvents(s.outcomes, s.cause, s.launched, From(s))
  }

  /** The events before stopAll. */
  function FrontEvents(c: Config, launched: nat, gated: bool, hostStarted: bool, trigger: Trigger): seq<Event>
    requires launched <= |c.services|
  {
    LaunchEvents(c, launched, gated) + (if hostStarted then [HostStarted] else []) + TriggerEvents(trigger)
  }

  ghost predicate Inv(c: Config, s: State) {
    PcInv(c, s) && SvcsInv(c, s) && ExitsInv(c, s) && StopInv(c, s) && ErrsInv(c, s) && EventsInv(c, s)
  }

  // Preservation.

  lemma InitInv(c: Config)
    ensures Inv(c, Init(c))
  {
    forall i | 0 <= i < |c.services|
      ensures LoopInv(c.services[i].restart, FRESH_SVC.sup)
    {
      LoopInvInit(c.services[i].restart);
    }
  }

  /** Not a step of the main goroutine. */
  predicate IsOutside(step: Step) {
    !step.RunTasks? && !step.LaunchAll? && !step.Leave? && !step.StopAll?
  }

  /** The fields only the main goroutine writes. */
  predicate SameMain(s: State, next: State) {
    && next.pc == s.pc && next.stopping == s.stopping && next.launched == s.launched && next.cause == s.cause
    && next.errs == s.errs && next.events == s.events && next.trigger == s.trigger && next.gated == s.gated
    && next.hostStarted == s.hostStarted && next.outcomes == s.outcomes && |next.svcs| == |s.svcs|
    && next.stopBegan == s.stopBegan && s.now <= next.now
  }

  lemma OutsideFrame(c: Config, s: State, step: Step)
    requires Enabled(c, s, step) && IsOutside(step)
    ensures SameMain(s, Apply(c, s, step))
  {
    match step {
      case Tick(_) =>
      case CancelCtx =>
      case RequestShutdown =>
      case CancelTasks =>
      case BecomeReady(_) =>
      case StopReturns(_, _) =>
      case Supervise(_, _) =>
    }
  }

  lemma PcOutside(c: Config, s: State, step: Step)
    requires PcInv(c, s) && Enabled(c, s, step) && IsOutside(step)
    ensures PcInv(c, Apply(c, s, step))
  {
    OutsideFrame(c, s, step);
    PcFrame(c, s, Apply(c, s, step));
  }

  lemma PcFrame(c: Config, s: State, next: State)
    requires PcInv(c, s) && SameMain(s, next)
    ensures PcInv(c, next)
  {
  }

  lemma PcTasks(c: Config, s: State, act: TaskAct)
    requires PcInv(c, s) && TasksEnabled(c, s, act)
    ensures PcInv(c, TasksApply(c, s, act))
  {
    match act {
      case TasksDone =>
      case TasksAborted =>
      case TaskBegin =>
      case TaskEnd(err) =>
    }
  }

  lemma PcLaunch(c: Config, s: State, act: LaunchAct)
    requires PcInv(c, s) && LaunchEnabled(c, s, act)
    ensures PcInv(c, LaunchApply(c, s, act))
  {
  }

  lemma PcLeave(c: Config, s: State, act: LeaveAct)
    requires PcInv(c, s) && LeaveEnabled(c, s, act)
    ensures PcInv(c, LeaveApply(c, s, act))
  {
  }

  lemma PcStop(c: Config, s: State, act: StopAct)
    requires PcInv(c, s) && StopEnabled(c, s, act)
    ensures PcInv(c, StopApply(c, s, act))
  {
  }

  lemma SvcStep(pol: Option<Policy>, s: State, svc: Svc, act: Act)
    requires SvcInv(pol, true, s.stopping, svc) && Can(svc.sup, act)
    requires act.Proceed? ==> !s.stopping
    ensures SvcInv(pol, true, s.stopping, SvcAfter(pol, s, svc, act))
  {
    LoopInvStep(pol, svc.sup, act);
  }

  /** A step that changes one service keeps the invariant when it keeps that service's. */
  lemma SvcsUpdate(c: Config, s: State, next: State, i: nat, svc: Svc)
    requires SvcsInv(c, s) && i < |s.svcs|
    requires next.svcs == s.svcs[i := svc] && next.stopping == s.stopping
    requires next.launched == s.launched || (i == s.launched && next.launched == s.launched + 1)
    requires SvcInv(c.services[i].restart, i < next.launched, s.stopping, svc)
    ensures SvcsInv(c, next)
  {
    forall j | 0 <= j < |s.svcs|
      ensures SvcInv(c.services[j].restart, j < next.launched, next.stopping, next.svcs[j])
    {
      if j != i {
        assert SvcInv(c.services[j].restart, j < s.launched, s.stopping, s.svcs[j]);
      }
    }
  }

  lemma SvcsSuperviseStep(c: Config, s: State, i: nat, act: Act)
    requires SvcsInv(c, s) && Enabled(c, s, Step.Supervise(i, act))
    ensures SvcsInv(c, Apply(c, s, Step.Supervise(i, act)))
  {
    SvcStep(c.services[i].restart, s, s.svcs[i], act);
    SvcsUpdate(c, s, Apply(c, s, Step.Supervise(i, act)), i, SvcAfter(c.services[i].restart, s, s.svcs[i], act));
  }

  /** Startup tasks touch no service. */
  lemma TasksFrame(c: Config, s: State, act: TaskAct)
    requires TasksEnabled(c, s, act)
    ensures var next := TasksApply(c, s, act);
      && next.svcs == s.svcs && next.launched == s.launched && next.stopping == s.stopping && next.exits == s.exits
      && (next.trigger == s.trigger || !next.trigger.ExitTaken?)
  {
    match act {
      case TasksDone =>
      case TasksAborted =>
      case TaskBegin =>
      case TaskEnd(err) => TaskEndFrame(c, s, err);
    }
  }

  lemma TaskEndFrame(c: Config, s: State, err: Err)
    requires TasksEnabled(c, s, TaskEnd(err))
    ensures var next := TasksApply(c, s, TaskEnd(err));
      && next.svcs == s.svcs && next.launched == s.launched && next.stopping == s.stopping && next.exits == s.exits
      && (next.trigger == s.trigger || !next.trigger.ExitTaken?)
  {
    if err.NoError? {
    } else if err.canceled && s.tasksCanceled {
    } else {
    }
  }

  lemma SvcsFrame(c: Config, s: State, next: State)
    requires SvcsInv(c, s) && next.svcs == s.svcs && next.launched == s.launched
    requires next.stopping == s.stopping || next.stopping
    ensures SvcsInv(c, next)
  {
    forall j | 0 <= j < |s.svcs|
      ensures SvcInv(c.services[j].restart, j < s.launched, next.stopping, s.svcs[j])
    {
      assert SvcInv(c.services[j].restart, j < s.launched, s.stopping, s.svcs[j]);
    }
  }

  lemma SvcsTasks(c: Config, s: State, act: TaskAct)
    requires SvcsInv(c, s) && TasksEnabled(c, s, act)
    ensures SvcsInv(c, TasksApply(c, s, act))
  {
    TasksFrame(c, s, act);
    SvcsFrame(c, s, TasksApply(c, s, act));
  }

  lemma SvcsLaunch(c: Config, s: State, act: LaunchAct)
    requires SvcsInv(c, s) && PcInv(c, s) && LaunchEnabled(c, s, act)
    ensures SvcsInv(c, LaunchApply(c, s, act))
  {
    if act.Launch? {
      var next := LaunchApply(c, s, act);
      LoopInvInit(c.services[s.launched].restart);
      SvcsUpdate(c, s, next, s.launched, next.svcs[s.launched]);
    }
  }

  lemma SvcsLeave(c: Config, s: State, act: LeaveAct)
    requires SvcsInv(c, s) && LeaveEnabled(c, s, act)
    ensures SvcsInv(c, LeaveApply(c, s, act))
  {
    SvcsFrame(c, s, LeaveApply(c, s, act));
  }

  lemma SvcsStop(c: Config, s: State, act: StopAct)
    requires SvcsInv(c, s) && StopEnabled(c, s, act)
    ensures SvcsInv(c, StopApply(c, s, act))
  {
    var next := StopApply(c, s, act);
    if act.StopService? {
      SvcsUpdate(c, s, next, s.pc.left - 1, next.svcs[s.pc.left - 1]);
    } else if act.TakeStop? || act.TakeDone? {
      SvcsUpdate(c, s, next, s.pc.service, next.svcs[s.pc.service]);
    }
  }

  lemma SvcsOtherStep(c: Config, s: State, step: Step)
    requires SvcsInv(c, s) && Enabled(c, s, step) && !step.Supervise? && IsOutside(step)
    ensures SvcsInv(c, Apply(c, s, step))
  {
    var next := Apply(c, s, step);
    match step {
      case BecomeReady(i) => SvcsUpdate(c, s, next, i, next.svcs[i]);
      case StopReturns(i, _) => SvcsUpdate(c, s, next, i, next.svcs[i]);
      case _ =>
    }
  }

  // Exits: the sender of each exit stays as it is.

  ghost predicate SendersKept(s: State, next: State) {
    && |next.svcs| == |s.svcs| && s.launched <= next.launched
    && forall i :: 0 <= i < |s.svcs| && s.svcs[i].sup.phase.Finished? ==>
         next.svcs[i].sup == s.svcs[i].sup && next.svcs[i].sent == s.svcs[i].sent
  }

  lemma ExitsFrame(c: Config, s: State, next: State)
    requires ExitsInv(c, s) && SendersKept(s, next) && next.exits == s.exits
    requires next.trigger == s.trigger || !next.trigger.ExitTaken?
    ensures ExitsInv(c, next)
  {
    assert forall exit: ServiceExit :: ExitSent(s, exit) ==> ExitSent(next, exit);
  }

  lemma ExitsSuperviseStep(c: Config, s: State, i: nat, act: Act)
    requires ExitsInv(c, s) && SvcsInv(c, s) && Enabled(c, s, Step.Supervise(i, act))
    ensures ExitsInv(c, Apply(c, s, Step.Supervise(i, act)))
  {
    var next := Apply(c, s, Step.Supervise(i, act));
    var svc := s.svcs[i];
    assert SvcInv(c.services[i].restart, i < s.launched, s.stopping, svc);
    assert !svc.sup.phase.Finished?;
    ExitsFrame(c, s, next.(exits := s.exits));
    if act.PutExit? {
      var exit := ServiceExit(i, svc.sup.phase.err);
      assert next.exits == s.exits + [exit] && ExitSent(next, exit);
      ExitsAppend(c, s, next, exit);
    } else {
      assert next.exits == s.exits;
    }
  }

  lemma ExitsAppend(c: Config, s: State, next: State, exit: ServiceExit)
    requires ExitsInv(c, s) && ExitsInv(c, next.(exits := s.exits)) && next.exits == s.exits + [exit] && ExitSent(next, exit)
    requires next.trigger == s.trigger
    requires exit.service < |s.svcs| && !s.svcs[exit.service].sup.phase.Finished?
    ensures ExitsInv(c, next)
  {
    var mid := next.(exits := s.exits);
    assert forall e: ServiceExit :: ExitSent(mid, e) ==> ExitSent(next, e);
    assert forall e: ServiceExit :: ExitSent(s, e) ==> e.service != exit.service;
  }

  lemma ExitsTasks(c: Config, s: State, act: TaskAct)
    requires ExitsInv(c, s) && TasksEnabled(c, s, act)
    ensures ExitsInv(c, TasksApply(c, s, act))
  {
    TasksFrame(c, s, act);
    ExitsFrame(c, s, TasksApply(c, s, act));
  }

  lemma ExitsLaunch(c: Config, s: State, act: LaunchAct)
    requires ExitsInv(c, s) && SvcsInv(c, s) && LaunchEnabled(c, s, act)
    ensures ExitsInv(c, LaunchApply(c, s, act))
  {
    if act.Launch? {
      assert SvcInv(c.services[s.launched].restart, false, s.stopping, s.svcs[s.launched]);
    }
    ExitsFrame(c, s, LaunchApply(c, s, act));
  }

  lemma ExitsLeave(c: Config, s: State, act: LeaveAct)
    requires ExitsInv(c, s) && PcInv(c, s) && LeaveEnabled(c, s, act)
    ensures ExitsInv(c, LeaveApply(c, s, act))
  {
    var next := LeaveApply(c, s, act);
    if act.TakeExit? {
      assert forall exit: ServiceExit :: ExitSent(s, exit) ==> ExitSent(next, exit);
      assert next.trigger == ExitTaken(s.exits[0]) && next.exits == s.exits[1..];
    } else {
      ExitsFrame(c, s, next);
    }
  }

  lemma ExitsStop(c: Config, s: State, act: StopAct)
    requires ExitsInv(c, s) && StopEnabled(c, s, act)
    ensures ExitsInv(c, StopApply(c, s, act))
  {
    ExitsFrame(c, s, StopApply(c, s, act));
  }

  lemma ExitsOtherStep(c: Config, s: State, step: Step)
    requires ExitsInv(c, s) && Enabled(c, s, step) && !step.Supervise? && IsOutside(step)
    ensures ExitsInv(c, Apply(c, s, step))
  {
    ExitsFrame(c, s, Apply(c, s, step));
  }

  // stopAll: each service is untouched, current or settled.

  lemma StopSuperviseStep(c: Config, s: State, i: nat, act: Act)
    requires StopInv(c, s) && SvcsInv(c, s) && Enabled(c, s, Step.Supervise(i, act))
    ensures StopInv(c, Apply(c, s, Step.Supervise(i, act)))
  {
    hide SvcAfter, SvcInv, StopSvc, Can, Unblocked;
    var next := Apply(c, s, Step.Supervise(i, act));
    forall j | 0 <= j < |s.svcs|
      ensures StopSvc(c, next, j, next.svcs[j], next.outcomes[j])
    {
      assert StopSvc(c, s, j, s.svcs[j], s.outcomes[j]);
      if j == i {
        assert SvcInv(c.services[i].restart, i < s.launched, s.stopping, s.svcs[i]);
        StopSvcSupervise(c, s, i, act);
      } else {
        StopSvcElsewhere(c, s, i, act, j);
      }
    }
  }

  lemma StopSvcElsewhere(c: Config, s: State, i: nat, act: Act, j: nat)
    requires j < |s.svcs| && j < |s.outcomes| && j != i && Enabled(c, s, Step.Supervise(i, act))
    requires StopSvc(c, s, j, s.svcs[j], s.outcomes[j])
    ensures var next := Apply(c, s, Step.Supervise(i, act)); StopSvc(c, next, j, next.svcs[j], next.outcomes[j])
  {
    hide SvcAfter, Can, Unblocked;
  }

  lemma StopSvcSupervise(c: Config, s: State, i: nat, act: Act)
    requires i < |s.outcomes| && Enabled(c, s, Step.Supervise(i, act))
    requires SvcInv(c.services[i].restart, i < s.launched, s.stopping, s.svcs[i])
    requires StopSvc(c, s, i, s.svcs[i], s.outcomes[i])
    ensures var next := Apply(c, s, Step.Supervise(i, act)); StopSvc(c, next, i, next.svcs[i], s.outcomes[i])
  {
  }

  /** Outside stopAll only a launch touches the fields that StopSvc reads. */
  lemma StopTasks(c: Config, s: State, act: TaskAct)
    requires StopInv(c, s) && PcInv(c, s) && TasksEnabled(c, s, act)
    ensures StopInv(c, TasksApply(c, s, act))
  {
    StopFrame(c, s, TasksApply(c, s, act));
  }

  lemma StopLaunch(c: Config, s: State, act: LaunchAct)
    requires StopInv(c, s) && PcInv(c, s) && LaunchEnabled(c, s, act)
    ensures StopInv(c, LaunchApply(c, s, act))
  {
    StopFrame(c, s, LaunchApply(c, s, act));
  }

  lemma StopLeave(c: Config, s: State, act: LeaveAct)
    requires StopInv(c, s) && PcInv(c, s) && LeaveEnabled(c, s, act)
    ensures StopInv(c, LeaveApply(c, s, act))
  {
    StopFrame(c, s, LeaveApply(c, s, act));
  }

  lemma StopFrame(c: Config, s: State, next: State)
    requires StopInv(c, s) && next.outcomes == s.outcomes && |next.svcs| == |s.svcs|
    requires !InStopAll(s) && (InStopAll(next) ==> next.pc == StopLoop(next.launched))
    requires forall j :: 0 <= j < |s.svcs| ==>
      next.svcs[j].(sup := s.svcs[j].sup, mark := s.svcs[j].mark) == s.svcs[j]
    ensures StopInv(c, next)
  {
    forall j | 0 <= j < |s.svcs|
      ensures StopSvc(c, next, j, next.svcs[j], next.outcomes[j])
    {
      assert StopSvc(c, s, j, s.svcs[j], s.outcomes[j]);
    }
  }

  lemma StopSvcWait(c: Config, s: State, act: StopAct, j: nat)
    requires PcInv(c, s) && StopEnabled(c, s, act) && (act.StopService? || act.TakeStop? || act.Return?) && j < |s.svcs|
    requires StopSvc(c, s, j, s.svcs[j], s.outcomes[j])
    ensures var next := StopApply(c, s, act); StopSvc(c, next, j, next.svcs[j], next.outcomes[j])
  {
  }

  lemma StopSvcEnd(c: Config, s: State, act: StopAct, j: nat)
    requires PcInv(c, s) && StopEnabled(c, s, act) && (act.StopDeadline? || act.DoneDeadline?) && j < |s.svcs|
    requires StopSvc(c, s, j, s.svcs[j], s.outcomes[j])
    ensures var next := StopApply(c, s, act); StopSvc(c, next, j, next.svcs[j], next.outcomes[j])
  {
  }

  lemma StopSvcDone(c: Config, s: State, j: nat)
    requires PcInv(c, s) && StopEnabled(c, s, TakeDone) && j < |s.svcs|
    requires StopSvc(c, s, j, s.svcs[j], s.outcomes[j]) && |s.svcs[j].sent| <= 1
    ensures var next := StopApply(c, s, TakeDone); StopSvc(c, next, j, next.svcs[j], next.outcomes[j])
  {
  }

  lemma StopStop(c: Config, s: State, act: StopAct)
    requires StopInv(c, s) && SvcsInv(c, s) && PcInv(c, s) && StopEnabled(c, s, act)
    ensures StopInv(c, StopApply(c, s, act))
  {
    var next := StopApply(c, s, act);
    PcStop(c, s, act);
    forall j | 0 <= j < |s.svcs|
      ensures StopSvc(c, next, j, next.svcs[j], next.outcomes[j])
    {
      assert SvcInv(c.services[j].restart, j < s.launched, s.stopping, s.svcs[j]);
      match act {
        case TakeDone => StopSvcDone(c, s, j);
        case StopDeadline => StopSvcEnd(c, s, act, j);
        case DoneDeadline => StopSvcEnd(c, s, act, j);
        case _ => StopSvcWait(c, s, act, j);
      }
    }
  }

  lemma StopOtherStep(c: Config, s: State, step: Step)
    requires StopInv(c, s) && Enabled(c, s, step) && !step.Supervise? && IsOutside(step)
    ensures StopInv(c, Apply(c, s, step))
  {
    var next := Apply(c, s, step);
    OutsideFrame(c, s, step);
    forall j | 0 <= j < |s.svcs|
      ensures StopSvc(c, next, j, next.svcs[j], next.outcomes[j])
    {
      assert StopSvc(c, s, j, s.svcs[j], s.outcomes[j]);
      SameExceptReadyOrStop(c, s, step, j);
    }
  }

  lemma SameExceptReadyOrStop(c: Config, s: State, step: Step, j: nat)
    requires Enabled(c, s, step) && !step.Supervise? && IsOutside(step) && j < |s.svcs|
    ensures var svc, next := s.svcs[j], Apply(c, s, step).svcs[j];
      && next.done == svc.done && next.sent == svc.sent && next.canceled == svc.canceled && next.stopCalls == svc.stopCalls
      && (next.stop == svc.stop || (svc.stop.InStop? && next.stop.StopSent?))
  {
    match step {
      case Tick(_) =>
      case CancelCtx =>
      case RequestShutdown =>
      case CancelTasks =>
      case BecomeReady(_) =>
      case StopReturns(_, _) =>
    }
  }

  // The joined error and the event trace.

  lemma {:induction false} StopAllFrame(outcomes: seq<Outcome>, i: nat, outcome: Outcome, cause: int, launched: nat, from: nat)
    requires i < from <= launched <= |outcomes|
    ensures StopAllErrs(outcomes[i := outcome], cause, launched, from) == StopAllErrs(outcomes, cause, launched, from)
    ensures StopAllEvents(outcomes[i := outcome], cause, launched, from) == StopAllEvents(outcomes, cause, launched, from)
    decreases launched - from
  {
    if from < launched {
      StopAllFrame(outcomes, i, outcome, cause, launched, from + 1);
    }
  }

  lemma TraceOutside(c: Config, s: State, step: Step)
    requires ErrsInv(c, s) && EventsInv(c, s) && Enabled(c, s, step) && IsOutside(step)
    ensures ErrsInv(c, Apply(c, s, step)) && EventsInv(c, Apply(c, s, step))
  {
    OutsideFrame(c, s, step);
    TraceFrame(c, s, Apply(c, s, step));
  }

  lemma TraceFrame(c: Config, s: State, next: State)
    requires ErrsInv(c, s) && EventsInv(c, s) && SameMain(s, next)
    ensures ErrsInv(c, next) && EventsInv(c, next)
  {
  }

  lemma TraceTasks(c: Config, s: State, act: TaskAct)
    requires PcInv(c, s) && ErrsInv(c, s) && EventsInv(c, s) && TasksEnabled(c, s, act)
    ensures ErrsInv(c, TasksApply(c, s, act)) && EventsInv(c, TasksApply(c, s, act))
  {
    match act {
      case TasksDone =>
      case TasksAborted =>
      case TaskBegin =>
      case TaskEnd(err) =>
    }
  }

  lemma TraceLaunch(c: Config, s: State, act: LaunchAct)
    requires PcInv(c, s) && ErrsInv(c, s) && EventsInv(c, s) && LaunchEnabled(c, s, act)
    ensures ErrsInv(c, LaunchApply(c, s, act)) && EventsInv(c, LaunchApply(c, s, act))
  {
    ErrsLaunch(c, s, act);
    EventsLaunch(c, s, act);
  }

  lemma ErrsLaunch(c: Config, s: State, act: LaunchAct)
    requires PcInv(c, s) && ErrsInv(c, s) && LaunchEnabled(c, s, act)
    ensures ErrsInv(c, LaunchApply(c, s, act))
  {
    match act {
      case Launch =>
      case AllLaunched =>
      case SeeReady =>
    }
  }

  lemma EventsLaunch(c: Config, s: State, act: LaunchAct)
    requires PcInv(c, s) && EventsInv(c, s) && LaunchEnabled(c, s, act)
    ensures EventsInv(c, LaunchApply(c, s, act))
  {
    match act {
      case Launch =>
      case AllLaunched =>
      case SeeReady =>
    }
  }

  lemma ErrsLeave(c: Config, s: State, act: LeaveAct)
    requires PcInv(c, s) && ErrsInv(c, s) && LeaveEnabled(c, s, act)
    ensures ErrsInv(c, LeaveApply(c, s, act))
  {
    match act {
      case TakeExit =>
      case SeeStartTimeout =>
      case SeeCancel =>
      case SeeShutdown =>
      case CloseStopping =>
      case BeginStop =>
    }
  }

  lemma EventsLeave(c: Config, s: State, act: LeaveAct)
    requires PcInv(c, s) && EventsInv(c, s) && LeaveEnabled(c, s, act)
    ensures EventsInv(c, LeaveApply(c, s, act))
  {
    match act {
      case TakeExit =>
      case SeeStartTimeout =>
      case SeeCancel =>
      case SeeShutdown =>
      case CloseStopping =>
      case BeginStop =>
    }
  }

  /** The end of a turn, whichever select case brings it about. */
  predicate TurnEnds(s: State, next: State, i: nat, outcome: Outcome) {
    && (s.pc.AwaitingStop? || s.pc.AwaitingDone?) && s.pc.service == i && i < |s.outcomes|
    && next.pc == StopLoop(i) && next.outcomes == s.outcomes[i := outcome]
    && next.cause == s.cause && next.launched == s.launched && next.trigger == s.trigger
    && next.gated == s.gated && next.hostStarted == s.hostStarted
  }

  predicate TurnErrs(s: State, next: State, i: nat, outcome: Outcome) {
    && OutcomeStopErrs(i, outcome) == (if s.pc.AwaitingDone? then StopErr(i, s.pc.stopErr) else [])
    && next.errs == s.errs + LastErr(i, s.cause, outcome)
  }

  predicate TurnEvents(s: State, next: State, i: nat, report: StopReport) {
    next.events == s.events + [ServiceStopped(i, report)]
  }

  lemma EndOfTurn(c: Config, s: State, act: StopAct) returns (outcome: Outcome)
    requires StopEnabled(c, s, act) && (act.StopDeadline? || act.TakeDone? || act.DoneDeadline?)
    ensures TurnEnds(s, StopApply(c, s, act), s.pc.service, outcome)
    ensures TurnErrs(s, StopApply(c, s, act), s.pc.service, outcome)
    ensures TurnEvents(s, StopApply(c, s, act), s.pc.service, ReportOf(s.pc.service, s.cause, outcome))
  {
    match act {
      case StopDeadline => outcome := StuckInStop;
      case TakeDone => outcome := Ended(s.pc.stopErr, s.svcs[s.pc.service].done[0]);
      case DoneDeadline => outcome := StuckInStart(s.pc.stopErr);
    }
  }

  lemma ErrsGrow(front: seq<Entry>, before: seq<Entry>, stop: seq<Entry>, last: seq<Entry>, errs: seq<Entry>, next: seq<Entry>)
    requires errs == front + before + stop && next == errs + last
    ensures next == front + (before + (stop + last)) + []
  {
  }

  lemma StopAllTurn(outcomes: seq<Outcome>, i: nat, outcome: Outcome, cause: int, launched: nat)
    requires i < launched <= |outcomes|
    ensures StopAllErrs(outcomes[i := outcome], cause, launched, i)
            == StopAllErrs(outcomes, cause, launched, i + 1) + (OutcomeStopErrs(i, outcome) + LastErr(i, cause, outcome))
    ensures StopAllEvents(outcomes[i := outcome], cause, launched, i)
            == StopAllEvents(outcomes, cause, launched, i + 1) + [ServiceStopped(i, ReportOf(i, cause, outcome))]
  {
    StopAllFrame(outcomes, i, outcome, cause, launched, i + 1);
  }

  lemma ErrsAtEnd(c: Config, s: State, next: State, i: nat, outcome: Outcome)
    requires ErrsInv(c, s) && i < s.launched && TurnEnds(s, next, i, outcome) && TurnErrs(s, next, i, outcome)
    ensures ErrsInv(c, next)
  {
    hide StopAllErrs, StopAllEvents, OutcomeStopErrs, LastErr, TriggerErrs;
    StopAllTurn(s.outcomes, i, outcome, s.cause, s.launched);
    ErrsGrow(TriggerErrs(s.trigger), StopAllErrs(s.outcomes, s.cause, s.launched, i + 1),
             OutcomeStopErrs(i, outcome), LastErr(i, s.cause, outcome), s.errs, next.errs);
  }

  lemma EventsAtEnd(c: Config, s: State, next: State, i: nat, outcome: Outcome)
    requires EventsInv(c, s) && i < s.launched && TurnEnds(s, next, i, outcome)
    requires TurnEvents(s, next, i, ReportOf(i, s.cause, outcome))
    ensures EventsInv(c, next)
  {
    hide StopAllErrs, StopAllEvents, FrontEvents, ReportOf;
    StopAllTurn(s.outcomes, i, outcome, s.cause, s.launched);
    EventsGrow(FrontEvents(c, s.launched, s.gated, s.hostStarted, s.trigger),
               StopAllEvents(s.outcomes, s.cause, s.launched, i + 1),
               [ServiceStopped(i, ReportOf(i, s.cause, outcome))], s.events, next.events);
  }

  lemma EventsGrow(front: seq<Event>, before: seq<Event>, stopped: seq<Event>, events: seq<Event>, next: seq<Event>)
    requires events == front + before + [] && next == events + stopped
    ensures next == front + (before + stopped) + []
  {
  }

  lemma ErrsWait(c: Config, s: State, act: StopAct)
    requires PcInv(c, s) && ErrsInv(c, s) && StopEnabled(c, s, act)
    requires act.StopService? || act.TakeStop? || act.Return?
    ensures ErrsInv(c, StopApply(c, s, act))
  {
    hide StopAllErrs, TriggerErrs, StopErr;
    match act {
      case StopService =>
      case TakeStop =>
      case Return =>
    }
  }

  lemma EventsWait(c: Config, s: State, act: StopAct)
    requires PcInv(c, s) && EventsInv(c, s) && StopEnabled(c, s, act)
    requires act.StopService? || act.TakeStop? || act.Return?
    ensures EventsInv(c, StopApply(c, s, act))
  {
    match act {
      case StopService =>
      case TakeStop =>
      case Return =>
    }
  }

  lemma TraceStop(c: Config, s: State, act: StopAct)
    requires PcInv(c, s) && ErrsInv(c, s) && EventsInv(c, s) && StopEnabled(c, s, act)
    ensures ErrsInv(c, StopApply(c, s, act)) && EventsInv(c, StopApply(c, s, act))
  {
    if act.StopService? || act.TakeStop? || act.Return? {
      ErrsWait(c, s, act);
      EventsWait(c, s, act);
    } else {
      var outcome := EndOfTurn(c, s, act);
      ErrsAtEnd(c, s, StopApply(c, s, act), s.pc.service, outcome);
      EventsAtEnd(c, s, StopApply(c, s, act), s.pc.service, outcome);
    }
  }

  // Every step keeps the invariant, so every reachable state has it.

  lemma InvTasks(c: Config, s: State, act: TaskAct)
    requires Inv(c, s) && TasksEnabled(c, s, act)
    ensures Inv(c, TasksApply(c, s, act))
  {
    PcTasks(c, s, act);
    SvcsTasks(c, s, act);
    ExitsTasks(c, s, act);
    StopTasks(c, s, act);
    TraceTasks(c, s, act);
  }

  lemma InvLaunch(c: Config, s: State, act: LaunchAct)
    requires Inv(c, s) && LaunchEnabled(c, s, act)
    ensures Inv(c, LaunchApply(c, s, act))
  {
    PcLaunch(c, s, act);
    SvcsLaunch(c, s, act);
    ExitsLaunch(c, s, act);
    StopLaunch(c, s, act);
    TraceLaunch(c, s, act);
  }

  lemma InvLeave(c: Config, s: State, act: LeaveAct)
    requires Inv(c, s) && LeaveEnabled(c, s, act)
    ensures Inv(c, LeaveApply(c, s, act))
  {
    PcLeave(c, s, act);
    SvcsLeave(c, s, act);
    ExitsLeave(c, s, act);
    StopLeave(c, s, act);
    ErrsLeave(c, s, act);
    EventsLeave(c, s, act);
  }

  lemma InvStop(c: Config, s: State, act: StopAct)
    requires Inv(c, s) && StopEnabled(c, s, act)
    ensures Inv(c, StopApply(c, s, act))
  {
    PcStop(c, s, act);
    SvcsStop(c, s, act);
    ExitsStop(c, s, act);
    StopStop(c, s, act);
    TraceStop(c, s, act);
  }

  lemma InvOutside(c: Config, s: State, step: Step)
    requires Inv(c, s) && Enabled(c, s, step) && IsOutside(step)
    ensures Inv(c, Apply(c, s, step))
  {
    PcOutside(c, s, step);
    TraceOutside(c, s, step);
    if step.Supervise? {
      SvcsSuperviseStep(c, s, step.service, step.act);
      ExitsSuperviseStep(c, s, step.service, step.act);
      StopSuperviseStep(c, s, step.service, step.act);
    } else {
      SvcsOtherStep(c, s, step);
      ExitsOtherStep(c, s, step);
      StopOtherStep(c, s, step);
    }
  }

  lemma InvStep(c: Config, s: State, step: Step)
    requires Inv(c, s) && Enabled(c, s, step)
    ensures Inv(c, Apply(c, s, step))
  {
    hide Inv, TasksApply, LaunchApply, LeaveApply, StopApply, SvcAfter;
    match step {
      case RunTasks(act) => InvTasks(c, s, act);
      case LaunchAll(act) => InvLaunch(c, s, act);
      case Leave(act) => InvLeave(c, s, act);
      case StopAll(act) => InvStop(c, s, act);
      case _ => InvOutside(c, s, step);
    }
  }

  lemma {:induction false} InvPath(c: Config, from: State, steps: seq<Step>, to: State)
    requires Inv(c, from) && Path(c, from, steps, to)
    ensures Inv(c, to)
    decreases steps
  {
    if steps != [] {
      InvStep(c, from, steps[0]);
      InvPath(c, Apply(c, from, steps[0]), steps[1..], to);
    }
  }

  lemma ReachableInv(c: Config, s: State)
    requires Reachable(c, s)
    ensures Inv(c, s)
  {
    var steps :| Path(c, Init(c), steps, s);
    InitInv(c);
    InvPath(c, Init(c), steps, s);
  }
}
