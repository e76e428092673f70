/** The host as a labelled step relation: the main goroutine of RunContext, one supervisor and one Stop
    call per service, and an environment that moves the clock, cancels the caller's context and calls
    Shutdown. A Go select with several ready cases is a choice between several enabled steps. */
module Protocol {
  import opened Common
  import opened Restart
  import opened Supervisor

  datatype ServiceSpec = ServiceSpec(readier: bool, restart: Option<Policy>)

  /** `startTimeout` is 0 when no start timeout was configured. */
  datatype Config = Config(services: seq<ServiceSpec>, tasks: nat, startTimeout: nat, shutdownTimeout: nat)

  /** The goroutine that calls a service's Stop, and its one-slot result channel. */
  datatype StopCall = NotCalled | InStop | StopSent(err: Err) | StopTaken(err: Err)

  /** One service: its supervisor, the clock reading `mark` taken when the current run or wait began, its
      context, and its `done` channel. `sent`, `stopCalls`, `lateStarts` and `lateReports` are histories:
      all messages put on `done`, the calls of Stop, and the calls of Start and ServiceRestarting events
      after stoppingCh was closed. */
  datatype Svc = Svc(
    sup: Sup, mark: nat, ready: bool, canceled: bool, done: seq<Err>, stop: StopCall,
    sent: seq<Err>, stopCalls: nat, lateStarts: nat, lateReports: nat)

  datatype ServiceExit = ServiceExit(service: nat, err: Err)

  /** What made startup or serving end. */
  datatype Trigger =
    | NoTrigger
    | TaskFailure(task: nat, taskErr: Err)
    | TasksInterrupted
    | ReadyTimeout(slow: nat)
    | ExitTaken(exit: ServiceExit)
    | Requested

  /** How stopAll's two selects ended for one service. */
  datatype Outcome =
    | Pending
    | Ended(stopErr: Err, startErr: Err)
    | StuckInStop
    | StuckInStart(stopErr: Err)

  /** One entry of the joined error. */
  datatype Entry =
    | TaskFailed(task: nat, err: Err)
    | NotReadyInTime(service: nat)
    | ServiceFailure(service: nat, err: Err)
    | StopFailed(service: nat, err: Err)
    | FailedInShutdown(service: nat, err: Err)
    | DidNotStop(service: nat)

  datatype StopReport = StoppedWith(err: Err) | TimedOut

  /** The observer events of the host loop; ServiceRestarting comes from the supervisors instead. */
  datatype Event =
    | ServiceStarted(service: nat)
    | ServiceReady(service: nat)
    | HostStarted
    | ServiceFailed(service: nat, err: Err)
    | ServiceStopped(service: nat, report: StopReport)
    | HostStopped(errs: seq<Entry>)

  datatype Pc =
    | InTasks(task: nat)
    | InTask(task: nat)
    | Launching
    | AwaitingReady
    | Serving
    | Closing
    | InStoppingHooks
    | StopLoop(left: nat)
    | AwaitingStop(service: nat)
    | AwaitingDone(service: nat, stopErr: Err)
    | Returned

  /** `trigger`, `gated`, `hostStarted` and `outcomes` are histories. `gated` says that the service
      launched last has not reported readiness; RunContext is entered at time 0. */
  datatype State = State(
    now: nat, pc: Pc, ctxDone: bool, shutdown: bool, tasksCanceled: bool, stopping: bool, stopBegan: nat,
    launched: nat, cause: int, errs: seq<Entry>, svcs: seq<Svc>, exits: seq<ServiceExit>, events: seq<Event>,
    trigger: Trigger, gated: bool, hostStarted: bool, outcomes: seq<Outcome>)

  /** runStartupTasks. */
  datatype TaskAct = TasksDone | TasksAborted | TaskBegin | TaskEnd(err: Err)

  /** The launch loop. */
  datatype LaunchAct = Launch | AllLaunched | SeeReady

  /** The cases of the two selects that lead to shutdown, and the steps up to stopAll. */
  datatype LeaveAct = TakeExit | SeeStartTimeout | SeeCancel | SeeShutdown | CloseStopping | BeginStop

  /** stopAll and the return from RunContext. */
  datatype StopAct = StopService | TakeStop | StopDeadline | TakeDone | DoneDeadline | Return

  /** The last four are steps of the main goroutine. */
  datatype Step =
    | Tick(d: nat)
    | CancelCtx
    | RequestShutdown
    | CancelTasks                     // the context of startup tasks notices ctx or Shutdown
    | BecomeReady(service: nat)
    | StopReturns(service: nat, err: Err)
    | Supervise(service: nat, act: Act)
    | RunTasks(task: TaskAct)
    | LaunchAll(launch: LaunchAct)
    | Leave(leave: LeaveAct)
    | StopAll(stop: StopAct)

  const FRESH_SVC := Svc(NOT_LAUNCHED, 0, false, false, [], NotCalled, [], 0, 0, 0)

  function Init(c: Config): State {
    State(0, InTasks(0), false, false, false, false, 0,
          0, -1, [], seq(|c.services|, _ => FRESH_SVC), [], [],
          NoTrigger, false, false, seq(|c.services|, _ => Pending))
  }

  predicate Expired(c: Config, s: State) {
    s.now >= s.stopBegan + c.shutdownTimeout
  }

  predicate StopSeen(s: State, svc: Svc) {
    svc.canceled || s.stopping
  }

  predicate Enabled(c: Config, s: State, step: Step) {
    match step
    case Tick(_) => true
    case CancelCtx => true
    case RequestShutdown => true
    case CancelTasks => s.ctxDone || s.shutdown
    case BecomeReady(i) => i < |s.svcs|
    case StopReturns(i, _) => i < |s.svcs| && s.svcs[i].stop.InStop?
    case Supervise(i, act) => i < |s.svcs| && i < |c.services| && Can(s.svcs[i].sup, act) && Unblocked(c, s, s.svcs[i], act)
    case RunTasks(act) => TasksEnabled(c, s, act)
    case LaunchAll(act) => LaunchEnabled(c, s, act)
    case Leave(act) => LeaveEnabled(c, s, act)
    case StopAll(act) => StopEnabled(c, s, act)
  }

  /** The clocks and channels a supervisor's step waits for. */
  predicate Unblocked(c: Config, s: State, svc: Svc, act: Act) {
    match act
    case StartReturns(_) => true
    case SeeStop => StopSeen(s, svc)
    case Proceed => !StopSeen(s, svc)
    case Decide(elapsed) => elapsed == s.now - svc.mark
    case StopWait => StopSeen(s, svc)
    case Restart(_) => s.now >= svc.mark + svc.sup.delay
    case PutDone => |svc.done| < 1
    case PutExit => |s.exits| < |c.services|
  }

  function Apply(c: Config, s: State, step: Step): State
    requires Enabled(c, s, step)
  {
    match step
    case Tick(d) => s.(now := s.now + d)
    case CancelCtx => s.(ctxDone := true)
    case RequestShutdown => s.(shutdown := true)
    case CancelTasks => s.(tasksCanceled := true)
    case BecomeReady(i) => s.(svcs := s.svcs[i := s.svcs[i].(ready := true)])
    case StopReturns(i, err) => s.(svcs := s.svcs[i := s.svcs[i].(stop := StopSent(err))])
    case Supervise(i, act) =>
      s.(svcs := s.svcs[i := SvcAfter(c.services[i].restart, s, s.svcs[i], act)],
         exits := s.exits + if act.PutExit? then [ServiceExit(i, s.svcs[i].sup.phase.err)] else [])
    case RunTasks(act) => TasksApply(c, s, act)
    case LaunchAll(act) => LaunchApply(c, s, act)
    case Leave(act) => LeaveApply(c, s, act)
    case StopAll(act) => StopApply(c, s, act)
  }

  function SvcAfter(pol: Option<Policy>, s: State, svc: Svc, act: Act): Svc
    requires Can(svc.sup, act)
  {
    var sup := Do(pol, svc.sup, act);
    var waits := act.Decide? && sup.phase.Waiting?;
    svc.(sup := sup,
         mark := if act.Restart? || waits then s.now else svc.mark,
         done := if act.PutDone? then svc.done + [svc.sup.phase.msg] else svc.done,
         sent := if act.PutDone? then svc.sent + [svc.sup.phase.msg] else svc.sent,
         lateStarts := if act.Restart? && s.stopping then svc.lateStarts + 1 else svc.lateStarts,
         lateReports := if waits && s.stopping then svc.lateReports + 1 else svc.lateReports)
  }

  predicate TasksEnabled(c: Config, s: State, act: TaskAct) {
    match act
    case TasksDone => s.pc.InTasks? && s.pc.task == c.tasks
    case TasksAborted => s.pc.InTasks? && s.pc.task < c.tasks && s.tasksCanceled
    case TaskBegin => s.pc.InTasks? && s.pc.task < c.tasks && !s.tasksCanceled
    case TaskEnd(_) => s.pc.InTask?
  }

  function TasksApply(c: Config, s: State, act: TaskAct): State
    requires TasksEnabled(c, s, act)
  {
    match act
    case TasksDone => s.(pc := Launching)
    case TasksAborted => s.(pc := Closing, trigger := TasksInterrupted)
    case TaskBegin => s.(pc := InTask(s.pc.task))
    case TaskEnd(err) =>
      if err.NoError? then s.(pc := InTasks(s.pc.task + 1))
      else if err.canceled && s.tasksCanceled then s.(pc := Closing, trigger := TasksInterrupted)
      else s.(pc := Closing, errs := s.errs + [TaskFailed(s.pc.task, err)], trigger := TaskFailure(s.pc.task, err))
  }

  predicate LaunchEnabled(c: Config, s: State, act: LaunchAct) {
    match act
    case Launch => s.pc.Launching? && s.launched < |s.svcs| && s.launched < |c.services|
    case AllLaunched => s.pc.Launching? && s.launched == |c.services|
    case SeeReady => s.pc.AwaitingReady? && 0 < s.launched <= |s.svcs| && s.svcs[s.launched - 1].ready
  }

  function LaunchApply(c: Config, s: State, act: LaunchAct): State
    requires LaunchEnabled(c, s, act)
  {
    match act
    case Launch =>
      var i := s.launched;
      var gated := c.services[i].readier;
      s.(svcs := s.svcs[i := s.svcs[i].(sup := Launched(c.services[i].restart), mark := s.now)],
         launched := i + 1,
         events := s.events + [ServiceStarted(i)],
         gated := gated,
         pc := if gated then AwaitingReady else Launching)
    case AllLaunched => s.(pc := Serving, hostStarted := true, events := s.events + [HostStarted])
    case SeeReady => s.(pc := Launching, gated := false, events := s.events + [ServiceReady(s.launched - 1)])
  }

  predicate LeaveEnabled(c: Config, s: State, act: LeaveAct) {
    var selecting := s.pc.AwaitingReady? || s.pc.Serving?;
    match act
    case TakeExit => selecting && s.exits != []
    case SeeStartTimeout => s.pc.AwaitingReady? && 0 < s.launched && 0 < c.startTimeout <= s.now
    case SeeCancel => selecting && s.ctxDone
    case SeeShutdown => selecting && s.shutdown
    case CloseStopping => s.pc.Closing?
    case BeginStop => s.pc.InStoppingHooks?
  }

  function LeaveApply(c: Config, s: State, act: LeaveAct): State
    requires LeaveEnabled(c, s, act)
  {
    match act
    case TakeExit =>
      var exit := s.exits[0];
      s.(pc := Closing, exits := s.exits[1..], cause := exit.service,
         errs := s.errs + [ServiceFailure(exit.service, exit.err)],
         events := s.events + [ServiceFailed(exit.service, exit.err)],
         trigger := ExitTaken(exit))
    case SeeStartTimeout =>
      s.(pc := Closing, errs := s.errs + [NotReadyInTime(s.launched - 1)], trigger := ReadyTimeout(s.launched - 1))
    case SeeCancel => Abort(s)
    case SeeShutdown => Abort(s)
    case CloseStopping => s.(pc := InStoppingHooks, stopping := true)
    case BeginStop => s.(pc := StopLoop(s.launched), stopBegan := s.now)
  }

  predicate StopEnabled(c: Config, s: State, act: StopAct) {
    match act
    case StopService => s.pc.StopLoop? && 0 < s.pc.left <= |s.svcs|
    case TakeStop => s.pc.AwaitingStop? && s.pc.service < |s.svcs| && s.svcs[s.pc.service].stop.StopSent?
    case StopDeadline => s.pc.AwaitingStop? && s.pc.service < |s.outcomes| && Expired(c, s)
    case TakeDone => s.pc.AwaitingDone? && s.pc.service < |s.svcs| && s.pc.service < |s.outcomes| && s.svcs[s.pc.service].done != []
    case DoneDeadline => s.pc.AwaitingDone? && s.pc.service < |s.outcomes| && Expired(c, s)
    case Return => s.pc == StopLoop(0)
  }

  function StopApply(c: Config, s: State, act: StopAct): State
    requires StopEnabled(c, s, act)
  {
    match act
    case StopService =>
      var i := s.pc.left - 1;
      var svc := s.svcs[i];
      s.(pc := AwaitingStop(i), svcs := s.svcs[i := svc.(canceled := true, stop := InStop, stopCalls := svc.stopCalls + 1)])
    case TakeStop =>
      var i := s.pc.service;
      var err := s.svcs[i].stop.err;
      s.(pc := AwaitingDone(i, err), svcs := s.svcs[i := s.svcs[i].(stop := StopTaken(err))],
         errs := s.errs + StopErr(i, err))
    case StopDeadline => Stop(s, StuckInStop)
    case TakeDone =>
      var i := s.pc.service;
      var err := s.svcs[i].done[0];
      Stop(s.(svcs := s.svcs[i := s.svcs[i].(done := s.svcs[i].done[1..])]), Ended(s.pc.stopErr, err))
    case DoneDeadline => Stop(s, StuckInStart(s.pc.stopErr))
    case Return => s.(pc := Returned, events := s.events + [HostStopped(s.errs)])
  }

  function Abort(s: State): State {
    s.(pc := Closing, trigger := Requested)
  }

  /** The end of one turn of stopAll's loop. */
  function Stop(s: State, outcome: Outcome): State
    requires s.pc.AwaitingStop? || s.pc.AwaitingDone?
    requires s.pc.service < |s.outcomes|
  {
    var i := s.pc.service;
    s.(pc := StopLoop(i), outcomes := s.outcomes[i := outcome],
       errs := s.errs + LastErr(i, s.cause, outcome),
       events := s.events + [ServiceStopped(i, ReportOf(i, s.cause, outcome))])
  }

  function StopErr(i: nat, err: Err): seq<Entry> {
    if err.Error? then [StopFailed(i, err)] else []
  }

  /** The entry appended when the wait for the service ends. */
  function LastErr(i: nat, cause: int, outcome: Outcome): seq<Entry> {
    match outcome
    case Pending => []
    case Ended(_, startErr) => if startErr.Fails() && i != cause then [FailedInShutdown(i, startErr)] else []
    case StuckInStop => [DidNotStop(i)]
    case StuckInStart(_) => [DidNotStop(i)]
  }

  function ReportOf(i: nat, cause: int, outcome: Outcome): StopReport {
    match outcome
    case Ended(stopErr, startErr) =>
      StoppedWith(if stopErr.Error? then stopErr else if startErr.Fails() && i != cause then startErr else NoError)
    case _ => TimedOut
  }

  // Runs.

  ghost predicate Path(c: Config, from: State, steps: seq<Step>, to: State)
    decreases steps
  {
    if steps == [] then from == to
    else Enabled(c, from, steps[0]) && Path(c, Apply(c, from, steps[0]), steps[1..], to)
  }

  /** Some interleaving of the host takes it to this state. */
  ghost predicate Reachable(c: Config, s: State) {
    exists steps :: Path(c, Init(c), steps, s)
  }

  lemma {:induction false} PathConcat(c: Config, from: State, steps: seq<Step>, mid: State, more: seq<Step>, to: State)
    requires Path(c, from, steps, mid) && Path(c, mid, more, to)
    ensures Path(c, from, steps + more, to)
    decreases steps
  {
    if steps == [] {
      assert steps + more == more;
    } else {
      PathConcat(c, Apply(c, from, steps[0]), steps[1..], mid, more, to);
      assert (steps + more)[1..] == steps[1..] + more;
    }
  }
}
