/** What the host guarantees in every interleaving. */
module HostTheorems {
  import opened Common
  import opened Restart
  import opened Supervisor
  import opened Protocol
  import opened HostInvariant

  // Order of shutdown.

  /** The service's Stop has returned and its final Start result has been received. */
  predicate FullyStopped(svc: Svc) {
    svc.stop.StopTaken? && |svc.sent| == 1 && svc.done == []
  }

  predicate Untouched(svc: Svc) {
    !svc.canceled && svc.stopCalls == 0 && svc.stop.NotCalled?
  }

  /** Until the stop deadline expires, a service is left alone until every later one has stopped. */
  lemma ReverseShutdown(c: Config, s: State, i: nat, j: nat)
    requires Reachable(c, s) && i < j < s.launched
    ensures j < |s.svcs|
    ensures Untouched(s.svcs[i]) || FullyStopped(s.svcs[j]) || Expired(c, s)
  {
    ReachableInv(c, s);
    assert StopSvc(c, s, i, s.svcs[i], s.outcomes[i]);
    assert StopSvc(c, s, j, s.svcs[j], s.outcomes[j]);
  }

  /** Cancelling the caller's context, or calling Shutdown, cancels no service by itself. */
  lemma NoEarlyCancel(c: Config, s: State, i: nat)
    requires Reachable(c, s) && i < |c.services| && !InStopAll(s)
    ensures i < |s.svcs| && Untouched(s.svcs[i])
  {
    ReachableInv(c, s);
    assert StopSvc(c, s, i, s.svcs[i], s.outcomes[i]);
  }

  // Channels.

  /** A supervisor that wants to send always can. */
  lemma SendsNeverBlock(c: Config, s: State, i: nat)
    requires Reachable(c, s) && i < |c.services|
    ensures i < |s.svcs| && |s.svcs[i].sent| <= 1 && |s.exits| <= |c.services|
    ensures forall j, k :: 0 <= j < k < |s.exits| ==> s.exits[j].service != s.exits[k].service
    ensures s.trigger.ExitTaken? ==> forall k :: 0 <= k < |s.exits| ==> s.exits[k].service != s.trigger.exit.service
    ensures s.svcs[i].sup.phase.SendDone? ==> Enabled(c, s, Step.Supervise(i, PutDone))
    ensures s.svcs[i].sup.phase.SendExit? ==> Enabled(c, s, Step.Supervise(i, PutExit))
  {
    ReachableInv(c, s);
    assert SvcInv(c.services[i].restart, i < s.launched, s.stopping, s.svcs[i]);
    DistinctSenders(s.exits, |c.services|);
    if s.svcs[i].sup.phase.SendExit? {
      forall k | 0 <= k < |s.exits|
        ensures s.exits[k].service != i
      {
        assert ExitSent(s, s.exits[k]);
      }
      SendersWithout(s.exits, |c.services|, i);
    }
  }

  lemma {:induction false} DistinctSenders(exits: seq<ServiceExit>, n: nat)
    requires forall k :: 0 <= k < |exits| ==> exits[k].service < n
    requires forall j, k :: 0 <= j < k < |exits| ==> exits[j].service != exits[k].service
    ensures |exits| <= n
    decreases n
  {
    if exits != [] {
      assert exits[0].service < n;
      if k :| 0 <= k < |exits| && exits[k].service == n - 1 {
        DistinctSenders(exits[..k] + exits[k + 1..], n - 1);
      } else {
        DistinctSenders(exits, n - 1);
      }
    }
  }

  lemma SendersWithout(exits: seq<ServiceExit>, n: nat, i: nat)
    requires i < n
    requires forall k :: 0 <= k < |exits| ==> exits[k].service < n && exits[k].service != i
    requires forall j, k :: 0 <= j < k < |exits| ==> exits[j].service != exits[k].service
    ensures |exits| < n
  {
    DistinctSenders(exits + [ServiceExit(i, NoError)], n);
  }

  /** An exit is only readable after its error is on `done`, so stopAll never waits for the cause's Start. */
  lemma CauseIsDone(c: Config, s: State, stopErr: Err)
    requires Reachable(c, s)
    ensures forall k :: 0 <= k < |s.exits| ==> ExitSent(s, s.exits[k])
    ensures 0 <= s.cause && s.pc == AwaitingDone(s.cause, stopErr) ==> StopEnabled(c, s, TakeDone)
  {
    ReachableInv(c, s);
    if 0 <= s.cause && s.pc == AwaitingDone(s.cause, stopErr) {
      assert ExitSent(s, s.trigger.exit);
      assert StopSvc(c, s, s.cause, s.svcs[s.cause], s.outcomes[s.cause]);
    }
  }

  // Bounded shutdown.

  /** The main goroutine's steps that stopAll can still take. */
  function StepsLeft(s: State): nat {
    match s.pc
    case StopLoop(left) => 3 * left + 1
    case AwaitingStop(i) => 3 * i + 3
    case AwaitingDone(i, _) => 3 * i + 2
    case _ => 0
  }

  function MainSteps(steps: seq<Step>): nat {
    if steps == [] then 0 else (if IsOutside(steps[0]) then 0 else 1) + MainSteps(steps[1..])
  }

  /** Whatever the others do meanwhile, shutdown takes at most three steps per launched service and one more. */
  lemma {:induction false} ShutdownBounded(c: Config, s: State, steps: seq<Step>, to: State)
    requires InStopAll(s) && Path(c, s, steps, to)
    ensures InStopAll(to) && MainSteps(steps) + StepsLeft(to) <= StepsLeft(s)
    decreases steps
  {
    if steps != [] {
      ShutdownStep(c, s, steps[0]);
      ShutdownBounded(c, Apply(c, s, steps[0]), steps[1..], to);
    }
  }

  lemma ShutdownStep(c: Config, s: State, step: Step)
    requires InStopAll(s) && Enabled(c, s, step)
    ensures var next := Apply(c, s, step);
      && InStopAll(next)
      && StepsLeft(next) + (if IsOutside(step) then 0 else 1) <= StepsLeft(s)
  {
    if IsOutside(step) {
      OutsideFrame(c, s, step);
    } else {
      StopShortens(c, s, step.stop);
    }
  }

  lemma StopShortens(c: Config, s: State, act: StopAct)
    requires StopEnabled(c, s, act)
    ensures InStopAll(StopApply(c, s, act)) && StepsLeft(StopApply(c, s, act)) < StepsLeft(s)
    ensures StopApply(c, s, act).now == s.now && StopApply(c, s, act).stopBegan == s.stopBegan
  {
    match act {
      case StopService =>
      case TakeStop =>
      case StopDeadline =>
      case TakeDone =>
      case DoneDeadline =>
      case Return =>
    }
  }

  /** What stopAll does when it does not wait. */
  function Unwaiting(s: State): StopAct {
    match s.pc
    case StopLoop(left) => if left == 0 then Return else StopService
    case AwaitingStop(_) => StopDeadline
    case _ => DoneDeadline
  }

  lemma UnwaitingEnabled(c: Config, s: State)
    requires PcInv(c, s) && InStopAll(s) && !s.pc.Returned? && Expired(c, s)
    ensures StopEnabled(c, s, Unwaiting(s))
  {
  }

  /** Once the deadline has expired the main goroutine finishes by its own steps alone, with no time passing. */
  lemma DeadlineSuffices(c: Config, s: State)
    requires Reachable(c, s) && InStopAll(s) && Expired(c, s)
    ensures s.pc.Returned? || StopEnabled(c, s, Unwaiting(s))
    ensures exists steps, to :: Path(c, s, steps, to) && to.pc.Returned? && to.now == s.now
                                && |steps| <= StepsLeft(s) && OnlyStopAll(steps)
  {
    ReachableInv(c, s);
    if !s.pc.Returned? {
      UnwaitingEnabled(c, s);
    }
    var steps, to := NeverStuck(c, s);
  }

  predicate OnlyStopAll(steps: seq<Step>) {
    forall k :: 0 <= k < |steps| ==> steps[k].StopAll?
  }

  lemma {:induction false} NeverStuck(c: Config, s: State) returns (steps: seq<Step>, to: State)
    requires PcInv(c, s) && InStopAll(s) && Expired(c, s)
    ensures Path(c, s, steps, to) && to.pc.Returned? && to.now == s.now
    ensures OnlyStopAll(steps)
    ensures |steps| <= StepsLeft(s)
    decreases StepsLeft(s)
  {
    if s.pc.Returned? {
      steps, to := [], s;
    } else {
      UnwaitingEnabled(c, s);
      var act := Unwaiting(s);
      var next := StopApply(c, s, act);
      PcStop(c, s, act);
      StopShortens(c, s, act);
      var more;
      more, to := NeverStuck(c, next);
      steps := [StopAll(act)] + more;
      assert steps[1..] == more;
    }
  }

  /** When RunContext returns, exactly the launched services have been cancelled and had Stop called, once. */
  lemma StopCalledOnce(c: Config, s: State, i: nat)
    requires Reachable(c, s) && s.pc.Returned? && i < |c.services|
    ensures i < |s.svcs| && s.svcs[i].stopCalls == (if i < s.launched then 1 else 0)
    ensures s.svcs[i].canceled <==> i < s.launched
  {
    ReachableInv(c, s);
    assert StopSvc(c, s, i, s.svcs[i], s.outcomes[i]);
  }

  // The joined error.

  function Count(errs: seq<Entry>, entry: Entry): nat {
    if errs == [] then 0 else (if errs[0] == entry then 1 else 0) + Count(errs[1..], entry)
  }

  /** Every entry of stopAll about a service comes from that service's outcome. */
  lemma {:induction false} StopAllCount(outcomes: seq<Outcome>, cause: int, launched: nat, from: nat, entry: Entry)
    requires from <= launched <= |outcomes|
    ensures Count(StopAllErrs(outcomes, cause, launched, from), entry)
            == (if FromOutcomes(outcomes, cause, launched, from, entry) then 1 else 0)
    decreases launched - from
  {
    hide *;
    if from == launched {
      StopAllCountEnd(outcomes, cause, launched, entry);
    } else {
      StopAllCount(outcomes, cause, launched, from + 1, entry);
      StopAllCountStep(outcomes, cause, launched, from, entry);
    }
  }

  lemma StopAllCountEnd(outcomes: seq<Outcome>, cause: int, launched: nat, entry: Entry)
    requires launched <= |outcomes|
    ensures Count(StopAllErrs(outcomes, cause, launched, launched), entry) == 0
    ensures !FromOutcomes(outcomes, cause, launched, launched, entry)
  {
    assert StopAllErrs(outcomes, cause, launched, launched) == [];
  }

  lemma StopAllCountStep(outcomes: seq<Outcome>, cause: int, launched: nat, from: nat, entry: Entry)
    requires from < launched <= |outcomes|
    requires Count(StopAllErrs(outcomes, cause, launched, from + 1), entry)
             == (if FromOutcomes(outcomes, cause, launched, from + 1, entry) then 1 else 0)
    ensures Count(StopAllErrs(outcomes, cause, launched, from), entry)
            == (if FromOutcomes(outcomes, cause, launched, from, entry) then 1 else 0)
  {
    var later, own := StopAllErrs(outcomes, cause, launched, from + 1), OutcomeErrs(from, cause, outcomes[from]);
    CountAppend(later, own, entry);
    OutcomeCount(from, cause, outcomes[from], entry);
  }

  predicate FromOutcomes(outcomes: seq<Outcome>, cause: int, launched: nat, from: nat, entry: Entry)
    requires launched <= |outcomes|
  {
    !entry.TaskFailed? && from <= entry.service < launched && FromOutcome(entry.service, cause, outcomes[entry.service], entry)
  }

  lemma {:induction false} CountAppend(a: seq<Entry>, b: seq<Entry>, entry: Entry)
    ensures Count(a + b, entry) == Count(a, entry) + Count(b, entry)
  {
    if a == [] {
      assert a + b == b;
    } else {
      CountAppend(a[1..], b, entry);
      assert (a + b)[1..] == a[1..] + b;
    }
  }

  lemma OutcomeCount(i: nat, cause: int, outcome: Outcome, entry: Entry)
    ensures Count(OutcomeErrs(i, cause, outcome), entry) == (if FromOutcome(i, cause, outcome, entry) then 1 else 0)
  {
    CountAppend(OutcomeStopErrs(i, outcome), LastErr(i, cause, outcome), entry);
  }

  /** The outcome calls for this entry. */
  predicate FromOutcome(i: nat, cause: int, outcome: Outcome, entry: Entry) {
    match entry
    case StopFailed(j, err) => j == i && err.Error? && ((outcome.Ended? || outcome.StuckInStart?) && outcome.stopErr == err)
    case FailedInShutdown(j, err) => j == i && i != cause && err.Fails() && outcome.Ended? && outcome.startErr == err
    case DidNotStop(j) => j == i && (outcome.StuckInStop? || outcome.StuckInStart?)
    case _ => false
  }

  /** The returned error holds an entry exactly when the run calls for it, and then once. */
  lemma ErrorsExact(c: Config, s: State, entry: Entry)
    requires Reachable(c, s) && s.pc.Returned?
    ensures Count(s.errs, entry) == (if Accounted(s, entry) then 1 else 0)
  {
    ReachableInv(c, s);
    var stops := StopAllErrs(s.outcomes, s.cause, s.launched, 0);
    assert s.errs == TriggerErrs(s.trigger) + stops;
    CountAppend(TriggerErrs(s.trigger), stops, entry);
    StopAllCount(s.outcomes, s.cause, s.launched, 0, entry);
    TriggerCount(s.trigger, entry);
  }

  predicate FromTrigger(trigger: Trigger, entry: Entry) {
    match entry
    case TaskFailed(k, err) => trigger == TaskFailure(k, err)
    case NotReadyInTime(i) => trigger == ReadyTimeout(i)
    case ServiceFailure(i, err) => trigger == ExitTaken(ServiceExit(i, err))
    case _ => false
  }

  lemma TriggerCount(trigger: Trigger, entry: Entry)
    ensures Count(TriggerErrs(trigger), entry) == (if FromTrigger(trigger, entry) then 1 else 0)
  {
  }

  predicate Accounted(s: State, entry: Entry) {
    FromTrigger(s.trigger, entry) || (s.launched <= |s.outcomes| && FromOutcomes(s.outcomes, s.cause, s.launched, 0, entry))
  }

  /** No failure is lost and none is reported twice: a launched service that ends with a real error is named
      once, as the shutdown's cause or as failed during shutdown, or else as not having stopped in time. */
  lemma ErrorConservation(c: Config, s: State, i: nat, err: Err)
    requires Reachable(c, s) && s.pc.Returned? && i < s.launched && i < |s.svcs| && i < |s.outcomes|
    requires s.svcs[i].sent == [err] && err.Fails()
    ensures Count(s.errs, ServiceFailure(i, err)) == (if i == s.cause then 1 else 0)
    ensures Count(s.errs, FailedInShutdown(i, err)) == (if i != s.cause && s.outcomes[i].Ended? then 1 else 0)
    ensures Count(s.errs, DidNotStop(i)) == (if s.outcomes[i].Ended? then 0 else 1)
  {
    OutcomesAreReal(c, s, i);
    CauseSent(c, s);
    ErrorsExact(c, s, ServiceFailure(i, err));
    ErrorsExact(c, s, FailedInShutdown(i, err));
    ErrorsExact(c, s, DidNotStop(i));
  }

  lemma CauseSent(c: Config, s: State)
    requires Reachable(c, s)
    ensures 0 <= s.cause <==> s.trigger.ExitTaken?
    ensures 0 <= s.cause ==> s.cause < |s.svcs| && s.cause == s.trigger.exit.service && s.svcs[s.cause].sent == [s.trigger.exit.err]
  {
    ReachableInv(c, s);
    if s.trigger.ExitTaken? {
      assert ExitSent(s, s.trigger.exit);
    }
  }

  /** Outcomes are what the channels delivered: a stuck service is one the deadline overtook. */
  lemma OutcomesAreReal(c: Config, s: State, i: nat)
    requires Reachable(c, s) && s.pc.Returned? && i < s.launched
    ensures i < |s.svcs| && s.launched <= |s.outcomes|
    ensures match s.outcomes[i]
      case Pending => false
      case Ended(stopErr, startErr) => s.svcs[i].stop == StopTaken(stopErr) && s.svcs[i].sent == [startErr]
      case StuckInStop => Expired(c, s) && !s.svcs[i].stop.StopTaken?
      case StuckInStart(stopErr) => Expired(c, s) && s.svcs[i].stop == StopTaken(stopErr)
  {
    ReachableInv(c, s);
    assert StopSvc(c, s, i, s.svcs[i], s.outcomes[i]);
  }

  /** Stop returned nil, and Start nil or context.Canceled, before the host gave up waiting. */
  predicate StoppedCleanly(outcome: Outcome) {
    outcome.Ended? && outcome.stopErr.NoError? && !outcome.startErr.Fails()
  }

  /** RunContext returns nil exactly after an undisturbed run. */
  lemma NilIffClean(c: Config, s: State)
    requires Reachable(c, s) && s.pc.Returned?
    ensures s.launched <= |s.outcomes|
    ensures s.errs == [] <==>
      && (s.trigger.Requested? || s.trigger.TasksInterrupted?)
      && forall i :: 0 <= i < s.launched ==> StoppedCleanly(s.outcomes[i])
    ensures s.trigger.TaskFailure? || s.trigger.TasksInterrupted? ==> s.launched == 0
  {
    ReachableInv(c, s);
    CleanOutcomes(c, s, 0);
  }

  lemma {:induction false} CleanOutcomes(c: Config, s: State, from: nat)
    requires StopInv(c, s) && s.pc.Returned? && from <= s.launched <= |s.outcomes|
    ensures StopAllErrs(s.outcomes, s.cause, s.launched, from) == [] <==>
      forall i :: from <= i < s.launched ==> StoppedCleanly(s.outcomes[i]) || CauseOnly(s, i)
    decreases s.launched - from
  {
    if from == s.launched {
      assert StopAllErrs(s.outcomes, s.cause, s.launched, from) == [];
    } else {
      hide StopInv, StoppedCleanly, CauseOnly, OutcomeErrs;
      CleanOutcomes(c, s, from + 1);
      CleanOutcome(c, s, from);
    }
  }

  lemma CleanOutcome(c: Config, s: State, i: nat)
    requires StopInv(c, s) && s.pc.Returned? && i < s.launched <= |s.outcomes|
    ensures OutcomeErrs(i, s.cause, s.outcomes[i]) == [] <==> StoppedCleanly(s.outcomes[i]) || CauseOnly(s, i)
  {
    assert StopSvc(c, s, i, s.svcs[i], s.outcomes[i]);
  }

  /** The only error is the one already reported as the cause. */
  predicate CauseOnly(s: State, i: nat)
    requires i < |s.outcomes|
  {
    i == s.cause && s.outcomes[i].Ended? && s.outcomes[i].stopErr.NoError?
  }

  // The observer events.

  /** The events of a finished run. */
  lemma EventShape(c: Config, s: State)
    requires Reachable(c, s) && s.pc.Returned?
    ensures s.launched <= |c.services| && s.launched <= |s.outcomes|
    ensures s.events == LaunchEvents(c, s.launched, s.gated)
                        + (if s.hostStarted then [HostStarted] else [])
                        + TriggerEvents(s.trigger)
                        + StopAllEvents(s.outcomes, s.cause, s.launched, 0)
                        + [HostStopped(s.errs)]
    ensures s.hostStarted ==> s.launched == |c.services| && !s.gated
  {
    ReachableInv(c, s);
  }

  /** Stopped events: one for each launched service, in reverse order. */
  lemma {:induction false} StoppedInReverse(outcomes: seq<Outcome>, cause: int, launched: nat, from: nat)
    requires from <= launched <= |outcomes|
    ensures |StopAllEvents(outcomes, cause, launched, from)| == launched - from
    ensures forall k :: 0 <= k < launched - from ==>
      StopAllEvents(outcomes, cause, launched, from)[k]
        == ServiceStopped(launched - 1 - k, ReportOf(launched - 1 - k, cause, outcomes[launched - 1 - k]))
    decreases launched - from
  {
    if from < launched {
      StoppedInReverse(outcomes, cause, launched, from + 1);
    }
  }

  // Restarts during shutdown, and the give-up law in every interleaving.

  /** After stoppingCh is closed each supervisor starts its service at most once more, and sends at most one message. */
  lemma AtMostOneLateStart(c: Config, s: State, i: nat)
    requires Reachable(c, s) && i < |c.services|
    ensures i < |s.svcs| && s.svcs[i].lateStarts <= 1 && s.svcs[i].lateReports <= 1 && |s.svcs[i].sent| <= 1
    ensures s.svcs[i].sup.phase.Finished? ==> |s.svcs[i].sent| == 1
    ensures s.stopping && s.svcs[i].sup.phase.Exited? ==> !Enabled(c, s, Step.Supervise(i, Proceed))
  {
    ReachableInv(c, s);
    assert SvcInv(c.services[i].restart, i < s.launched, s.stopping, s.svcs[i]);
  }

  /** Once the late run has begun the supervisor neither restarts, nor announces a restart, nor reports an exit. */
  lemma {:induction false} LateRunIsLast(c: Config, s: State, steps: seq<Step>, to: State, i: nat)
    requires Inv(c, s) && Path(c, s, steps, to) && i < |c.services| && s.svcs[i].lateStarts == 1
    ensures Inv(c, to) && to.svcs[i].lateStarts == 1
    ensures to.svcs[i].sup.reports == s.svcs[i].sup.reports && !Reports(to.svcs[i].sup)
    decreases steps
  {
    assert SvcInv(c.services[i].restart, i < s.launched, s.stopping, s.svcs[i]);
    if steps != [] {
      var next := Apply(c, s, steps[0]);
      InvStep(c, s, steps[0]);
      LateRunStep(c, s, steps[0], i);
      LateRunIsLast(c, next, steps[1..], to, i);
    }
  }

  lemma LateRunStep(c: Config, s: State, step: Step, i: nat)
    requires SvcsInv(c, s) && PcInv(c, s) && Enabled(c, s, step) && i < |c.services| && s.svcs[i].lateStarts == 1
    ensures var next := Apply(c, s, step); i < |next.svcs| && SameReports(s.svcs[i], next.svcs[i])
  {
    assert SvcInv(c.services[i].restart, i < s.launched, s.stopping, s.svcs[i]);
    hide TasksApply, LaunchApply, LeaveApply, StopApply, SvcAfter, SvcInv;
    match step {
      case Supervise(j, act) =>
        if j == i {
          LateSvcStep(c.services[i].restart, s, s.svcs[i], act);
        }
      case RunTasks(act) => TasksFrame(c, s, act);
      case LaunchAll(act) => LateLaunch(c, s, act, i);
      case Leave(act) => LeaveKeeps(c, s, act);
      case StopAll(act) => LateStop(c, s, act, i);
      case _ => LateOutside(c, s, step, i);
    }
  }

  predicate SameReports(svc: Svc, next: Svc) {
    next.lateStarts == svc.lateStarts && next.sup.reports == svc.sup.reports
  }

  lemma LateSvcStep(pol: Option<Policy>, s: State, svc: Svc, act: Act)
    requires LateInv(s.stopping, svc) && svc.lateStarts == 1 && Can(svc.sup, act)
    ensures SameReports(svc, SvcAfter(pol, s, svc, act))
  {
  }

  lemma LateLaunch(c: Config, s: State, act: LaunchAct, i: nat)
    requires LaunchEnabled(c, s, act) && i < |s.svcs| && i != s.launched
    ensures var next := LaunchApply(c, s, act); i < |next.svcs| && SameReports(s.svcs[i], next.svcs[i])
  {
    match act {
      case Launch =>
      case AllLaunched =>
      case SeeReady =>
    }
  }

  lemma LateStop(c: Config, s: State, act: StopAct, i: nat)
    requires StopEnabled(c, s, act) && i < |s.svcs|
    ensures var next := StopApply(c, s, act); i < |next.svcs| && SameReports(s.svcs[i], next.svcs[i])
  {
    match act {
      case StopService =>
      case TakeStop =>
      case StopDeadline =>
      case TakeDone =>
      case DoneDeadline =>
      case Return =>
    }
  }

  lemma LateOutside(c: Config, s: State, step: Step, i: nat)
    requires Enabled(c, s, step) && IsOutside(step) && !step.Supervise? && i < |s.svcs|
    ensures var next := Apply(c, s, step); i < |next.svcs| && SameReports(s.svcs[i], next.svcs[i])
  {
    match step {
      case Tick(_) =>
      case CancelCtx =>
      case RequestShutdown =>
      case CancelTasks =>
      case BecomeReady(_) =>
      case StopReturns(_, _) =>
    }
  }

  /** In every interleaving a policy decides which exits reach the host. */
  lemma HostGivesUpOnTime(c: Config, s: State, i: nat, p: Policy)
    requires Reachable(c, s) && i < s.launched && i < |c.services| && c.services[i].restart == Some(p)
    ensures i < |s.svcs| && GivesUpOnTime(p, s.svcs[i].sup) && AnnouncesEachRestart(p, s.svcs[i].sup)
    ensures forall k :: 0 <= k < |s.exits| && s.exits[k].service == i ==> Exhausted(p, s.svcs[i].sup.exits)
    ensures s.cause == i ==> Exhausted(p, s.svcs[i].sup.exits)
  {
    ReachableInv(c, s);
    assert SvcInv(c.services[i].restart, true, s.stopping, s.svcs[i]);
    GiveUpFromInv(p, s.svcs[i].sup);
    forall k | 0 <= k < |s.exits| && s.exits[k].service == i
      ensures Exhausted(p, s.svcs[i].sup.exits)
    {
      assert ExitSent(s, s.exits[k]);
    }
    if s.cause == i {
      assert ExitSent(s, s.trigger.exit);
    }
  }

  /** In every interleaving the delays a service's restarts are announced with are those of its policy. */
  lemma HostDelays(c: Config, s: State, i: nat, p: Policy)
    requires Reachable(c, s) && i < |c.services| && c.services[i].restart == Some(p) && Accepted(p) && Safe(p)
    ensures i < |s.svcs| && WithinBounds(p, s.svcs[i].sup)
    ensures forall k :: 0 <= k < |s.svcs[i].sup.reports| ==> 1 <= s.svcs[i].sup.reports[k].attempt
    ensures p.factor.Finite? ==> forall k :: 0 <= k < |s.svcs[i].sup.reports| ==>
      s.svcs[i].sup.reports[k].delay == Backoff(p, s.svcs[i].sup.reports[k].attempt - 1)
  {
    hide *;
    HostLoopInv(c, s, i);
    GiveUpFromInv(p, s.svcs[i].sup);
    DelaysFromLaw(p, s.svcs[i].sup);
  }

  lemma HostLoopInv(c: Config, s: State, i: nat)
    requires Reachable(c, s) && i < |c.services|
    ensures i < |s.svcs| && LoopInv(c.services[i].restart, s.svcs[i].sup)
  {
    ReachableInv(c, s);
    assert SvcInv(c.services[i].restart, i < s.launched, s.stopping, s.svcs[i]);
  }

  // What the other goroutines leave to a supervisor.

  predicate SameSupervisor(svc: Svc, next: Svc) {
    next.sup == svc.sup && next.mark == svc.mark && next.sent == svc.sent && next.lateStarts == svc.lateStarts
  }

  lemma OthersStep(c: Config, s: State, step: Step, i: nat)
    requires Enabled(c, s, step) && i < |s.svcs| && !(step.Supervise? && step.service == i)
    requires step == LaunchAll(Launch) ==> i != s.launched
    ensures var next := Apply(c, s, step);
      |next.svcs| == |s.svcs| && s.launched <= next.launched && SameSupervisor(s.svcs[i], next.svcs[i]) && s.now <= next.now
  {
    hide TasksApply, LaunchApply, LeaveApply, StopApply, SvcAfter;
    match step {
      case Supervise(j, act) => SuperviseBeside(c, s, j, act, i);
      case RunTasks(act) => TasksNow(c, s, act);
      case LaunchAll(act) => LaunchBeside(c, s, act, i);
      case Leave(act) => LeaveKeeps(c, s, act);
      case StopAll(act) => StopBeside(c, s, act, i);
      case _ => OutsideBeside(c, s, step, i);
    }
  }

  lemma SuperviseBeside(c: Config, s: State, j: nat, act: Act, i: nat)
    requires Enabled(c, s, Step.Supervise(j, act)) && i < |s.svcs| && j != i
    ensures var next := Apply(c, s, Step.Supervise(j, act));
      |next.svcs| == |s.svcs| && next.launched == s.launched && SameSupervisor(s.svcs[i], next.svcs[i]) && next.now == s.now
  {
    hide SvcAfter;
  }

  lemma LeaveKeeps(c: Config, s: State, act: LeaveAct)
    requires LeaveEnabled(c, s, act)
    ensures var next := LeaveApply(c, s, act); next.svcs == s.svcs && next.launched == s.launched && next.now == s.now
  {
    match act {
      case TakeExit =>
      case SeeStartTimeout =>
      case SeeCancel =>
      case SeeShutdown =>
      case CloseStopping =>
      case BeginStop =>
    }
  }

  lemma TasksNow(c: Config, s: State, act: TaskAct)
    requires TasksEnabled(c, s, act)
    ensures var next := TasksApply(c, s, act); next.svcs == s.svcs && next.launched == s.launched && next.now == s.now
  {
    TasksFrame(c, s, act);
  }

  lemma LaunchBeside(c: Config, s: State, act: LaunchAct, i: nat)
    requires LaunchEnabled(c, s, act) && i < |s.svcs| && (act.Launch? ==> i != s.launched)
    ensures var next := LaunchApply(c, s, act);
      |next.svcs| == |s.svcs| && s.launched <= next.launched && SameSupervisor(s.svcs[i], next.svcs[i]) && next.now == s.now
  {
    match act {
      case Launch =>
      case AllLaunched =>
      case SeeReady =>
    }
  }

  lemma StopBeside(c: Config, s: State, act: StopAct, i: nat)
    requires StopEnabled(c, s, act) && i < |s.svcs|
    ensures var next := StopApply(c, s, act);
      |next.svcs| == |s.svcs| && next.launched == s.launched && SameSupervisor(s.svcs[i], next.svcs[i]) && next.now == s.now
  {
    match act {
      case StopService =>
      case TakeStop =>
      case StopDeadline =>
      case TakeDone =>
      case DoneDeadline =>
      case Return =>
    }
  }

  lemma OutsideBeside(c: Config, s: State, step: Step, i: nat)
    requires Enabled(c, s, step) && IsOutside(step) && !step.Supervise? && i < |s.svcs|
    ensures var next := Apply(c, s, step);
      |next.svcs| == |s.svcs| && next.launched == s.launched && SameSupervisor(s.svcs[i], next.svcs[i]) && s.now <= next.now
  {
    match step {
      case Tick(_) =>
      case CancelCtx =>
      case RequestShutdown =>
      case CancelTasks =>
      case BecomeReady(_) =>
      case StopReturns(_, _) =>
    }
  }
}
