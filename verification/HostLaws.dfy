/** What the host guarantees, told by the steps of its runs: what Start, Stop and the tasks returned, what the
    clock showed, and which cases the selects took. */
module HostLaws {
  import opened Common
  import opened Restart
  import opened Supervisor
  import opened Protocol
  import opened HostInvariant
  import opened HostTheorems
  import opened HostRuns

  ghost predicate Finished(c: Config, steps: seq<Step>, s: State) {
    RunTo(c, steps, s) && s.pc.Returned?
  }

  lemma ReadAt(c: Config, steps: seq<Step>, s: State, i: nat)
    requires RunTo(c, steps, s) && i < |c.services|
    ensures PcInv(c, s) && EnvRead(steps, s) && TaskRead(c, steps, s) && SelectRead(c, steps, s) && ExitRead(steps, s)
    ensures i < |s.svcs| && SupRead(c, steps, s, i) && CallsRead(c, steps, s, i)
    ensures SvcInv(c.services[i].restart, i < s.launched, s.stopping, s.svcs[i])
  {
    RunReads(c, steps, s);
    hide SupRead, CallsRead, EnvRead, TaskRead, SelectRead, ExitRead;
    assert SvcInv(c.services[i].restart, i < s.launched, s.stopping, s.svcs[i]);
  }

  lemma MainReads(c: Config, steps: seq<Step>, s: State)
    requires RunTo(c, steps, s)
    ensures PcInv(c, s) && EnvRead(steps, s) && TaskRead(c, steps, s) && SelectRead(c, steps, s) && ExitRead(steps, s)
  {
    RunReads(c, steps, s);
  }

  // The joined error.

  /** The messages on `done` are what Start returned, or nil after a pause that shutdown ended. */
  lemma FinalMessages(c: Config, steps: seq<Step>, s: State, i: nat)
    requires RunTo(c, steps, s) && i < |c.services|
    ensures i < |s.svcs| && s.svcs[i].sent == Finals(Acts(steps, i)) && |Finals(Acts(steps, i))| <= 1
    ensures s.svcs[i].sup.phase.Finished? ==> |Finals(Acts(steps, i))| == 1
  {
    hide Acts, Finals, EnvRead, TaskRead, SelectRead, ExitRead, CallsRead, PcInv, TimeRead, LoopInv, LateInv, RunTo;
    ReadAt(c, steps, s, i);
  }

  lemma ReachableRun(c: Config, steps: seq<Step>, s: State)
    requires RunTo(c, steps, s)
    ensures Reachable(c, s)
  {
  }

  /** What stopAll found out about a launched service, by what its Start and its Stop returned. */
  lemma Received(c: Config, steps: seq<Step>, s: State, i: nat)
    requires Finished(c, steps, s) && i < Launches(steps)
    ensures i < s.launched <= |s.outcomes| && s.launched == Launches(steps) && i < |c.services|
    ensures match s.outcomes[i]
      case Pending => false
      case Ended(stopErr, startErr) => StopResults(steps, i) == [stopErr] && Finals(Acts(steps, i)) == [startErr]
      case StuckInStop => true
      case StuckInStart(stopErr) => StopResults(steps, i) == [stopErr]
  {
    RunReads(c, steps, s);
    ReachableRun(c, steps, s);
    OutcomesAreReal(c, s, i);
    FinalMessages(c, steps, s, i);
    assert CallsRead(c, steps, s, i);
  }

  /** A failed task is reported, and nothing else is reported as one. */
  lemma TaskFailureReported(c: Config, steps: seq<Step>, s: State, k: nat, err: Err)
    requires Finished(c, steps, s)
    ensures Count(s.errs, TaskFailed(k, err)) == if FailedTask(steps) == Some((k as int, err)) then 1 else 0
  {
    RunReads(c, steps, s);
    ReachableRun(c, steps, s);
    ErrorsExact(c, s, TaskFailed(k, err));
  }

  /** The start timeout is reported exactly when its case was taken, for the service launched last. */
  lemma StartTimeoutReported(c: Config, steps: seq<Step>, s: State, i: nat)
    requires Finished(c, steps, s)
    ensures Count(s.errs, NotReadyInTime(i))
            == if Leave(SeeStartTimeout) in steps && i + 1 == Launches(steps) then 1 else 0
  {
    hide Acts, Finals, TaskRead, ExitRead, RunTo, Count, Clock;
    MainReads(c, steps, s);
    ReachableRun(c, steps, s);
    ErrorsExact(c, s, NotReadyInTime(i));
  }

  /** The cause is the service whose exit was sent first, with the error its Start returned. */
  lemma CauseReported(c: Config, steps: seq<Step>, s: State, i: nat, err: Err)
    requires Finished(c, steps, s) && i < |c.services|
    ensures Count(s.errs, ServiceFailure(i, err))
            == if Leave(TakeExit) in steps && ExitsPut(steps) != [] && ExitsPut(steps)[0] == i
                  && Finals(Acts(steps, i)) == [err] then 1 else 0
    ensures Leave(TakeExit) in steps ==> ExitsPut(steps) != []
  {
    hide Acts, Finals, EnvRead, TaskRead, CallsRead, SupRead, PcInv, SvcInv, RunTo, Count;
    ReadAt(c, steps, s, i);
    ReachableRun(c, steps, s);
    CauseSent(c, s);
    FinalMessages(c, steps, s, i);
    ErrorsExact(c, s, ServiceFailure(i, err));
  }

  /** No Start error is lost: when the host did not give up on a launched service, the service's final message is
      there, and a real error in it is reported once, as the cause or as failed during shutdown. */
  lemma StartErrorReported(c: Config, steps: seq<Step>, s: State, i: nat)
    requires Finished(c, steps, s) && i < Launches(steps) && Count(s.errs, DidNotStop(i)) == 0
    ensures |Finals(Acts(steps, i))| == 1
    ensures var err := Finals(Acts(steps, i))[0];
      Count(s.errs, ServiceFailure(i, err)) + Count(s.errs, FailedInShutdown(i, err))
        == if err.Fails() || Count(s.errs, ServiceFailure(i, err)) == 1 then 1 else 0
    ensures forall err :: err != Finals(Acts(steps, i))[0] ==>
      Count(s.errs, ServiceFailure(i, err)) == 0 && Count(s.errs, FailedInShutdown(i, err)) == 0
  {
    hide Count, Finals, Acts;
    Received(c, steps, s, i);
    ReachableRun(c, steps, s);
    ErrorsExact(c, s, DidNotStop(i));
    forall err
      ensures Count(s.errs, ServiceFailure(i, err)) == if i == s.cause && [err] == Finals(Acts(steps, i)) then 1 else 0
      ensures Count(s.errs, FailedInShutdown(i, err))
              == if i != s.cause && [err] == Finals(Acts(steps, i)) && err.Fails() then 1 else 0
    {
      StartEntries(c, steps, s, i, err);
    }
  }

  lemma StartEntries(c: Config, steps: seq<Step>, s: State, i: nat, err: Err)
    requires Finished(c, steps, s) && i < Launches(steps) && i < |s.outcomes| && s.outcomes[i].Ended?
    ensures Count(s.errs, ServiceFailure(i, err)) == if i == s.cause && [err] == Finals(Acts(steps, i)) then 1 else 0
    ensures Count(s.errs, FailedInShutdown(i, err))
            == if i != s.cause && [err] == Finals(Acts(steps, i)) && err.Fails() then 1 else 0
  {
    hide Count, Finals, Acts;
    Received(c, steps, s, i);
    ReachableRun(c, steps, s);
    CauseSent(c, s);
    FinalMessages(c, steps, s, i);
    ErrorsExact(c, s, ServiceFailure(i, err));
    ErrorsExact(c, s, FailedInShutdown(i, err));
  }

  /** No Stop error is lost or made up. */
  lemma StopErrorReported(c: Config, steps: seq<Step>, s: State, i: nat, err: Err)
    requires Finished(c, steps, s) && i < Launches(steps)
    ensures Count(s.errs, StopFailed(i, err)) <= 1
    ensures Count(s.errs, StopFailed(i, err)) == 1 ==> err.Error? && StopResults(steps, i) == [err]
    ensures Count(s.errs, DidNotStop(i)) == 0 ==>
      |StopResults(steps, i)| == 1 && (Count(s.errs, StopFailed(i, err)) == 1 <==> err.Error? && StopResults(steps, i) == [err])
  {
    Received(c, steps, s, i);
    ReachableRun(c, steps, s);
    ErrorsExact(c, s, DidNotStop(i));
    ErrorsExact(c, s, StopFailed(i, err));
  }

  /** Stop returned nil, and the service's final message was nil or context.Canceled. */
  predicate EndedWell(steps: seq<Step>, i: nat) {
    StopResults(steps, i) == [NoError] && |Finals(Acts(steps, i))| == 1 && !Finals(Acts(steps, i))[0].Fails()
  }

  ghost predicate WellRun(steps: seq<Step>) {
    && FailedTask(steps) == None && Leave(SeeStartTimeout) !in steps && Leave(TakeExit) !in steps
    && !DeadlineTaken(steps)
    && forall i: nat :: i < Launches(steps) ==> EndedWell(steps, i)
  }

  /** RunContext returns nil exactly when no task failed, neither the start timeout nor an exit nor the stop
      deadline was taken in a select, and every launched service ended well. */
  lemma NilIff(c: Config, steps: seq<Step>, s: State)
    requires Finished(c, steps, s)
    ensures s.errs == [] <==> WellRun(steps)
  {
    RunReads(c, steps, s);
    ReachableRun(c, steps, s);
    NilIffClean(c, s);
    forall i: nat | i < Launches(steps)
      ensures i < |s.outcomes| && (StoppedCleanly(s.outcomes[i]) ==> EndedWell(steps, i) && !Stuck(s.outcomes[i]))
      ensures !Stuck(s.outcomes[i]) && EndedWell(steps, i) ==> StoppedCleanly(s.outcomes[i])
    {
      Received(c, steps, s, i);
    }
    StuckOnlyLaunched(c, s);
    FinishedTrigger(c, s);
  }

  lemma StuckOnlyLaunched(c: Config, s: State)
    requires Inv(c, s)
    ensures forall i: nat :: i < |s.outcomes| && s.launched <= i ==> s.outcomes[i].Pending?
  {
    forall i: nat | i < |s.outcomes| && s.launched <= i
      ensures s.outcomes[i].Pending?
    {
      assert StopSvc(c, s, i, s.svcs[i], s.outcomes[i]);
    }
  }

  lemma FinishedTrigger(c: Config, s: State)
    requires Inv(c, s) && s.pc.Returned?
    ensures !s.trigger.NoTrigger?
  {
  }

  // The stop deadline.

  lemma {:induction false} NowAfter(c: Config, from: State, steps: seq<Step>, to: State)
    requires Path(c, from, steps, to)
    ensures to.now == from.now + Clock(steps)
    decreases |steps|
  {
    if steps != [] {
      hide Enabled, Apply;
      var mid := PathLast(c, from, steps, to);
      NowAfter(c, from, Front(steps), mid);
      NowStep(c, mid, Last(steps));
    }
  }

  lemma NowStep(c: Config, s: State, step: Step)
    requires Enabled(c, s, step)
    ensures Apply(c, s, step).now == s.now + if step.Tick? then step.d else 0
  {
    hide SvcAfter, TasksApply, LaunchApply, LeaveApply, StopApply;
    match step {
      case RunTasks(act) => EnvTasks(c, s, act);
      case LaunchAll(act) => EnvLaunch(c, s, act);
      case Leave(act) => EnvLeave(c, s, act);
      case StopAll(act) => EnvStop(c, s, act);
      case _ =>
    }
  }

  lemma {:induction false} DeadlineFixed(c: Config, from: State, steps: seq<Step>, to: State)
    requires InStopAll(from) && Path(c, from, steps, to)
    ensures InStopAll(to) && to.stopBegan == from.stopBegan
    decreases |steps|
  {
    if steps != [] {
      hide Enabled, Apply, InStopAll;
      var mid := PathLast(c, from, steps, to);
      DeadlineFixed(c, from, Front(steps), mid);
      DeadlineStep(c, mid, Last(steps));
    }
  }

  lemma DeadlineStep(c: Config, s: State, step: Step)
    requires InStopAll(s) && Enabled(c, s, step)
    ensures InStopAll(Apply(c, s, step)) && Apply(c, s, step).stopBegan == s.stopBegan
  {
    hide SvcAfter, StopApply;
    match step {
      case StopAll(act) => StopShortens(c, s, act);
      case _ => OutsideFrame(c, s, step);
    }
  }

  /** From the moment stopAll begins, every service has the whole shutdown timeout: until it has passed no
      service is given up, and the order of shutdown holds without exception. */
  lemma FullTimeout(c: Config, s: State, steps: seq<Step>, to: State)
    requires Reachable(c, s) && s.pc.InStoppingHooks? && Path(c, Apply(c, s, Leave(BeginStop)), steps, to)
    requires Clock(steps) < c.shutdownTimeout
    ensures !AnyStuck(to.outcomes)
    ensures forall i :: Count(to.errs, DidNotStop(i)) == 0
    ensures to.launched <= |to.svcs|
    ensures forall i, j :: 0 <= i < j < to.launched ==> Untouched(to.svcs[i]) || FullyStopped(to.svcs[j])
  {
    StopBegins(c, s, steps, to);
    ReachableInv(c, to);
    NotStuckBefore(c, to);
    forall i
      ensures Count(to.errs, DidNotStop(i)) == 0
    {
      NoneGivenUp(c, to, i);
    }
    forall i, j | 0 <= i < j < to.launched
      ensures Untouched(to.svcs[i]) || FullyStopped(to.svcs[j])
    {
      ReverseShutdown(c, to, i, j);
    }
  }

  lemma StopBegins(c: Config, s: State, steps: seq<Step>, to: State)
    requires Reachable(c, s) && s.pc.InStoppingHooks? && Path(c, Apply(c, s, Leave(BeginStop)), steps, to)
    ensures Reachable(c, to) && InStopAll(to)
    ensures Expired(c, to) <==> c.shutdownTimeout <= Clock(steps)
  {
    var begun := Apply(c, s, Leave(BeginStop));
    assert Path(c, s, [Leave(BeginStop)], begun);
    ReachableMore(c, s, [Leave(BeginStop)], begun);
    ReachableMore(c, begun, steps, to);
    BeginFacts(c, s);
    NowAfter(c, begun, steps, to);
    DeadlineFixed(c, begun, steps, to);
  }

  lemma BeginFacts(c: Config, s: State)
    requires s.pc.InStoppingHooks?
    ensures var begun := Apply(c, s, Leave(BeginStop)); InStopAll(begun) && begun.stopBegan == s.now == begun.now
  {
  }

  lemma ReachableMore(c: Config, s: State, more: seq<Step>, to: State)
    requires Reachable(c, s) && Path(c, s, more, to)
    ensures Reachable(c, to)
  {
    var steps :| Path(c, Init(c), steps, s);
    PathConcat(c, Init(c), steps, s, more, to);
  }

  lemma NotStuckBefore(c: Config, s: State)
    requires Reachable(c, s) && !Expired(c, s)
    ensures !AnyStuck(s.outcomes)
  {
    ReachableInv(c, s);
    forall i | 0 <= i < |s.outcomes|
      ensures !Stuck(s.outcomes[i])
    {
      assert StopSvc(c, s, i, s.svcs[i], s.outcomes[i]);
    }
  }

  lemma NoneGivenUp(c: Config, s: State, i: nat)
    requires Reachable(c, s) && !AnyStuck(s.outcomes)
    ensures Count(s.errs, DidNotStop(i)) == 0
  {
    ReachableInv(c, s);
    var front := TriggerErrs(s.trigger) + StopAllErrs(s.outcomes, s.cause, s.launched, From(s));
    CountAppend(TriggerErrs(s.trigger), StopAllErrs(s.outcomes, s.cause, s.launched, From(s)), DidNotStop(i));
    CountAppend(front, if s.pc.AwaitingDone? then StopErr(s.pc.service, s.pc.stopErr) else [], DidNotStop(i));
    StopAllCount(s.outcomes, s.cause, s.launched, From(s), DidNotStop(i));
    TriggerCount(s.trigger, DidNotStop(i));
  }

  /** And no longer than that: once it has passed the main goroutine is never blocked, and returns by its own
      steps without any time passing. */
  lemma NoMoreThanTimeout(c: Config, s: State, steps: seq<Step>, to: State)
    requires Reachable(c, s) && s.pc.InStoppingHooks? && Path(c, Apply(c, s, Leave(BeginStop)), steps, to)
    requires c.shutdownTimeout <= Clock(steps)
    ensures to.pc.AwaitingStop? ==> Enabled(c, to, StopAll(StopDeadline))
    ensures to.pc.AwaitingDone? ==> Enabled(c, to, StopAll(DoneDeadline))
    ensures exists more, end :: Path(c, to, more, end) && end.pc.Returned? && Clock(more) == 0 && OnlyStopAll(more)
  {
    StopBegins(c, s, steps, to);
    DeadlineSuffices(c, to);
    ReachableInv(c, to);
    var more, end :| Path(c, to, more, end) && end.pc.Returned? && end.now == to.now && OnlyStopAll(more);
    NowAfter(c, to, more, end);
  }

  // The selects.

  /** Which cases of the serving select can be taken is what has happened: a cancelled context, a call of
      Shutdown, an exit sent to the host; nothing else ends serving. */
  lemma ServingSelect(c: Config, steps: seq<Step>, s: State)
    requires RunTo(c, steps, s) && s.pc.Serving?
    ensures Enabled(c, s, Leave(SeeCancel)) <==> CancelCtx in steps
    ensures Enabled(c, s, Leave(SeeShutdown)) <==> RequestShutdown in steps
    ensures Enabled(c, s, Leave(TakeExit)) <==> ExitsPut(steps) != []
    ensures !Enabled(c, s, Leave(SeeStartTimeout)) && !Enabled(c, s, Leave(CloseStopping))
  {
    MainReads(c, steps, s);
    hide Clock, ExitsPut, Acts, TaskRead, Inv, RunTo;
  }

  /** The readiness select: also the Readier itself, and the start timeout counted from the start of the run. */
  lemma ReadinessSelect(c: Config, steps: seq<Step>, s: State)
    requires RunTo(c, steps, s) && s.pc.AwaitingReady?
    ensures 0 < Launches(steps) <= |s.svcs|
    ensures Enabled(c, s, LaunchAll(SeeReady)) <==> BecomeReady(Launches(steps) - 1) in steps
    ensures Enabled(c, s, Leave(SeeStartTimeout)) <==> 0 < c.startTimeout <= Clock(steps)
    ensures Enabled(c, s, Leave(SeeCancel)) <==> CancelCtx in steps
    ensures Enabled(c, s, Leave(SeeShutdown)) <==> RequestShutdown in steps
    ensures Enabled(c, s, Leave(TakeExit)) <==> ExitsPut(steps) != []
    ensures !Enabled(c, s, LaunchAll(Launch))
  {
    hide SupRead, TaskRead, SvcInv, Reads, Inv, RunTo, PcInv, Acts, Clock, ExitsPut, StopResults;
    LaunchedSome(c, steps, s);
    ReadAt(c, steps, s, s.launched - 1);
  }

  lemma LaunchedSome(c: Config, steps: seq<Step>, s: State)
    requires RunTo(c, steps, s) && s.pc.AwaitingReady?
    ensures 0 < s.launched <= |c.services| == |s.svcs| && s.trigger.NoTrigger?
  {
    RunReads(c, steps, s);
  }

  /** stopAll's two selects: what Stop returned, the service's final message, or the deadline. */
  lemma StopSelect(c: Config, steps: seq<Step>, s: State, i: nat)
    requires RunTo(c, steps, s) && i < |c.services|
    ensures s.pc == AwaitingStop(i) ==> (Enabled(c, s, StopAll(TakeStop)) <==> StopResults(steps, i) != [])
    ensures s.pc.AwaitingDone? && s.pc.service == i ==>
      (Enabled(c, s, StopAll(TakeDone)) <==> Finals(Acts(steps, i)) != []) && StopResults(steps, i) == [s.pc.stopErr]
  {
    hide Acts, Finals, StopResults, RunTo;
    StopFacts(c, steps, s, i);
    FinalMessages(c, steps, s, i);
    CallResults(c, steps, s, i);
  }

  lemma CallResults(c: Config, steps: seq<Step>, s: State, i: nat)
    requires RunTo(c, steps, s) && i < |c.services|
    ensures i < |s.svcs|
    ensures s.svcs[i].stop.StopSent? || s.svcs[i].stop.StopTaken? ==> StopResults(steps, i) == [s.svcs[i].stop.err]
    ensures s.svcs[i].stop.InStop? ==> StopResults(steps, i) == []
  {
    hide SupRead, EnvRead, TaskRead, SelectRead, ExitRead, SvcInv, PcInv, RunTo, StopResults;
    ReadAt(c, steps, s, i);
  }

  lemma StopFacts(c: Config, steps: seq<Step>, s: State, i: nat)
    requires RunTo(c, steps, s) && i < |c.services|
    ensures i < |s.svcs| == |s.outcomes|
    ensures s.pc == AwaitingStop(i) ==> s.svcs[i].stop.InStop? || s.svcs[i].stop.StopSent?
    ensures s.pc.AwaitingDone? && s.pc.service == i ==>
      s.svcs[i].stop == StopTaken(s.pc.stopErr) && s.svcs[i].done == s.svcs[i].sent
  {
    RunReads(c, steps, s);
    assert StopSvc(c, s, i, s.svcs[i], s.outcomes[i]);
  }

  /** Between startup tasks: the next one begins unless the tasks' context is cancelled, which only a cancelled
      context or a call of Shutdown can bring about. */
  lemma TaskSelect(c: Config, steps: seq<Step>, s: State)
    requires RunTo(c, steps, s)
    ensures Enabled(c, s, CancelTasks) <==> CancelCtx in steps || RequestShutdown in steps
    ensures s.pc.InTasks? ==>
      && (Enabled(c, s, RunTasks(TaskBegin)) <==> TasksBegun(steps) < c.tasks && CancelTasks !in steps)
      && (Enabled(c, s, RunTasks(TasksAborted)) <==> TasksBegun(steps) < c.tasks && CancelTasks in steps)
      && (Enabled(c, s, RunTasks(TasksDone)) <==> TasksBegun(steps) == c.tasks)
  {
    hide Acts, Finals, SelectRead, ExitRead, RunTo, Clock, FailedTask;
    MainReads(c, steps, s);
  }

  /** The host never shuts down by itself. */
  lemma ShutdownHasReason(c: Config, steps: seq<Step>, s: State)
    requires RunTo(c, steps, s) && Leave(CloseStopping) in steps
    ensures
      || CancelCtx in steps || RequestShutdown in steps || FailedTask(steps).Some? || Leave(TakeExit) in steps
      || (Leave(SeeStartTimeout) in steps && 0 < c.startTimeout <= Clock(steps))
  {
    RunReads(c, steps, s);
  }

  /** Services are launched only after all startup tasks are done without failure, and past a Readier only when
      it is ready; the host is started only when all of them are. */
  lemma LaunchOrder(c: Config, steps: seq<Step>, s: State, i: nat)
    requires RunTo(c, steps, s) && i < Launches(steps)
    ensures TasksBegun(steps) == c.tasks && FailedTask(steps) == None && i < |c.services|
    ensures c.services[i].readier && (i + 1 < Launches(steps) || s.hostStarted) ==> BecomeReady(i) in steps
    ensures s.hostStarted ==> Launches(steps) == |c.services|
  {
    RunReads(c, steps, s);
    assert CallsRead(c, steps, s, i);
  }

  // The supervisors.

  /** A supervisor ends without a report only when the host is shutting down. */
  lemma QuietEnd(c: Config, steps: seq<Step>, s: State, i: nat)
    requires RunTo(c, steps, s) && i < |c.services| && EndedQuietly(Acts(steps, i))
    ensures Leave(CloseStopping) in steps
  {
    RunReads(c, steps, s);
    assert SupRead(c, steps, s, i);
  }

  /** A run of a service is measured from its launch or its latest restart to the decision about its exit. */
  lemma MeasuredRun(c: Config, steps: seq<Step>, s: State, i: nat, elapsed: int)
    requires RunTo(c, steps, s) && i < |c.services| && i < |s.svcs| && s.svcs[i].sup.phase.Decided?
    ensures Enabled(c, s, Step.Supervise(i, Decide(elapsed))) <==> elapsed == Clock(steps) - StartedAt(steps, i)
  {
    hide TaskRead, SelectRead, ExitRead, CallsRead, SvcInv, PcInv, MsgRead, RunTo;
    ReadAt(c, steps, s, i);
  }

  /** A restart waits for exactly the announced delay, counted from the decision about the exit. */
  lemma PauseKept(c: Config, steps: seq<Step>, s: State, i: nat, wild: Int64)
    requires RunTo(c, steps, s) && i < |c.services| && i < |s.svcs| && s.svcs[i].sup.phase.Waiting?
    ensures s.svcs[i].sup.reports != []
    ensures Enabled(c, s, Step.Supervise(i, Act.Restart(wild))) <==>
      s.svcs[i].sup.reports[|s.svcs[i].sup.reports| - 1].delay <= Clock(steps) - DecidedAt(steps, i)
  {
    hide TaskRead, SelectRead, ExitRead, CallsRead, SvcInv, PcInv, MsgRead, RunTo;
    ReadAt(c, steps, s, i);
  }

  // The observer events.

  /** The stop event of a service says that it timed out exactly when the joined error does; otherwise it carries
      what Stop returned or, when that was nil, the Start error that the joined error names as failed during
      shutdown. */
  lemma StopEventTellsErrors(c: Config, steps: seq<Step>, s: State, i: nat, report: StopReport)
    requires Finished(c, steps, s) && i < Launches(steps)
    ensures ServiceStopped(i, report) in s.events ==>
      (report.TimedOut? <==> Count(s.errs, DidNotStop(i)) == 1)
    ensures ServiceStopped(i, report) in s.events && report.StoppedWith? ==>
      && |StopResults(steps, i)| == 1 && |Finals(Acts(steps, i))| == 1
      && var stop, start := StopResults(steps, i)[0], Finals(Acts(steps, i))[0];
         report.err == if stop.Error? then stop
                       else if Count(s.errs, FailedInShutdown(i, start)) == 1 then start else NoError
  {
    hide Count, Finals, Acts, StopResults;
    Received(c, steps, s, i);
    ReachableRun(c, steps, s);
    StopEvent(c, s, i, report);
    ErrorsExact(c, s, DidNotStop(i));
    if s.outcomes[i].Ended? {
      ErrorsExact(c, s, FailedInShutdown(i, s.outcomes[i].startErr));
    }
  }

  lemma StopEvent(c: Config, s: State, i: nat, report: StopReport)
    requires Reachable(c, s) && s.pc.Returned? && i < s.launched <= |s.outcomes|
    ensures ServiceStopped(i, report) in s.events <==> report == ReportOf(i, s.cause, s.outcomes[i])
  {
    EventShape(c, s);
    var stops := StopAllEvents(s.outcomes, s.cause, s.launched, 0);
    StoppedInReverse(s.outcomes, s.cause, s.launched, 0);
    NoStopInLaunch(c, s.launched, s.gated, i, report);
    assert stops[s.launched - 1 - i] == ServiceStopped(i, ReportOf(i, s.cause, s.outcomes[i]));
    assert ServiceStopped(i, report) in s.events <==> ServiceStopped(i, report) in stops;
  }

  lemma {:induction false} NoStopInLaunch(c: Config, launched: nat, gated: bool, i: nat, report: StopReport)
    requires launched <= |c.services|
    ensures ServiceStopped(i, report) !in LaunchEvents(c, launched, gated)
    decreases launched
  {
    if launched > 0 {
      NoStopInLaunch(c, launched - 1, false, i, report);
    }
  }

  /** The failure event names the cause that the joined error names. */
  lemma FailureEventTellsCause(c: Config, steps: seq<Step>, s: State, i: nat, err: Err)
    requires Finished(c, steps, s)
    ensures ServiceFailed(i, err) in s.events <==> Count(s.errs, ServiceFailure(i, err)) == 1
  {
    ReachableRun(c, steps, s);
    EventShape(c, s);
    ErrorsExact(c, s, ServiceFailure(i, err));
    NoFailureInLaunch(c, s.launched, s.gated, i, err);
    NoFailureInStops(s.outcomes, s.cause, s.launched, 0, i, err);
    hide Count, LaunchEvents, StopAllEvents, Finished, RunTo;
  }

  lemma {:induction false} NoFailureInLaunch(c: Config, launched: nat, gated: bool, i: nat, err: Err)
    requires launched <= |c.services|
    ensures ServiceFailed(i, err) !in LaunchEvents(c, launched, gated)
    decreases launched
  {
    if launched > 0 {
      NoFailureInLaunch(c, launched - 1, false, i, err);
    }
  }

  lemma {:induction false} NoFailureInStops(outcomes: seq<Outcome>, cause: int, launched: nat, from: nat, i: nat, err: Err)
    requires from <= launched <= |outcomes|
    ensures ServiceFailed(i, err) !in StopAllEvents(outcomes, cause, launched, from)
    decreases launched - from
  {
    if from < launched {
      NoFailureInStops(outcomes, cause, launched, from + 1, i, err);
    }
  }

  /** A supervisor's history of exits is that of its steps: each decision with its measured time and what Start had
      returned. */
  lemma ExitsOfSteps(c: Config, steps: seq<Step>, s: State, i: nat)
    requires RunTo(c, steps, s) && i < |c.services| && c.services[i].restart.Some?
    ensures i < |s.svcs| && s.svcs[i].sup.exits == ExitsIn(Acts(steps, i))
  {
    ReadAt(c, steps, s, i);
  }

  /** A supervisor that has ended sent its exit to the host if and only if no select had found the host shutting
      down; under a policy that is exactly when the exits among its steps exhaust the policy. */
  lemma EndOfSupervisor(c: Config, steps: seq<Step>, s: State, i: nat)
    requires RunTo(c, steps, s) && i < |c.services| && i < |s.svcs| && s.svcs[i].sup.phase.Finished?
    ensures PutExit in Acts(steps, i) <==> !EndedQuietly(Acts(steps, i))
    ensures c.services[i].restart.Some? ==>
      (PutExit in Acts(steps, i) <==> Exhausted(c.services[i].restart.value, ExitsIn(Acts(steps, i))))
  {
    ReadAt(c, steps, s, i);
    ReachableRun(c, steps, s);
    if c.services[i].restart.Some? {
      ReachableInv(c, s);
      GiveUpFromInv(c.services[i].restart.value, s.svcs[i].sup);
    }
  }

  /** After stoppingCh is closed a service is restarted at most once more. */
  lemma OneLateRestart(c: Config, steps: seq<Step>, s: State, i: nat)
    requires RunTo(c, steps, s) && i < |c.services|
    ensures LateRestarts(steps, i) <= 1
  {
    ReadAt(c, steps, s, i);
    ReachableRun(c, steps, s);
    AtMostOneLateStart(c, s, i);
  }

  /** Stop is called for the launched services only, from the last one down, once each: after n calls it has been
      called for the last n. */
  lemma StopCallsInOrder(c: Config, steps: seq<Step>, s: State, i: nat)
    requires RunTo(c, steps, s) && i < |c.services|
    ensures i < |s.svcs| && StopCalls(steps) <= Launches(steps)
    ensures !s.svcs[i].stop.NotCalled? <==> Launches(steps) - StopCalls(steps) <= i < Launches(steps)
    ensures s.svcs[i].canceled <==> !s.svcs[i].stop.NotCalled?
    ensures s.pc.Returned? ==> StopCalls(steps) == Launches(steps)
  {
    RunReads(c, steps, s);
    assert StopSvc(c, s, i, s.svcs[i], s.outcomes[i]);
  }
}
