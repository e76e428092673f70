/** RunContext and stopAll as the loops they are, run against the step relation: their selects wait while the other
    goroutines take their steps, and every step taken, theirs or the main one's, is a step of the protocol. */
module HostLoop {
  import opened Common
  import opened Restart
  import opened Supervisor
  import opened Protocol
  import opened HostInvariant
  import opened HostTheorems
  import opened HostRuns
  import opened HostLaws

  lemma OneStep(c: Config, s: State, step: Step)
    requires Enabled(c, s, step)
    ensures Path(c, s, [step], Apply(c, s, step))
  {
    assert [step][1..] == [];
    assert Path(c, Apply(c, s, step), [], Apply(c, s, step));
  }

  /** No failure led to the shutdown, and every launched service stopped cleanly in time. */
  ghost predicate Undisturbed(s: State) {
    && (s.trigger.Requested? || s.trigger.TasksInterrupted?)
    && s.launched <= |s.outcomes|
    && forall i :: 0 <= i < s.launched ==> StoppedCleanly(s.outcomes[i])
  }

  class World {
    const config: Config
    var state: State
    /** What the other goroutines will try to do, in this order. */
    var script: seq<Step>
    /** The run so far. */
    ghost var log: seq<Step>

    ghost predicate Valid()
      reads this
    {
      Path(config, Init(config), log, state)
    }

    constructor (config: Config, script: seq<Step>)
      ensures Valid() && this.config == config && this.script == script && state == Init(config) && log == []
    {
      this.config := config;
      this.state := Init(config);
      this.script := script;
      this.log := [];
    }

    method Take(step: Step)
      requires Valid() && Enabled(config, state, step)
      modifies `state, `log
      ensures Valid() && state == Apply(config, old(state), step) && log == old(log) + [step]
    {
      ghost var next := Apply(config, state, step);
      OneStep(config, state, step);
      PathConcat(config, Init(config), log, state, [step], next);
      log := log + [step];
      state := Apply(config, state, step);
    }

    /** A bounded view of the invariant for the waits below. */
    lemma Bounds()
      requires Valid()
      ensures |config.services| == |state.svcs| == |state.outcomes| && state.launched <= |state.outcomes|
      ensures state.pc.StopLoop? ==> state.pc.left <= state.launched
      ensures state.pc.AwaitingStop? || state.pc.AwaitingDone? ==> state.pc.service < state.launched
    {
      ReachableInv(config, state);
    }

    lemma ErrsSoFar()
      requires Valid() && state.pc.StopLoop?
      ensures state.pc.left <= state.launched <= |state.outcomes|
      ensures state.errs == TriggerErrs(state.trigger) + StopAllErrs(state.outcomes, state.cause, state.launched, state.pc.left)
    {
      ReachableInv(config, state);
    }

    /** The other goroutines take the next step of their script. */
    method Idle()
      requires Valid() && script != []
      modifies this
      ensures Valid() && SameMain(old(state), state) && |script| < |old(script)| && old(log) <= log
    {
      var step := script[0];
      script := script[1..];
      if IsOutside(step) && Enabled(config, state, step) {
        OutsideFrame(config, state, step);
        Take(step);
      }
    }

    /** Any number of their steps fall between two of the main goroutine's. */
    method Others()
      requires Valid()
      modifies this
      ensures Valid() && SameMain(old(state), state) && |script| <= |old(script)| && old(log) <= log
    {
      while *
        invariant Valid() && SameMain(old(state), state) && |script| <= |old(script)| && old(log) <= log
        decreases |script|
      {
        if script == [] {
          break;
        }
        Idle();
      }
    }

    lemma NothingStopped()
      requires state.launched <= |state.outcomes|
      ensures StopAllErrs(state.outcomes, state.cause, state.launched, state.launched) == []
    {
    }

    /** The main goroutine is blocked: the others go on or, when they have nothing left to do, time passes. */
    method Wait()
      requires Valid()
      modifies this
      ensures Valid() && SameMain(old(state), state) && old(log) <= log
      ensures |script| < |old(script)| || (script == old(script) && Expired(config, state))
    {
      if script != [] {
        Idle();
      } else {
        var deadline := state.stopBegan + config.shutdownTimeout;
        var pause: nat := if state.now < deadline then deadline - state.now else 0;
        OutsideFrame(config, state, Tick(pause));
        Take(Tick(pause));
      }
    }

    predicate StopReturned(i: nat)
      reads this
    {
      i < |state.svcs| && state.svcs[i].stop.StopSent?
    }

    predicate StartReturned(i: nat)
      reads this
    {
      i < |state.svcs| && state.svcs[i].done != []
    }

    /** Everything stopAll leaves alone. */
    twostate predicate SameRun()
      reads this
    {
      && old(log) <= log
      && state.launched == old(state.launched) && state.trigger == old(state.trigger) && state.cause == old(state.cause)
      && |state.outcomes| == old(|state.outcomes|)
    }

    method TakeOwn(act: StopAct)
      requires Valid() && StopEnabled(config, state, act)
      modifies `state, `log
      ensures Valid() && state == StopApply(config, old(state), act) && old(log) <= log
    {
      Take(StopAll(act));
    }

    method UntilStopReturned(i: nat)
      requires Valid() && state.pc == AwaitingStop(i)
      modifies this
      ensures Valid() && old(log) <= log && SameMain(old(state), state)
      ensures StopReturned(i) || Expired(config, state)
    {
      Others();
      while !StopReturned(i) && !Expired(config, state)
        invariant Valid() && old(log) <= log && SameMain(old(state), state)
        decreases |script|, if Expired(config, state) then 0 else 1
      {
        Wait();
      }
    }

    method UntilStartReturned(i: nat, stopErr: Err)
      requires Valid() && state.pc == AwaitingDone(i, stopErr)
      modifies this
      ensures Valid() && old(log) <= log && SameMain(old(state), state)
      ensures StartReturned(i) || Expired(config, state)
    {
      Others();
      while !StartReturned(i) && !Expired(config, state)
        invariant Valid() && old(log) <= log && SameMain(old(state), state)
        decreases |script|, if Expired(config, state) then 0 else 1
      {
        Wait();
      }
    }

    /** Wait for the service's Stop. When both select cases are ready, either may be taken. */
    method AwaitStop(i: nat) returns (stopped: bool, stopErr: Err)
      requires Valid() && state.pc == AwaitingStop(i) && i < |state.outcomes|
      modifies this
      ensures Valid() && SameRun()
      ensures stopped ==> state.pc == AwaitingDone(i, stopErr) && state.outcomes == old(state.outcomes)
      ensures !stopped ==> state.pc == StopLoop(i) && state.outcomes == old(state.outcomes)[i := StuckInStop]
    {
      stopErr := NoError;
      UntilStopReturned(i);
      if {
        case StopReturned(i) =>
          stopped, stopErr := true, state.svcs[i].stop.err;
          TakeOwn(TakeStop);
        case Expired(config, state) =>
          stopped := false;
          TakeOwn(StopDeadline);
      }
    }

    /** Wait for the service's final Start result. */
    method AwaitDone(i: nat, stopErr: Err) returns (stopped: bool, startErr: Err)
      requires Valid() && state.pc == AwaitingDone(i, stopErr) && i < |state.outcomes|
      modifies this
      ensures Valid() && SameRun() && state.pc == StopLoop(i)
      ensures stopped ==> state.outcomes == old(state.outcomes)[i := Ended(stopErr, startErr)]
      ensures !stopped ==> state.outcomes == old(state.outcomes)[i := StuckInStart(stopErr)]
    {
      startErr := NoError;
      UntilStartReturned(i, stopErr);
      if {
        case StartReturned(i) =>
          stopped, startErr := true, state.svcs[i].done[0];
          TakeOwn(TakeDone);
        case Expired(config, state) =>
          stopped := false;
          TakeOwn(DoneDeadline);
      }
    }

    /** One turn of the loop: its entries are exactly what the outcome of its two waits calls for. */
    method StopService(i: nat, causeIndex: int) returns (errs: seq<Entry>)
      requires Valid() && state.pc == StopLoop(i + 1) && causeIndex == state.cause
      modifies this
      ensures Valid() && SameRun() && state.pc == StopLoop(i)
      ensures i < |state.outcomes| && state.outcomes == old(state.outcomes)[i := state.outcomes[i]]
      ensures errs == OutcomeErrs(i, state.cause, state.outcomes[i])
    {
      errs := [];
      Others();
      Bounds();
      TakeOwn(StopAct.StopService);
      var stopped, stopErr := AwaitStop(i);
      if stopped {
        if stopErr.Error? {
          errs := errs + [StopFailed(i, stopErr)];
        }
        var startErr;
        stopped, startErr := AwaitDone(i, stopErr);
        if stopped && startErr.Fails() && i != causeIndex {
          errs := errs + [FailedInShutdown(i, startErr)];
        }
      }
      if !stopped {
        errs := errs + [DidNotStop(i)];
      }
    }

    /** stopAll: from the last launched service down to the first. It always returns, and what it returns is
        what the protocol adds to the joined error. */
    method StopEverything(launched: nat, causeIndex: int) returns (errs: seq<Entry>)
      requires Valid() && state.pc == StopLoop(launched) && launched == state.launched && causeIndex == state.cause
      modifies this
      ensures Valid() && SameRun() && state.pc == StopLoop(0)
      ensures state.launched <= |state.outcomes|
      ensures errs == StopAllErrs(state.outcomes, state.cause, state.launched, 0)
      ensures state.errs == old(state.errs) + errs
    {
      hide Path, Init, StopAllErrs, TasksApply, LaunchApply, LeaveApply, StopApply, SvcAfter;
      errs := [];
      Bounds();
      ErrsSoFar();
      NothingStopped();
      var left: nat := launched;
      while left > 0
        invariant left <= state.launched <= |state.outcomes| && state.pc == StopLoop(left)
        invariant Valid() && SameRun()
        invariant errs == StopAllErrs(state.outcomes, state.cause, state.launched, left)
        invariant old(state.launched) == state.launched
      {
        ghost var before := state.outcomes;
        left := left - 1;
        var more := StopService(left, causeIndex);
        StopAllTurn(before, left, state.outcomes[left], state.cause, state.launched);
        errs := errs + more;
      }
      ErrsSoFar();
    }

    // RunContext.

    /** A task runs until the script says that it returns. */
    method RunTask() returns (result: Option<Err>)
      requires Valid()
      modifies this
      ensures Valid() && SameMain(old(state), state)
    {
      while script != []
        invariant Valid() && SameMain(old(state), state)
        decreases |script|
      {
        if script[0].RunTasks? && script[0].task.TaskEnd? {
          result := Some(script[0].task.err);
          script := script[1..];
          return;
        }
        Idle();
      }
      return None;
    }

    /** The failure is that of the task that failed among the steps, with what it returned, if one did. */
    predicate FailureIs(failure: Option<Entry>, steps: seq<Step>) {
      match FailedTask(steps)
      case None => failure == None
      case Some((k, err)) => 0 <= k && failure == Some(TaskFailed(k, err))
    }

    function TaskEntry(trigger: Trigger): Option<Entry> {
      if trigger.TaskFailure? then Some(TaskFailed(trigger.task, trigger.taskErr)) else None
    }

    lemma TaskEntryIs()
      requires Valid()
      ensures FailureIs(TaskEntry(state.trigger), log)
      ensures state.pc.InTasks? ==> !state.trigger.TaskFailure?
    {
      RunReads(config, log, state);
    }

    /** One turn of runStartupTasks. */
    method RunStartupTask(i: nat) returns (returned: bool, aborted: bool, failure: Option<Entry>)
      requires Valid() && state.pc == InTasks(i) && i < config.tasks
      modifies this
      ensures Valid() && state.launched == old(state.launched) && state.cause == old(state.cause)
      ensures state.errs == old(state.errs) + if failure.Some? then [failure.value] else []
      ensures if !returned then state.pc.InTask? && failure.None?
              else state.pc == if aborted || failure.Some? then Closing else InTasks(i + 1)
      ensures if failure.Some? then failure == TaskEntry(state.trigger) else !state.trigger.TaskFailure?
      ensures !(aborted && failure.Some?)
    {
      hide Path, Init, LaunchApply, LeaveApply, StopApply, SvcAfter;
      returned, aborted, failure := true, false, None;
      Others();
      TaskEntryIs();
      if state.tasksCanceled {
        Take(RunTasks(TasksAborted));
        return true, true, None;
      }
      Take(RunTasks(TaskBegin));
      var result := RunTask();
      if result.None? {
        return false, false, None;
      }
      var taskErr, interrupted := result.value, state.tasksCanceled;
      Take(RunTasks(TaskEnd(taskErr)));
      if taskErr.Error? {
        if taskErr.canceled && interrupted {
          return true, true, None;
        }
        return true, false, Some(TaskFailed(i, taskErr));
      }
    }

    /** runStartupTasks. Unless it is still inside a task, it says whether shutdown interrupted the tasks and
        which one failed. */
    method RunStartupTasks() returns (returned: bool, aborted: bool, failure: Option<Entry>)
      requires Valid() && state.pc == InTasks(0)
      modifies this
      ensures Valid() && state.launched == old(state.launched) && state.cause == old(state.cause)
      ensures state.errs == old(state.errs) + if failure.Some? then [failure.value] else []
      ensures if !returned then state.pc.InTask? && failure.None?
              else state.pc == if aborted || failure.Some? then Closing else Launching
      ensures FailureIs(failure, log) && !(aborted && failure.Some?)
    {
      hide Path, Init, LaunchApply, LeaveApply, StopApply, SvcAfter;
      for i := 0 to config.tasks
        invariant Valid() && state.pc == InTasks(i) && state.errs == old(state.errs)
        invariant state.launched == old(state.launched) && state.cause == old(state.cause)
      {
        returned, aborted, failure := RunStartupTask(i);
        if !returned || aborted || failure.Some? {
          TaskEntryIs();
          return;
        }
      }
      Others();
      TaskEntryIs();
      Take(RunTasks(TasksDone));
      TaskEntryIs();
      return true, false, None;
    }

    /** A case of the launch select is ready: the service, an exit, the start timeout, or a request to stop. */
    predicate StartupWakes(i: nat)
      reads this
    {
      (i < |state.svcs| && state.svcs[i].ready) || TimedOut() || Woken()
    }

    predicate TimedOut()
      reads this
    {
      0 < config.startTimeout <= state.now
    }

    /** A case of the serving select is ready. */
    predicate Woken()
      reads this
    {
      state.exits != [] || state.ctxDone || state.shutdown
    }

    method UntilStartupWakes(i: nat)
      requires Valid()
      modifies this
      ensures Valid() && SameMain(old(state), state)
    {
      while !StartupWakes(i) && script != []
        invariant Valid() && SameMain(old(state), state)
        decreases |script|
      {
        Idle();
      }
      Others();
    }

    method UntilWoken()
      requires Valid()
      modifies this
      ensures Valid() && SameMain(old(state), state)
    {
      while !Woken() && script != []
        invariant Valid() && SameMain(old(state), state)
        decreases |script|
      {
        Idle();
      }
      Others();
    }

    /** Read an exit: it becomes the cause, and its entry the first of the joined error. */
    method TakeFirstExit() returns (cause: int, entry: Entry)
      requires Valid() && LeaveEnabled(config, state, TakeExit)
      modifies this
      ensures Valid() && state == LeaveApply(config, old(state), TakeExit)
      ensures state.cause == cause && state.errs == old(state.errs) + [entry]
    {
      var exit := state.exits[0];
      Take(Leave(TakeExit));
      return exit.service, ServiceFailure(exit.service, exit.err);
    }

    /** The wait for a Readier. When several cases are ready, any of them may be taken. */
    method AwaitReady(i: nat) returns (waiting: bool, aborted: bool, cause: int, entries: seq<Entry>)
      requires Valid() && state.pc.AwaitingReady? && state.launched == i + 1 && state.cause == -1
      modifies this
      ensures Valid() && state.launched == old(state.launched)
      ensures waiting ==> state.pc.AwaitingReady?
      ensures !waiting ==> state.pc == if aborted then Closing else Launching
      ensures state.errs == old(state.errs) + entries && state.cause == cause
      ensures cause != -1 ==> aborted
    {
      waiting, aborted, cause, entries := false, true, -1, [];
      UntilStartupWakes(i);
      if {
        case i < |state.svcs| && state.svcs[i].ready =>
          aborted := false;
          Take(LaunchAll(SeeReady));
        case state.exits != [] =>
          var entry;
          cause, entry := TakeFirstExit();
          entries := [entry];
        case TimedOut() =>
          Take(Leave(SeeStartTimeout));
          entries := [NotReadyInTime(i)];
        case state.ctxDone =>
          Take(Leave(SeeCancel));
        case state.shutdown =>
          Take(Leave(SeeShutdown));
        case !StartupWakes(i) =>
          waiting := true;
      }
    }

    /** The last select: false while no case is ready. */
    method Serve() returns (woken: bool, cause: int, entries: seq<Entry>)
      requires Valid() && state.pc.Serving? && state.cause == -1
      modifies this
      ensures Valid() && state.launched == old(state.launched)
      ensures state.pc == if woken then Closing else Serving
      ensures state.errs == old(state.errs) + entries && state.cause == cause
    {
      woken, cause, entries := true, -1, [];
      UntilWoken();
      if {
        case state.ctxDone =>
          Take(Leave(SeeCancel));
        case state.shutdown =>
          Take(Leave(SeeShutdown));
        case state.exits != [] =>
          var entry;
          cause, entry := TakeFirstExit();
          entries := [entry];
        case !Woken() =>
          woken := false;
      }
    }

    /** stoppingCh is closed, the OnStopping hooks run, stopAll stops the launched services, and the host returns. */
    method Close(launched: nat, causeIndex: int) returns (errs: seq<Entry>)
      requires Valid() && state.pc.Closing? && launched == state.launched && causeIndex == state.cause
      modifies this
      ensures Valid() && state.pc.Returned? && state.errs == old(state.errs) + errs
    {
      Others();
      Take(Leave(CloseStopping));
      Others();
      Take(Leave(BeginStop));
      errs := StopEverything(launched, causeIndex);
      Others();
      Take(StopAll(Return));
    }

    lemma Verdict()
      requires Valid() && state.pc.Returned?
      ensures state.errs == [] <==> Undisturbed(state)
      ensures state.errs == [] <==> WellRun(log)
    {
      NilIffClean(config, state);
      NilIff(config, log, state);
    }

    /** RunContext. None when the script ends while it is inside a task or waits in one of its selects;
        otherwise the run is over and the errors it has collected are those of the protocol. */
    method RunContext() returns (result: Option<seq<Entry>>)
      requires Valid() && state == Init(config)
      modifies this
      ensures Valid()
      ensures result.None? ==> state.pc.InTask? || state.pc.AwaitingReady? || state.pc.Serving?
      ensures result.Some? ==> state.pc.Returned? && result.value == state.errs
      ensures result == Some([]) <==> state.pc.Returned? && Undisturbed(state)
      ensures result == Some([]) <==> state.pc.Returned? && WellRun(log)
    {
      var errs, causeIndex, launched, startupAborted: bool := [], -1, 0, false;
      if config.tasks > 0 {
        var returned, aborted, failure := RunStartupTasks();
        if !returned {
          return None;
        }
        if failure.Some? {
          errs := errs + [failure.value];
        }
        startupAborted := aborted || failure.Some?;
      } else {
        Others();
        Take(RunTasks(TasksDone));
      }
      Bounds();
      while launched < |config.services| && !startupAborted
        invariant Valid() && launched == state.launched && errs == state.errs && causeIndex == state.cause
        invariant launched <= |config.services| == |state.svcs|
        invariant !startupAborted ==> causeIndex == -1
        invariant state.pc == if startupAborted then Closing else Launching
        decreases |config.services| - launched
      {
        var i := launched;
        Others();
        Take(LaunchAll(Launch));
        launched := launched + 1;
        if config.services[i].readier {
          var waiting, aborted, cause, entries := AwaitReady(i);
          if waiting {
            return None;
          }
          errs, causeIndex, startupAborted := errs + entries, cause, aborted;
          Bounds();
        }
      }
      if !startupAborted {
        Others();
        Take(LaunchAll(AllLaunched));
        var woken, cause, entries := Serve();
        if !woken {
          return None;
        }
        errs, causeIndex := errs + entries, cause;
      }
      var more := Close(launched, causeIndex);
      Verdict();
      return Some(errs + more);
    }

    // supervise, with its clock and its channels.

    /** The i-th service has been launched, and its supervisor is at this point of its loop. */
    predicate At(i: nat, sup: Sup)
      reads this
    {
      i < state.launched && i < |state.svcs| == |config.services| && state.svcs[i].sup == sup
    }

    /** Its clock reading and its messages. */
    twostate predicate SameMarkAndSent(i: nat)
      reads this
    {
      && i < old(|state.svcs|) && i < |state.svcs|
      && state.svcs[i].mark == old(state.svcs[i].mark) && state.svcs[i].sent == old(state.svcs[i].sent)
    }

    /** Everyone but the i-th supervisor takes the next step of the script, the main goroutine included. */
    method IdleBeside(i: nat)
      requires Valid() && script != [] && i < |state.svcs| && At(i, state.svcs[i].sup)
      modifies this
      ensures Valid() && At(i, old(state.svcs[i].sup)) && SameMarkAndSent(i)
      ensures old(state.now) <= state.now && |script| < |old(script)|
    {
      hide Path, Init, TasksApply, LaunchApply, LeaveApply, StopApply, SvcAfter;
      var step := script[0];
      script := script[1..];
      if !(step.Supervise? && step.service == i) && Enabled(config, state, step) {
        OthersStep(config, state, step, i);
        Take(step);
      }
    }

    method OthersBeside(i: nat)
      requires Valid() && i < |state.svcs| && At(i, state.svcs[i].sup)
      modifies this
      ensures Valid() && At(i, old(state.svcs[i].sup)) && SameMarkAndSent(i)
      ensures old(state.now) <= state.now && |script| <= |old(script)|
    {
      while *
        invariant Valid() && At(i, old(state.svcs[i].sup)) && SameMarkAndSent(i)
        invariant old(state.now) <= state.now && |script| <= |old(script)|
        decreases |script|
      {
        if script == [] {
          break;
        }
        IdleBeside(i);
      }
    }

    /** The service runs until the script says that its Start returns. */
    method RunService(i: nat) returns (result: Option<Err>)
      requires Valid() && i < |state.svcs| && At(i, state.svcs[i].sup)
      modifies this
      ensures Valid() && At(i, old(state.svcs[i].sup)) && SameMarkAndSent(i)
      ensures old(state.now) <= state.now
      ensures result.Some? ==> |script| < |old(script)|
    {
      while script != []
        invariant Valid() && At(i, old(state.svcs[i].sup)) && SameMarkAndSent(i)
        invariant old(state.now) <= state.now && |script| <= |old(script)|
        decreases |script|
      {
        if script[0].Supervise? && script[0].service == i && script[0].act.StartReturns? {
          result := Some(script[0].act.err);
          script := script[1..];
          return;
        }
        IdleBeside(i);
      }
      return None;
    }

    /** The pause before a restart: until shutdown is seen or the timer fires. */
    method Pause(i: nat)
      requires Valid() && i < |state.svcs| && At(i, state.svcs[i].sup)
      modifies this
      ensures Valid() && At(i, old(state.svcs[i].sup)) && SameMarkAndSent(i)
      ensures |script| <= |old(script)|
    {
      while !StopSeen(state, state.svcs[i]) && state.now < state.svcs[i].mark + state.svcs[i].sup.delay && script != []
        invariant Valid() && At(i, old(state.svcs[i].sup)) && SameMarkAndSent(i)
        invariant |script| <= |old(script)|
        decreases |script|
      {
        IdleBeside(i);
      }
      OthersBeside(i);
    }

    /** One step of the i-th supervisor. */
    method Act(i: nat, act: Act)
      requires Valid() && i < |state.svcs| && At(i, state.svcs[i].sup)
      requires Can(state.svcs[i].sup, act) && Unblocked(config, state, state.svcs[i], act)
      modifies `state, `log
      ensures Valid() && At(i, Do(config.services[i].restart, old(state.svcs[i].sup), act))
      ensures state.now == old(state.now)
      ensures !act.Restart? && !state.svcs[i].sup.phase.Waiting? ==> state.svcs[i].mark == old(state.svcs[i].mark)
      ensures state.svcs[i].sent
              == old(state.svcs[i].sent) + if act.PutDone? then [old(state.svcs[i].sup.phase.msg)] else []
    {
      Take(Step.Supervise(i, act));
    }

    lemma CanSend(i: nat)
      requires Valid() && i < |config.services|
      ensures i < |state.svcs|
      ensures state.svcs[i].sup.phase.SendDone? ==> Unblocked(config, state, state.svcs[i], PutDone)
      ensures state.svcs[i].sup.phase.SendExit? ==> Unblocked(config, state, state.svcs[i], PutExit)
    {
      SendsNeverBlock(config, state, i);
    }

    lemma NothingSent(i: nat)
      requires Valid() && i < |config.services|
      ensures i < |state.svcs| && (state.svcs[i].sup.phase.SendDone? ==> state.svcs[i].sent == [])
    {
      ReachableInv(config, state);
      assert SvcInv(config.services[i].restart, i < state.launched, state.stopping, state.svcs[i]);
    }

    /** The final sends: done, and exits when the exit should stop the host. Neither ever waits. */
    method Send(i: nat, msg: Err, report: bool)
      requires Valid() && i < |state.svcs| && At(i, state.svcs[i].sup) && state.svcs[i].sup.phase == SendDone(msg, report)
      modifies this
      ensures Valid() && At(i, old(state.svcs[i].sup).(phase := Finished(report))) && |script| <= |old(script)|
      ensures state.svcs[i].sent == [msg]
    {
      OthersBeside(i);
      CanSend(i);
      NothingSent(i);
      Act(i, PutDone);
      if report {
        OthersBeside(i);
        CanSend(i);
        Act(i, PutExit);
      }
    }

    /** A run of the service, until its exit has to be decided on; the goroutine ends here when shutdown is seen. */
    method AwaitExit(i: nat) returns (exited: bool, ended: bool, elapsed: int, err: Err)
      requires Valid() && i < |state.svcs| && At(i, state.svcs[i].sup) && state.svcs[i].sup.phase.Running?
      modifies this
      ensures Valid() && i < |state.svcs| && At(i, state.svcs[i].sup)
      ensures exited ==>
        && state.svcs[i].sup == old(state.svcs[i].sup).(phase := Decided(err))
        && elapsed == state.now - state.svcs[i].mark && |script| < |old(script)|
      ensures !exited ==> if ended then state.svcs[i].sup.phase.Finished? else state.svcs[i].sup.phase.Running?
      ensures !exited && ended ==> state.svcs[i].sent == [err]
    {
      hide Path, Init, Apply;
      exited, ended, elapsed, err := false, false, 0, NoError;
      var result := RunService(i);
      if result.None? {
        return;
      }
      err := result.value;
      Act(i, StartReturns(err));
      OthersBeside(i);
      if StopSeen(state, state.svcs[i]) {
        Act(i, SeeStop);
        Send(i, err, false);
        ended := true;
        return;
      }
      Act(i, Proceed);
      OthersBeside(i);
      exited, elapsed := true, state.now - state.svcs[i].mark;
    }

    /** The wait before a restart and the delay for the next one. When shutdown is seen and the timer has fired,
        either may win. */
    method AwaitRestart(i: nat, p: Policy, delay: int) returns (restarted: bool, ended: bool, next: int)
      requires Valid() && i < |state.svcs| && At(i, state.svcs[i].sup) && config.services[i].restart == Some(p)
      requires state.svcs[i].sup.phase.Waiting? && state.svcs[i].sup.delay == delay
      modifies this
      ensures Valid() && i < |state.svcs| && At(i, state.svcs[i].sup) && |script| <= |old(script)|
      ensures restarted ==> state.svcs[i].sup == old(state.svcs[i].sup).(phase := Running, delay := next)
      ensures !restarted ==> if ended then state.svcs[i].sup.phase.Finished? else state.svcs[i].sup.phase.Waiting?
      ensures !restarted && ended ==> state.svcs[i].sent == [NoError]
    {
      hide Path, Init, Apply;
      restarted, ended, next := false, false, delay;
      Pause(i);
      if {
        case StopSeen(state, state.svcs[i]) =>
          Act(i, StopWait);
          Send(i, NoError, false);
          ended := true;
        case state.now >= state.svcs[i].mark + delay =>
          var wild: Int64 := *;
          Act(i, Restart(wild));
          restarted, next := true, NextDelay(p, delay, wild);
        case !StopSeen(state, state.svcs[i]) && state.now < state.svcs[i].mark + delay =>
      }
    }

    /** supervise. `ended` when the goroutine has ended, and not when the script ends while the service runs or the
        supervisor pauses. Its own counters are those of the protocol's supervisor throughout, and `final`, its
        one message, is what the steps of the run call for. */
    method SuperviseService(i: nat) returns (ended: bool, final: Err)
      requires Valid() && i < |config.services| && At(i, Launched(config.services[i].restart))
      modifies this
      ensures Valid() && i < |state.svcs| && At(i, state.svcs[i].sup)
      ensures if ended then state.svcs[i].sup.phase.Finished?
              else state.svcs[i].sup.phase.Running? || state.svcs[i].sup.phase.Waiting?
      ensures ended ==> state.svcs[i].sent == [final] && Finals(Acts(log, i)) == [final]
    {
      ended, final := SuperviseLoop(i);
      FinalMessages(config, log, state, i);
    }

    method SuperviseLoop(i: nat) returns (ended: bool, final: Err)
      requires Valid() && i < |config.services| && At(i, Launched(config.services[i].restart))
      modifies this
      ensures Valid() && i < |state.svcs| && At(i, state.svcs[i].sup)
      ensures if ended then state.svcs[i].sup.phase.Finished?
              else state.svcs[i].sup.phase.Running? || state.svcs[i].sup.phase.Waiting?
      ensures ended ==> state.svcs[i].sent == [final]
    {
      hide Path, Init, Apply;
      final := NoError;
      var pol := config.services[i].restart;
      var attempts: int, delay: int := 0, if pol.Some? then pol.value.initialDelay else 0;
      while true
        invariant Valid() && i < |state.svcs| && At(i, state.svcs[i].sup)
        invariant state.svcs[i].sup.phase.Running?
        invariant state.svcs[i].sup.attempts == attempts && state.svcs[i].sup.delay == delay
        decreases |script|
      {
        var exited, elapsed, err;
        exited, ended, elapsed, err := AwaitExit(i);
        if !exited {
          final := err;
          return;
        }
        Act(i, Decide(elapsed));
        if pol.None? {
          Send(i, err, true);
          return true, err;
        }
        var p := pol.value;
        if elapsed >= p.resetAfter {
          attempts := 0;
          delay := p.initialDelay;
        }
        attempts := attempts + 1;
        if p.maxAttempts > 0 && attempts > p.maxAttempts {
          Send(i, err, true);
          return true, err;
        }
        var restarted;
        restarted, ended, delay := AwaitRestart(i, p, delay);
        if !restarted {
          final := NoError;
          return;
        }
      }
    }
  }
}
