/** The restart loop of one service, without clocks or channels: the local part of `supervise`. */
module Supervisor {
  import opened Common
  import opened Restart

  /** Where the supervising goroutine stands. `report` says that the exit also goes to the host's exits channel. */
  datatype Phase =
    | Idle
    | Running
    | Exited(err: Err)
    | Decided(err: Err)
    | Waiting
    | SendDone(msg: Err, report: bool)
    | SendExit(err: Err)
    | Finished(report: bool)

  /** One exit that reached the restart decision, with the running time measured there. */
  datatype Exit = Exit(elapsed: int, err: Err)

  /** The arguments of one ServiceRestarting event. */
  datatype Restarting = Restarting(attempt: int, delay: int, err: Err)

  /** `exits` and `reports` are histories; the code keeps only `attempts` and `delay`. */
  datatype Sup = Sup(phase: Phase, attempts: int, delay: int, exits: seq<Exit>, reports: seq<Restarting>)

  datatype Act =
    | StartReturns(err: Err)
    | SeeStop              // the select after Start finds the context or stoppingCh done
    | Proceed              // ... or takes its default
    | Decide(elapsed: int)
    | StopWait             // the select around time.After finds the context or stoppingCh done
    | Restart(wild: Int64)  // ... or takes the timer; see NextDelay
    | PutDone
    | PutExit

  const NOT_LAUNCHED := Sup(Idle, 0, 0, [], [])

  function Launched(pol: Option<Policy>): Sup {
    Sup(Running, 0, if pol.Some? then pol.value.initialDelay else 0, [], [])
  }

  predicate Can(sup: Sup, act: Act) {
    match act
    case StartReturns(_) => sup.phase.Running?
    case SeeStop => sup.phase.Exited?
    case Proceed => sup.phase.Exited?
    case Decide(_) => sup.phase.Decided?
    case StopWait => sup.phase.Waiting?
    case Restart(_) => sup.phase.Waiting?
    case PutDone => sup.phase.SendDone?
    case PutExit => sup.phase.SendExit?
  }

  function Do(pol: Option<Policy>, sup: Sup, act: Act): Sup
    requires Can(sup, act)
  {
    match act
    case StartReturns(err) => sup.(phase := Exited(err))
    case SeeStop => sup.(phase := SendDone(sup.phase.err, false))
    case Proceed => sup.(phase := Decided(sup.phase.err))
    case Decide(elapsed) => if pol.None? then sup.(phase := SendDone(sup.phase.err, true)) else DecideWith(pol.value, sup, elapsed)
    case StopWait => sup.(phase := SendDone(NoError, false))
    case Restart(wild) =>
      sup.(phase := Running, delay := if pol.Some? then NextDelay(pol.value, sup.delay, wild) else sup.delay)
    case PutDone => sup.(phase := if sup.phase.report then SendExit(sup.phase.msg) else Finished(false))
    case PutExit => sup.(phase := Finished(true))
  }

  function DecideWith(p: Policy, sup: Sup, elapsed: int): Sup
    requires sup.phase.Decided?
  {
    var err := sup.phase.err;
    var reset := elapsed >= p.resetAfter;
    var attempts := (if reset then 0 else sup.attempts) + 1;
    var delay := if reset then p.initialDelay else sup.delay;
    var exits := sup.exits + [Exit(elapsed, err)];
    if p.maxAttempts > 0 && attempts > p.maxAttempts then
      Sup(SendDone(err, true), attempts, delay, exits, sup.reports)
    else
      Sup(Waiting, attempts, delay, exits, sup.reports + [Restarting(attempts, delay, err)])
  }

  ghost predicate LoopPath(pol: Option<Policy>, from: Sup, acts: seq<Act>, to: Sup)
    decreases acts
  {
    if acts == [] then from == to
    else Can(from, acts[0]) && LoopPath(pol, Do(pol, from, acts[0]), acts[1..], to)
  }

  lemma {:induction false} LoopAppend(pol: Option<Policy>, from: Sup, acts: seq<Act>, mid: Sup, act: Act)
    requires LoopPath(pol, from, acts, mid) && Can(mid, act)
    ensures LoopPath(pol, from, acts + [act], Do(pol, mid, act))
    decreases acts
  {
    if acts == [] {
    } else {
      LoopAppend(pol, Do(pol, from, acts[0]), acts[1..], mid, act);
      assert (acts + [act])[1..] == acts[1..] + [act];
    }
  }

  // What the acts say.

  /** The result of the latest run of the service. */
  function LastResult(acts: seq<Act>): Err {
    if acts == [] then NoError
    else
      var last := acts[|acts| - 1];
      if last.StartReturns? then last.err else LastResult(acts[..|acts| - 1])
  }

  /** The exits that were decided on: each with the time measured and what Start had returned. */
  function ExitsIn(acts: seq<Act>): seq<Exit> {
    if acts == [] then []
    else
      var front, last := acts[..|acts| - 1], acts[|acts| - 1];
      ExitsIn(front) + if last.Decide? then [Exit(last.elapsed, LastResult(front))] else []
  }

  // Streaks: the exits counted together by the attempt counter.

  /** A streak starts at the first exit or at the latest one whose run lasted at least `reset`. */
  ghost predicate StreakStart(exits: seq<Exit>, reset: int, start: nat) {
    && start < |exits|
    && (start == 0 || exits[start].elapsed >= reset)
    && forall k :: start < k < |exits| ==> exits[k].elapsed < reset
  }

  function Streak(exits: seq<Exit>, reset: int): nat {
    if exits == [] then 0
    else if exits[|exits| - 1].elapsed >= reset then 1
    else Streak(exits[..|exits| - 1], reset) + 1
  }

  lemma {:induction false} StreakFromStart(exits: seq<Exit>, reset: int, start: nat)
    requires StreakStart(exits, reset, start)
    ensures Streak(exits, reset) == |exits| - start
  {
    var last := |exits| - 1;
    if start < last {
      StreakFromStart(exits[..last], reset, start);
    } else if start == 0 {
      assert exits[..0] == [];
    }
  }

  /** The counter's value is the length of the one streak that ends at the latest exit. */
  lemma {:induction false} StreakStarts(exits: seq<Exit>, reset: int) returns (start: nat)
    requires exits != []
    ensures StreakStart(exits, reset, start)
    ensures Streak(exits, reset) == |exits| - start
  {
    var last := |exits| - 1;
    if exits[last].elapsed >= reset || last == 0 {
      start := last;
    } else {
      start := StreakStarts(exits[..last], reset);
    }
    StreakFromStart(exits, reset, start);
  }

  // The give-up law.

  ghost predicate Exhausted(p: Policy, exits: seq<Exit>) {
    p.maxAttempts > 0 && Streak(exits, p.resetAfter) > p.maxAttempts
  }

  ghost predicate NeverExhausted(p: Policy, exits: seq<Exit>) {
    forall k :: 0 <= k <= |exits| ==> !Exhausted(p, exits[..k])
  }

  /** The exit has gone or will go to the host's exits channel. */
  predicate Reports(sup: Sup) {
    match sup.phase
    case SendDone(_, report) => report
    case SendExit(_) => true
    case Finished(report) => report
    case _ => false
  }

  ghost predicate CounterInv(p: Policy, sup: Sup) {
    var streak := Streak(sup.exits, p.resetAfter);
    match sup.phase
    case Idle => sup == NOT_LAUNCHED
    case Running => sup.attempts == streak && DelayAfter(p, streak, sup.delay)
    case Exited(_) => sup.attempts == streak && DelayAfter(p, streak, sup.delay)
    case Decided(_) => sup.attempts == streak && DelayAfter(p, streak, sup.delay)
    case Waiting => sup.attempts == streak && 0 < streak && DelayAfter(p, streak - 1, sup.delay)
    case _ => true
  }

  ghost predicate GiveUpInv(p: Policy, sup: Sup) {
    if Reports(sup) then
      && sup.exits != []
      && Exhausted(p, sup.exits)
      && NeverExhausted(p, sup.exits[..|sup.exits| - 1])
      && Announced(p, sup.reports, sup.exits[..|sup.exits| - 1])
    else
      && NeverExhausted(p, sup.exits)
      && Announced(p, sup.reports, sup.exits)
  }

  /** What ServiceRestarting says about the latest of these exits: its streak length, a delay after one restart
      fewer, and its error. */
  ghost predicate Announces(p: Policy, report: Restarting, exits: seq<Exit>)
    requires exits != []
  {
    var streak := Streak(exits, p.resetAfter);
    && 1 <= streak && report.attempt == streak && DelayAfter(p, streak - 1, report.delay)
    && report.err == exits[|exits| - 1].err
  }

  /** One event for each exit that was followed by a restart wait. */
  ghost predicate Announced(p: Policy, reports: seq<Restarting>, exits: seq<Exit>)
    decreases |exits|
  {
    && |reports| == |exits|
    && (exits == [] || (
          var last := |exits| - 1;
          Announces(p, reports[last], exits) && Announced(p, reports[..last], exits[..last])))
  }

  ghost predicate LoopInv(pol: Option<Policy>, sup: Sup) {
    match pol
    case None => sup.exits == [] && sup.reports == [] && !sup.phase.Waiting?
    case Some(p) => CounterInv(p, sup) && GiveUpInv(p, sup)
  }

  lemma LoopInvInit(pol: Option<Policy>)
    ensures LoopInv(pol, NOT_LAUNCHED)
    ensures LoopInv(pol, Launched(pol))
  {
    if pol.Some? {
      DelayAfterNone(pol.value);
    }
  }

  lemma LoopInvStep(pol: Option<Policy>, sup: Sup, act: Act)
    requires LoopInv(pol, sup) && Can(sup, act)
    ensures LoopInv(pol, Do(pol, sup, act))
  {
    if pol.Some? {
      match act {
        case Decide(elapsed) => InvDecide(pol.value, sup, elapsed);
        case Restart(wild) => DelayAfterOneMore(pol.value, sup.attempts - 1, sup.delay, wild);
        case _ =>
      }
    }
  }

  lemma InvDecide(p: Policy, sup: Sup, elapsed: int)
    requires LoopInv(Some(p), sup) && sup.phase.Decided?
    ensures LoopInv(Some(p), DecideWith(p, sup, elapsed))
  {
    var next := DecideWith(p, sup, elapsed);
    var last := Exit(elapsed, sup.phase.err);
    assert next.exits == sup.exits + [last];
    assert next.exits[..|next.exits| - 1] == sup.exits;
    NeverExhaustedAppend(p, sup.exits, last);
    DelayAfterNone(p);
    if next.phase.Waiting? {
      assert next.reports[..|sup.reports|] == sup.reports;
    }
  }

  lemma NeverExhaustedAppend(p: Policy, exits: seq<Exit>, last: Exit)
    requires NeverExhausted(p, exits)
    ensures NeverExhausted(p, exits + [last]) <==> !Exhausted(p, exits + [last])
  {
    var all := exits + [last];
    assert all[..|all|] == all;
    forall k | 0 <= k <= |exits|
      ensures all[..k] == exits[..k] && !Exhausted(p, all[..k])
    {
    }
  }

  lemma {:induction false} LoopInvPath(pol: Option<Policy>, from: Sup, acts: seq<Act>, to: Sup)
    requires LoopInv(pol, from) && LoopPath(pol, from, acts, to)
    ensures LoopInv(pol, to)
    decreases acts
  {
    if acts != [] {
      LoopInvStep(pol, from, acts[0]);
      LoopInvPath(pol, Do(pol, from, acts[0]), acts[1..], to);
    }
  }

  /** Over every run of the loop: the exit goes to the host exactly when a streak first grows past
      MaxAttempts, and every restart is announced with its streak length and backoff delay. */
  lemma GiveUpLaw(p: Policy, acts: seq<Act>, sup: Sup)
    requires LoopPath(Some(p), Launched(Some(p)), acts, sup)
    ensures GivesUpOnTime(p, sup) && AnnouncesEachRestart(p, sup)
    ensures Reports(sup) ==> Streak(sup.exits, p.resetAfter) == p.maxAttempts + 1
    ensures p.maxAttempts == 0 ==> !Reports(sup)
  {
    LoopInvInit(Some(p));
    LoopInvPath(Some(p), Launched(Some(p)), acts, sup);
    GiveUpFromInv(p, sup);
  }

  /** The exit is reported iff the latest exit exhausts the policy, and no earlier one did. */
  ghost predicate GivesUpOnTime(p: Policy, sup: Sup) {
    && (Reports(sup) <==> Exhausted(p, sup.exits))
    && forall k :: 0 <= k < |sup.exits| ==> !Exhausted(p, sup.exits[..k])
  }

  ghost predicate AnnouncesEachRestart(p: Policy, sup: Sup) {
    && |sup.reports| == (if Reports(sup) then |sup.exits| - 1 else |sup.exits|)
    && forall k :: 0 <= k < |sup.reports| ==> k < |sup.exits| && Announces(p, sup.reports[k], sup.exits[..k + 1])
  }

  lemma GiveUpFromInv(p: Policy, sup: Sup)
    requires LoopInv(Some(p), sup)
    ensures GivesUpOnTime(p, sup) && AnnouncesEachRestart(p, sup)
    ensures Reports(sup) ==> Streak(sup.exits, p.resetAfter) == p.maxAttempts + 1
  {
    GiveUpLength(p, sup);
    hide Streak, Exhausted, Announces, CounterInv;
    var n := |sup.exits|;
    assert sup.exits[..n] == sup.exits;
    if Reports(sup) {
      var before := sup.exits[..n - 1];
      AnnouncedAt(p, sup.reports, before);
      assert before[..n - 1] == before;
      assert !Exhausted(p, before);
      forall k | 0 <= k < n
        ensures !Exhausted(p, sup.exits[..k])
      {
        assert before[..k] == sup.exits[..k];
      }
      forall k | 0 <= k < n - 1
        ensures Announces(p, sup.reports[k], sup.exits[..k + 1])
      {
        assert before[..k + 1] == sup.exits[..k + 1];
      }
    } else {
      AnnouncedAt(p, sup.reports, sup.exits);
    }
  }

  lemma GiveUpLength(p: Policy, sup: Sup)
    requires LoopInv(Some(p), sup)
    ensures Reports(sup) ==> Streak(sup.exits, p.resetAfter) == p.maxAttempts + 1
  {
    if Reports(sup) {
      var before := sup.exits[..|sup.exits| - 1];
      assert before[..|before|] == before && !Exhausted(p, before);
    }
  }

  lemma {:induction false} AnnouncedAt(p: Policy, reports: seq<Restarting>, exits: seq<Exit>)
    requires Announced(p, reports, exits)
    ensures |reports| == |exits|
    ensures forall k :: 0 <= k < |exits| ==> Announces(p, reports[k], exits[..k + 1])
    decreases |exits|
  {
    if exits != [] {
      var last := |exits| - 1;
      AnnouncedAt(p, reports[..last], exits[..last]);
      assert exits[..last + 1] == exits;
      forall k | 0 <= k < last
        ensures Announces(p, reports[k], exits[..k + 1])
      {
        assert exits[..last][..k + 1] == exits[..k + 1] && reports[..last][k] == reports[k];
      }
    }
  }

  // One turn of the loop.

  /** What one turn of the loop meets: how Start ends, and what the two selects find; `wild` is
      for NextDelay. */
  datatype Round = Round(elapsed: int, err: Err, stopAtExit: bool, stopInWait: bool, wild: Int64)

  datatype Verdict =
    | StillRunning
    | Stopped(final: Err)
    | GaveUp(final: Err)

  ghost predicate Restarts(pol: Option<Policy>, rounds: seq<Round>, k: nat)
    requires k < |rounds|
  {
    && !rounds[k].stopAtExit && !rounds[k].stopInWait
    && pol.Some? && !Exhausted(pol.value, ExitsOf(rounds[..k + 1]))
  }

  /** What the round that ends the loop leaves to be sent on done, and whether the exit also goes to the host. */
  ghost function VerdictOf(pol: Option<Policy>, rounds: seq<Round>, k: nat): Verdict
    requires k < |rounds|
  {
    if rounds[k].stopAtExit then Stopped(rounds[k].err)
    else if pol.None? || Exhausted(pol.value, ExitsOf(rounds[..k + 1])) then GaveUp(rounds[k].err)
    else Stopped(NoError)
  }

  ghost function ExitsOf(rounds: seq<Round>): seq<Exit> {
    seq(|rounds|, i requires 0 <= i < |rounds| => Exit(rounds[i].elapsed, rounds[i].err))
  }

  lemma ExitsOfAppend(rounds: seq<Round>, k: nat)
    requires k < |rounds|
    ensures ExitsOf(rounds[..k + 1]) == ExitsOf(rounds[..k]) + [Exit(rounds[k].elapsed, rounds[k].err)]
  {
  }

  /** The steps of one turn, from a running service to the end of the turn. */
  lemma Turn(pol: Option<Policy>, sup: Sup, round: Round) returns (acts: seq<Act>, next: Sup)
    requires sup.phase.Running? && LoopInv(pol, sup)
    ensures LoopPath(pol, sup, acts, next) && LoopInv(pol, next)
    ensures next == TurnEnd(pol, sup, round)
  {
    var s1 := Do(pol, sup, StartReturns(round.err));
    LoopInvStep(pol, sup, StartReturns(round.err));
    if round.stopAtExit {
      acts, next := [StartReturns(round.err), SeeStop], Do(pol, s1, SeeStop);
      LoopInvStep(pol, s1, SeeStop);
      assert acts[1..] == [SeeStop];
      LoopOne(pol, s1, SeeStop);
    } else {
      var s2 := Do(pol, s1, Proceed);
      LoopInvStep(pol, s1, Proceed);
      var s3 := Do(pol, s2, Decide(round.elapsed));
      LoopInvStep(pol, s2, Decide(round.elapsed));
      acts, next := [StartReturns(round.err), Proceed, Decide(round.elapsed)], s3;
      LoopOne(pol, s2, Decide(round.elapsed));
      assert acts[1..] == [Proceed, Decide(round.elapsed)] && acts[1..][1..] == [Decide(round.elapsed)];
      assert LoopPath(pol, s1, acts[1..], s3);
      if s3.phase.Waiting? {
        var act := if round.stopInWait then StopWait else Restart(round.wild);
        LoopAppend(pol, sup, acts, s3, act);
        LoopInvStep(pol, s3, act);
        acts, next := acts + [act], Do(pol, s3, act);
      }
    }
  }

  /** One more turn of a run, in terms of the streak it ends. */
  lemma NextTurn(pol: Option<Policy>, acts: seq<Act>, sup: Sup, round: Round) returns (all: seq<Act>, next: Sup)
    requires sup.phase.Running? && LoopPath(pol, Launched(pol), acts, sup)
    ensures LoopPath(pol, Launched(pol), all, next)
    ensures next == TurnEnd(pol, sup, round)
    ensures pol.Some? ==>
      var p, exits := pol.value, sup.exits + [Exit(round.elapsed, round.err)];
      (if round.elapsed >= p.resetAfter then 0 else sup.attempts) + 1 == Streak(exits, p.resetAfter)
  {
    LoopInvInit(pol);
    LoopInvPath(pol, Launched(pol), acts, sup);
    var turn;
    turn, next := Turn(pol, sup, round);
    LoopConcat(pol, Launched(pol), acts, sup, turn, next);
    all := acts + turn;
    if pol.Some? {
      var exits := sup.exits + [Exit(round.elapsed, round.err)];
      assert exits[..|exits| - 1] == sup.exits;
    }
  }

  lemma LoopOne(pol: Option<Policy>, from: Sup, act: Act)
    requires Can(from, act)
    ensures LoopPath(pol, from, [act], Do(pol, from, act))
  {
  }

  /** Where a turn ends. */
  ghost function TurnEnd(pol: Option<Policy>, sup: Sup, round: Round): Sup
    requires sup.phase.Running?
  {
    if round.stopAtExit then sup.(phase := SendDone(round.err, false))
    else if pol.None? then sup.(phase := SendDone(round.err, true))
    else
      var s := DecideWith(pol.value, sup.(phase := Decided(round.err)), round.elapsed);
      if !s.phase.Waiting? then s
      else if round.stopInWait then s.(phase := SendDone(NoError, false))
      else s.(phase := Running, delay := NextDelay(pol.value, s.delay, round.wild))
  }

  lemma {:induction false} LoopConcat(pol: Option<Policy>, from: Sup, acts: seq<Act>, mid: Sup, more: seq<Act>, to: Sup)
    requires LoopPath(pol, from, acts, mid) && LoopPath(pol, mid, more, to)
    ensures LoopPath(pol, from, acts + more, to)
    decreases acts
  {
    if acts == [] {
      assert acts + more == more;
    } else {
      LoopConcat(pol, Do(pol, from, acts[0]), acts[1..], mid, more, to);
      assert (acts + more)[1..] == acts[1..] + more;
    }
  }

  // The announced delays.

  predicate WithinBounds(p: Policy, sup: Sup) {
    forall k :: 0 <= k < |sup.reports| ==> p.initialDelay <= sup.reports[k].delay <= p.maxDelay
  }

  /** When every product that can come up fits, an announced delay is the backoff of its attempt, and never
      shorter than the one before it in the same streak. */
  lemma AnnouncedDelays(p: Policy, acts: seq<Act>, sup: Sup)
    requires Accepted(p) && Safe(p) && LoopPath(Some(p), Launched(Some(p)), acts, sup)
    ensures WithinBounds(p, sup)
    ensures forall k :: 0 <= k < |sup.reports| ==> 1 <= sup.reports[k].attempt
    ensures p.factor.Finite? ==>
      forall k :: 0 <= k < |sup.reports| ==> sup.reports[k].delay == Backoff(p, sup.reports[k].attempt - 1)
    ensures |sup.reports| <= |sup.exits|
    ensures forall k :: 0 < k < |sup.reports| && sup.exits[k].elapsed < p.resetAfter ==>
      sup.reports[k - 1].delay <= sup.reports[k].delay
  {
    GiveUpLaw(p, acts, sup);
    DelaysFromLaw(p, sup);
    forall k | 0 < k < |sup.reports| && sup.exits[k].elapsed < p.resetAfter
      ensures sup.reports[k - 1].delay <= sup.reports[k].delay
    {
      DelayFromLaw(p, sup, k);
      DelayFromLaw(p, sup, k - 1);
      var upto := sup.exits[..k + 1];
      assert upto[..k] == sup.exits[..k];
      BackoffMonotone(p, sup.reports[k - 1].attempt - 1, sup.reports[k].attempt - 1);
    }
  }

  lemma DelaysFromLaw(p: Policy, sup: Sup)
    requires Accepted(p) && Safe(p) && GivesUpOnTime(p, sup) && AnnouncesEachRestart(p, sup)
    ensures WithinBounds(p, sup)
    ensures forall k :: 0 <= k < |sup.reports| ==> 1 <= sup.reports[k].attempt
    ensures p.factor.Finite? ==>
      forall k :: 0 <= k < |sup.reports| ==> sup.reports[k].delay == Backoff(p, sup.reports[k].attempt - 1)
  {
    forall k | 0 <= k < |sup.reports|
      ensures p.initialDelay <= sup.reports[k].delay <= p.maxDelay
      ensures 1 <= sup.reports[k].attempt
      ensures p.factor.Finite? ==> sup.reports[k].delay == Backoff(p, sup.reports[k].attempt - 1)
    {
      DelayFromLaw(p, sup, k);
    }
  }

  lemma DelayFromLaw(p: Policy, sup: Sup, k: nat)
    requires Accepted(p) && Safe(p) && GivesUpOnTime(p, sup) && AnnouncesEachRestart(p, sup) && k < |sup.reports|
    ensures k < |sup.exits| && Announces(p, sup.reports[k], sup.exits[..k + 1])
    ensures p.initialDelay <= sup.reports[k].delay <= p.maxDelay
    ensures p.factor.Finite? ==> sup.reports[k].delay == Backoff(p, sup.reports[k].attempt - 1)
    ensures 1 < sup.reports[k].attempt ==> p.factor.Finite?
  {
    var n := sup.reports[k].attempt - 1;
    assert !Exhausted(p, sup.exits[..k + 1]) by {
      if k + 1 == |sup.exits| {
        assert sup.exits[..k + 1] == sup.exits;
      }
    }
    SafeFits(p, n);
    var wild: seq<Int64> :| |wild| == n && Delay(p, wild) == sup.reports[k].delay;
    DelayIsBackoff(p, wild);
  }

  /** What a run of immediate exits meets on a machine that turns a product that does not fit into -1. */
  const QUICK := Round(0, NoError, false, false, -1)

  lemma {:induction false} QuickRun(p: Policy, n: nat) returns (acts: seq<Act>, sup: Sup)
    requires Accepted(p) && (0 < p.maxAttempts ==> n <= p.maxAttempts)
    ensures LoopPath(Some(p), Launched(Some(p)), acts, sup)
    ensures sup.phase.Running? && sup.attempts == n && sup.delay == Delay(p, Repeat(-1, n))
    ensures 0 < n ==> sup.reports != [] && sup.reports[|sup.reports| - 1].delay == Delay(p, Repeat(-1, n - 1))
  {
    if n == 0 {
      acts, sup := [], Launched(Some(p));
      assert Repeat(-1, 0) == [];
    } else {
      var before, last := QuickRun(p, n - 1);
      acts, sup := NextTurn(Some(p), before, last, QUICK);
      assert Repeat(-1, n)[..n - 1] == Repeat(-1, n - 1);
    }
  }

  ghost predicate RunWithinBounds(p: Policy, acts: seq<Act>, sup: Sup) {
    LoopPath(Some(p), Launched(Some(p)), acts, sup) ==> WithinBounds(p, sup)
  }

  /** A policy keeps every delay it ever announces within its bounds, on every machine, exactly when it is safe. */
  lemma AnnouncedInBoundsIff(p: Policy)
    requires Accepted(p)
    ensures Safe(p) <==> forall acts, sup :: RunWithinBounds(p, acts, sup)
  {
    if Safe(p) {
      forall acts, sup
        ensures RunWithinBounds(p, acts, sup)
      {
        if LoopPath(Some(p), Launched(Some(p)), acts, sup) {
          AnnouncedDelays(p, acts, sup);
        }
      }
    } else {
      var n := if p.maxAttempts == 0 then 0 else p.maxAttempts - 1;
      if p.maxAttempts == 0 {
        n := OutOfRange(p);
      }
      var k := FirstEscape(p, n, -1);
      var acts, sup := QuickRun(p, k + 1);
      assert !RunWithinBounds(p, acts, sup);
    }
  }

  // The code of the loop.

  /** The loop of `supervise`. It ends in the first round that does not lead to a restart, and what it
      sends is decided by that round and the streak it ends; the steps it takes are steps of `Do`. */
  method Supervise(pol: Option<Policy>, rounds: seq<Round>)
      returns (verdict: Verdict, starts: nat, reports: seq<Restarting>, ghost sup: Sup, ghost acts: seq<Act>)
    ensures LoopPath(pol, Launched(pol), acts, sup) && reports == sup.reports
    ensures 1 <= starts <= |rounds| + 1
    ensures forall k :: 0 <= k < starts - 1 ==> Restarts(pol, rounds, k)
    ensures verdict.StillRunning? <==> starts == |rounds| + 1
    ensures starts <= |rounds| ==> !Restarts(pol, rounds, starts - 1) && verdict == VerdictOf(pol, rounds, starts - 1)
    ensures verdict.StillRunning? ==> sup.phase.Running?
    ensures verdict.Stopped? ==> sup.phase == SendDone(verdict.final, false)
    ensures verdict.GaveUp? ==> sup.phase == SendDone(verdict.final, true)
  {
    var attempts, delay := 0, if pol.Some? then pol.value.initialDelay else 0;
    reports, starts := [], 0;
    sup, acts := Launched(pol), [];
    while true
      invariant 0 <= starts <= |rounds|
      invariant forall k :: 0 <= k < starts ==> Restarts(pol, rounds, k)
      invariant LoopPath(pol, Launched(pol), acts, sup)
      invariant sup.phase.Running? && sup.attempts == attempts && sup.delay == delay && sup.reports == reports
      invariant pol.Some? ==> sup.exits == ExitsOf(rounds[..starts])
      decreases |rounds| - starts
    {
      if starts == |rounds| {
        return StillRunning, starts + 1, reports, sup, acts;
      }
      var round := rounds[starts];
      ExitsOfAppend(rounds, starts);
      acts, sup := NextTurn(pol, acts, sup, round);
      starts := starts + 1;
      if round.stopAtExit {
        return Stopped(round.err), starts, reports, sup, acts;
      }
      if pol.None? {
        return GaveUp(round.err), starts, reports, sup, acts;
      }
      var p := pol.value;
      if round.elapsed >= p.resetAfter {
        attempts := 0;
        delay := p.initialDelay;
      }
      attempts := attempts + 1;
      if p.maxAttempts > 0 && attempts > p.maxAttempts {
        return GaveUp(round.err), starts, reports, sup, acts;
      }
      reports := reports + [Restarting(attempts, delay, round.err)];
      if round.stopInWait {
        return Stopped(NoError), starts, reports, sup, acts;
      }
      delay := NextDelay(p, delay, round.wild);
    }
  }
}
