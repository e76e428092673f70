/** The schedule loop of a cron service: one run at a time, each target computed after the previous run. */
module CronService {
  import opened Common
  import opened CronNext

  /** The error of a cancelled context. */
  const CANCELED := Error(0, true)

  /** What one call of `run` meets: the context may end during the jitter wait, or the job returns. */
  datatype Run = CanceledInJitter | Returned(err: Err)

  /** What one turn of the schedule loop meets after it has read the clock: the context ends during the wait,
      or the timer fires at `at` and the run it starts goes on until `end`. Without a next firing no timer is set. */
  datatype Turn = Turn(now: Instant, wait: Wait)
  datatype Wait = Canceled | Fired(at: Instant, run: Run, end: Instant)

  predicate NotAfter(a: Instant, b: Instant) {
    a.minute < b.minute || (a.minute == b.minute && a.nanos <= b.nanos)
  }

  predicate Reached(target: int, at: Instant) {
    target <= at.minute
  }

  /** The clock does not run backwards, and a timer does not fire before its target. */
  ghost predicate SteadyClock(turns: seq<Turn>, fired: seq<int>) {
    && |fired| <= |turns|
    && (forall k :: 0 <= k < |fired| && turns[k].wait.Fired? ==> Reached(fired[k], turns[k].wait.at))
    && (forall k :: 0 <= k < |turns| && turns[k].wait.Fired? ==> NotAfter(turns[k].wait.at, turns[k].wait.end))
    && (forall k :: 0 < k < |turns| && turns[k - 1].wait.Fired? ==> NotAfter(turns[k - 1].wait.end, turns[k].now))
  }

  /** A schedule: the next firing after an instant, if it ever fires again. */
  type Clockwork = Instant -> Option<int>

  /** The schedule of an expression: the search's answer is the only one its specification allows. */
  ghost predicate Implements(next: Clockwork, s: Schedule) {
    forall i: Instant :: IsNext(s, i, next(i))
  }

  /** The least matching minute from t on and before the limit. */
  ghost function LeastFrom(s: Schedule, t: int, limit: Instant): Option<int>
    decreases limit.minute + 1 - t
  {
    if !Before(t, limit) then None
    else if Matches(s, t) then Some(t)
    else LeastFrom(s, t + 1, limit)
  }

  lemma {:induction false} LeastFromIs(s: Schedule, after: Instant, t: int, limit: Instant)
    requires after.minute < t && forall u :: Later(u, after) && u < t ==> !Matches(s, u)
    ensures IsLeast(s, after, limit, LeastFrom(s, t, limit))
    decreases limit.minute + 1 - t
  {
    hide Matches;
    if Before(t, limit) && !Matches(s, t) {
      LeastFromIs(s, after, t + 1, limit);
    }
  }

  /** Every expression has a schedule. */
  lemma SomeClockwork(s: Schedule) returns (next: Clockwork)
    ensures Implements(next, s)
  {
    hide Matches, Limit, IsLeast, LeastFrom;
    next := (i: Instant) => LeastFrom(s, i.minute + 1, Limit(i));
    forall i: Instant
      ensures IsNext(s, i, next(i))
    {
      LeastFromIs(s, i, i.minute + 1, Limit(i));
    }
  }

  /** And the search computes it. */
  lemma SearchIsSchedule(next: Clockwork, s: Schedule, after: Instant, r: Option<int>)
    requires Implements(next, s) && IsNext(s, after, r)
    ensures r == next(after)
  {
    NextUnique(s, after, r, next(after));
  }

  /** The targets that the first turns have run at, each computed from that turn's clock reading. */
  ghost predicate Targets(next: Clockwork, turns: seq<Turn>, fired: seq<int>) {
    && |fired| <= |turns|
    && forall k :: 0 <= k < |fired| ==> turns[k].wait.Fired? && next(turns[k].now) == Some(fired[k])
  }

  lemma TargetsNone(next: Clockwork, turns: seq<Turn>)
    ensures Targets(next, turns, [])
  {
  }

  lemma TargetsAppend(next: Clockwork, turns: seq<Turn>, fired: seq<int>, target: int)
    requires Targets(next, turns, fired) && |fired| < |turns|
    requires turns[|fired|].wait.Fired? && next(turns[|fired|].now) == Some(target)
    ensures Targets(next, turns, fired + [target])
  {
  }

  lemma TargetAt(next: Clockwork, s: Schedule, turns: seq<Turn>, fired: seq<int>, k: nat)
    requires Implements(next, s) && Targets(next, turns, fired) && k < |fired|
    ensures Matches(s, fired[k]) && turns[k].now.minute < fired[k]
  {
    assert IsNext(s, turns[k].now, next(turns[k].now));
  }

  lemma TargetIsLeast(next: Clockwork, s: Schedule, turns: seq<Turn>, fired: seq<int>, k: nat, t: int)
    requires Implements(next, s) && Targets(next, turns, fired) && k < |fired|
    requires Matches(s, t) && turns[k].now.minute < t
    ensures fired[k] <= t
  {
    assert IsNext(s, turns[k].now, next(turns[k].now));
    assert Later(t, turns[k].now);
  }

  function ErrOf(run: Run): Err {
    match run
    case CanceledInJitter => CANCELED
    case Returned(err) => err
  }

  /** The jobs that n runs start. */
  function JobsIn(turns: seq<Turn>, n: nat): nat
    requires n <= |turns|
  {
    if n == 0 then 0 else JobsIn(turns, n - 1) + Starts(turns[n - 1].wait)
  }

  lemma NoRuns(turns: seq<Turn>)
    ensures JobsIn(turns, 0) == 0 && FailuresIn(turns, 0) == []
  {
  }

  lemma OneMoreRun(turns: seq<Turn>, n: nat)
    requires n < |turns|
    ensures JobsIn(turns, n + 1) == JobsIn(turns, n) + Starts(turns[n].wait)
    ensures FailuresIn(turns, n + 1) == FailuresIn(turns, n) + Failure(turns[n].wait)
  {
  }

  function Starts(wait: Wait): nat {
    if wait.Fired? && wait.run.Returned? then 1 else 0
  }

  /** The failures of n runs, in order. */
  function FailuresIn(turns: seq<Turn>, n: nat): seq<Err>
    requires n <= |turns|
  {
    if n == 0 then [] else FailuresIn(turns, n - 1) + Failure(turns[n - 1].wait)
  }

  function Failure(wait: Wait): seq<Err> {
    if wait.Fired? then FailureOf(wait.run) else []
  }

  function FailureOf(run: Run): seq<Err> {
    if run.Returned? && run.err.Error? then [run.err] else []
  }

  predicate RunsJob(turns: seq<Turn>, k: nat)
    requires k < |turns|
  {
    turns[k].wait.Fired? && !turns[k].wait.run.CanceledInJitter?
  }

  function JobTurns(turns: seq<Turn>, n: nat): set<nat>
    requires n <= |turns|
  {
    set k: nat | k < n && RunsJob(turns, k)
  }

  /** One job for each run that its jitter wait did not cancel. */
  lemma {:induction false} JobsCounted(turns: seq<Turn>, n: nat)
    requires n <= |turns|
    ensures JobsIn(turns, n) == |JobTurns(turns, n)|
  {
    if n == 0 {
      assert JobTurns(turns, 0) == {};
    } else {
      JobsCounted(turns, n - 1);
      if RunsJob(turns, n - 1) {
        assert JobTurns(turns, n) == JobTurns(turns, n - 1) + {n - 1};
      } else {
        assert JobTurns(turns, n) == JobTurns(turns, n - 1);
      }
    }
  }

  /** The error of each job that failed comes once, after those of the earlier runs. */
  lemma {:induction false} FailuresInOrder(turns: seq<Turn>, k: nat, n: nat)
    requires k < n <= |turns|
    ensures FailuresIn(turns, k) <= FailuresIn(turns, k + 1) <= FailuresIn(turns, n)
    ensures FailuresIn(turns, k + 1)[|FailuresIn(turns, k)|..]
            == if turns[k].wait.Fired? && turns[k].wait.run.Returned? && turns[k].wait.run.err.Error? then
                 [turns[k].wait.run.err] else []
    decreases n
  {
    if k + 1 < n {
      FailuresInOrder(turns, k, n - 1);
    } else {
      OneMoreRun(turns, k);
    }
  }

  class Service {
    const sched: Clockwork
    const immediate: bool
    const stopOnError: bool
    const jitter: bool
    const hasHandler: bool
    var fired: seq<int>
    var jobs: nat
    var handled: seq<Err>

    constructor (sched: Clockwork, immediate: bool, stopOnError: bool, jitter: bool, hasHandler: bool)
      ensures this.sched == sched && this.immediate == immediate && this.stopOnError == stopOnError
      ensures this.jitter == jitter && this.hasHandler == hasHandler
      ensures fired == [] && jobs == 0 && handled == []
    {
      this.sched, this.immediate, this.stopOnError := sched, immediate, stopOnError;
      this.jitter, this.hasHandler := jitter, hasHandler;
      fired, jobs, handled := [], 0, [];
    }

    /** One run. A run that its jitter wait cancels starts no job and tells no handler. */
    method RunOnce(run: Run) returns (err: Err)
      requires run.CanceledInJitter? ==> jitter
      modifies `jobs, `handled
      ensures err == ErrOf(run)
      ensures jobs == old(jobs) + if run.CanceledInJitter? then 0 else 1
      ensures handled == old(handled) + if hasHandler then FailureOf(run) else []
    {
      if run.CanceledInJitter? {
        return CANCELED;
      }
      jobs := jobs + 1;
      err := run.err;
      if err.Error? && hasHandler {
        handled := handled + [err];
      }
    }

    /** The loop of runSchedule; None when the service is still waiting. */
    method RunSchedule(turns: seq<Turn>) returns (result: Option<Err>)
      requires fired == []
      requires forall k :: 0 <= k < |turns| && turns[k].wait.Fired? && turns[k].wait.run.CanceledInJitter? ==> jitter
      modifies this
      ensures |fired| <= |turns| && Targets(sched, turns, fired)
      ensures result.None? ==> NoneStops(turns, |fired|) && Waits(turns, |fired|)
      ensures result.Some? ==> Ends(turns, |fired|, result.value)
      ensures EndsRight(turns, |fired|, result)
      ensures jobs == old(jobs) + JobsIn(turns, |fired|)
      ensures handled == old(handled) + if hasHandler then FailuresIn(turns, |fired|) else []
    {
      hide Targets, JobsIn, FailuresIn;
      TargetsNone(sched, turns);
      NoRuns(turns);
      for k := 0 to |turns|
        invariant |fired| == k && Targets(sched, turns, fired) && NoneStops(turns, k)
        invariant jobs == old(jobs) + JobsIn(turns, k)
        invariant handled == old(handled) + if hasHandler then FailuresIn(turns, k) else []
      {
        var next := sched(turns[k].now);
        if next.None? {
          // No timer is set: only the end of the context ends this wait.
          result := if turns[k].wait.Canceled? then Some(CANCELED) else None;
          EndIs(turns, k, result);
          return;
        }
        if turns[k].wait.Canceled? {
          EndIs(turns, k, Some(CANCELED));
          return Some(CANCELED);
        }
        TargetsAppend(sched, turns, fired, next.value);
        OneMoreRun(turns, k);
        fired := fired + [next.value];
        var err := RunOnce(turns[k].wait.run);
        if err.Error? && stopOnError {
          EndIs(turns, k + 1, Some(err));
          return Some(err);
        }
      }
      EndIs(turns, |turns|, None);
      return None;
    }

    /** Spelled out: with StopOnError the first failed run is the last one and its error is returned, and otherwise
        only the end of the context returns; a loop that has not returned is out of turns or of firings. */
    ghost predicate EndsRight(turns: seq<Turn>, n: nat, result: Option<Err>) {
      && n <= |turns|
      && (forall k :: 0 <= k < n && stopOnError && turns[k].wait.Fired? ==>
            match turns[k].wait.run
            case CanceledInJitter => k == n - 1 && result == Some(Error(0, true))
            case Returned(err) => err.Error? ==> k == n - 1 && result == Some(err))
      && (result.Some? ==>
            || (n < |turns| && turns[n].wait.Canceled? && result == Some(Error(0, true)))
            || (stopOnError && 0 < n && turns[n - 1].wait.Fired?
                && (turns[n - 1].wait.run.CanceledInJitter? || turns[n - 1].wait.run.err.Error?)))
      && (result.None? ==> n == |turns| || sched(turns[n].now).None?)
    }

    lemma EndIs(turns: seq<Turn>, n: nat, result: Option<Err>)
      requires n <= |turns|
      requires if result.None? then NoneStops(turns, n) && Waits(turns, n) else Ends(turns, n, result.value)
      ensures EndsRight(turns, n, result)
    {
      forall k | 0 <= k < n && stopOnError && turns[k].wait.Fired? && ErrOf(turns[k].wait.run).Error?
        ensures k == n - 1 && result == Some(ErrOf(turns[k].wait.run))
      {
        if NoneStops(turns, n) {
          NoneStopsAt(turns, n, k);
        } else if k < n - 1 {
          NoneStopsAt(turns, n - 1, k);
        }
      }
    }

    lemma {:induction false} NoneStopsAt(turns: seq<Turn>, n: nat, k: nat)
      requires k < n <= |turns| && NoneStops(turns, n)
      ensures !StopsAfter(turns, k)
    {
      if k < n - 1 {
        NoneStopsAt(turns, n - 1, k);
      }
    }

    /** The turn's run fails and failures stop the service. */
    predicate StopsAfter(turns: seq<Turn>, k: nat)
      requires k < |turns|
    {
      turns[k].wait.Fired? && ErrOf(turns[k].wait.run).Error? && stopOnError
    }

    /** No failure among the first n runs stops the service. */
    predicate NoneStops(turns: seq<Turn>, n: int)
      requires n <= |turns|
    {
      n <= 0 || (NoneStops(turns, n - 1) && !StopsAfter(turns, n - 1))
    }

    /** How the loop ends after n runs: by the first failure that stops the service, or cancelled before another run. */
    predicate Ends(turns: seq<Turn>, n: nat, err: Err)
      requires n <= |turns|
    {
      || (0 < n && NoneStops(turns, n - 1) && StopsAfter(turns, n - 1) && err == ErrOf(turns[n - 1].wait.run))
      || (n < |turns| && NoneStops(turns, n) && err == CANCELED && turns[n].wait.Canceled?)
    }

    /** The loop has not returned after n runs: the turns are over, or the schedule is, and only the end of the
        context would end the wait. */
    predicate Waits(turns: seq<Turn>, n: nat)
      requires n <= |turns|
    {
      n == |turns| || (sched(turns[n].now).None? && !turns[n].wait.Canceled?)
    }

    /** Start for a schedule: an immediate first run, then the loop. */
    method Start(first: Run, turns: seq<Turn>) returns (result: Option<Err>)
      requires fired == []
      requires first.CanceledInJitter? ==> jitter
      requires forall k :: 0 <= k < |turns| && turns[k].wait.Fired? && turns[k].wait.run.CanceledInJitter? ==> jitter
      modifies this
      ensures Targets(sched, turns, fired)
      ensures immediate && stopOnError && ErrOf(first).Error? ==> result == Some(ErrOf(first)) && fired == []
      ensures !(immediate && stopOnError && ErrOf(first).Error?) && result.Some? ==> Ends(turns, |fired|, result.value)
      ensures result.None? ==> NoneStops(turns, |fired|) && Waits(turns, |fired|)
      ensures !(immediate && stopOnError && (first.CanceledInJitter? || first.err.Error?)) ==> EndsRight(turns, |fired|, result)
      ensures jobs == old(jobs) + JobsIn(turns, |fired|) + if immediate && first.Returned? then 1 else 0
      ensures handled == old(handled)
        + (if hasHandler && immediate then FailureOf(first) else [])
        + (if hasHandler then FailuresIn(turns, |fired|) else [])
    {
      if immediate {
        var err := RunOnce(first);
        if err.Error? && stopOnError {
          return Some(err);
        }
      }
      result := RunSchedule(turns);
    }
  }

  // The targets of a run of the loop.

  lemma NextTarget(next: Clockwork, s: Schedule, turns: seq<Turn>, fired: seq<int>, k: nat)
    requires SteadyClock(turns, fired) && Implements(next, s) && Targets(next, turns, fired) && 0 < k < |fired|
    ensures fired[k - 1] <= turns[k].now.minute < fired[k]
  {
    TargetAt(next, s, turns, fired, k);
    assert Reached(fired[k - 1], turns[k - 1].wait.at);
    assert NotAfter(turns[k - 1].wait.at, turns[k - 1].wait.end) && NotAfter(turns[k - 1].wait.end, turns[k].now);
  }

  /** Targets are matching minutes, each later than the one before: none is run twice. */
  lemma {:induction false} TargetsIncrease(next: Clockwork, s: Schedule, turns: seq<Turn>, fired: seq<int>,
                                           j: nat, k: nat)
    requires SteadyClock(turns, fired) && Implements(next, s) && Targets(next, turns, fired) && j < k < |fired|
    ensures Matches(s, fired[j]) && Matches(s, fired[k])
    ensures fired[j] <= turns[k].now.minute < fired[k]
    decreases k
  {
    NextTarget(next, s, turns, fired, k);
    if j == k - 1 {
      TargetAt(next, s, turns, fired, j);
      TargetAt(next, s, turns, fired, k);
    } else {
      TargetsIncrease(next, s, turns, fired, j, k - 1);
      TargetAt(next, s, turns, fired, k);
    }
  }

  /** Between two targets the matching minutes that get no run are exactly those gone by when the earlier run is over. */
  lemma SkippedExactly(next: Clockwork, s: Schedule, turns: seq<Turn>, fired: seq<int>, k: nat, t: int)
    requires SteadyClock(turns, fired) && Implements(next, s) && Targets(next, turns, fired) && 0 < k < |fired|
    requires Matches(s, t) && fired[k - 1] < t
    ensures t < fired[k] <==> t <= turns[k].now.minute
  {
    NextTarget(next, s, turns, fired, k);
    if turns[k].now.minute < t {
      TargetIsLeast(next, s, turns, fired, k, t);
    }
  }

  /** The minute is the target of one of the first n runs. */
  predicate RunAt(fired: seq<int>, n: nat, t: int)
    requires n <= |fired|
  {
    0 < n && (t == fired[n - 1] || RunAt(fired, n - 1, t))
  }

  /** The minute went by after some target among the first n - 1 and before the clock was next read. */
  predicate GoneBy(turns: seq<Turn>, fired: seq<int>, n: nat, t: int)
    requires n <= |fired| <= |turns|
  {
    1 < n && (fired[n - 2] < t <= turns[n - 1].now.minute || GoneBy(turns, fired, n - 1, t))
  }

  /** Every matching minute up to the last target was run, or went by while a run was on. */
  lemma {:induction false} EveryMinuteAccounted(next: Clockwork, s: Schedule, turns: seq<Turn>, fired: seq<int>,
                                                n: nat, t: int)
    requires SteadyClock(turns, fired) && Implements(next, s) && Targets(next, turns, fired) && 0 < n <= |fired|
    requires Matches(s, t) && turns[0].now.minute < t <= fired[n - 1]
    ensures RunAt(fired, n, t) || GoneBy(turns, fired, n, t)
    decreases n
  {
    if n == 1 {
      TargetIsLeast(next, s, turns, fired, 0, t);
    } else if t <= fired[n - 2] {
      EveryMinuteAccounted(next, s, turns, fired, n - 1, t);
    } else {
      SkippedExactly(next, s, turns, fired, n - 1, t);
    }
  }

  /** Never both: a minute that went by is no target. */
  lemma {:induction false} NotRunAndGoneBy(next: Clockwork, s: Schedule, turns: seq<Turn>, fired: seq<int>,
                                           n: nat, t: int)
    requires SteadyClock(turns, fired) && Implements(next, s) && Targets(next, turns, fired) && n <= |fired|
    requires GoneBy(turns, fired, n, t)
    ensures !RunAt(fired, n, t) && t < fired[n - 1]
    decreases n
  {
    hide Implements, Matches;
    NextTarget(next, s, turns, fired, n - 1);
    assert RunAt(fired, n, t) <==> t == fired[n - 1] || RunAt(fired, n - 1, t);
    if fired[n - 2] < t <= turns[n - 1].now.minute {
      NotRunAfter(next, s, turns, fired, n - 1, t);
    } else {
      NotRunAndGoneBy(next, s, turns, fired, n - 1, t);
    }
  }

  lemma {:induction false} NotRunAfter(next: Clockwork, s: Schedule, turns: seq<Turn>, fired: seq<int>, n: nat, t: int)
    requires SteadyClock(turns, fired) && Implements(next, s) && Targets(next, turns, fired) && 0 < n <= |fired|
    requires fired[n - 1] < t
    ensures !RunAt(fired, n, t)
    decreases n
  {
    if 1 < n {
      NextTarget(next, s, turns, fired, n - 1);
      NotRunAfter(next, s, turns, fired, n - 1, t);
    } else {
      assert !RunAt(fired, 0, t);
    }
  }
}
