/** The observer's view of a run: an acceptor for event traces that knows only the registered services. */
module HostEvents {
  import opened Common
  import opened Protocol
  import opened HostInvariant

  /** Where an observer thinks the host is. */
  datatype Stage =
    | Starting(launched: nat)
    | Gating(launched: nat)     // the service launched last has to report readiness
    | Up
    | Stopping(left: nat)
    | Over

  /** The services that still have to be stopped, where shutdown may begin or is under way. */
  function Remaining(c: Config, stage: Stage): Option<nat> {
    match stage
    case Starting(launched) => if launched == 0 then Some(0) else None
    case Gating(launched) => Some(launched)
    case Up => Some(|c.services|)
    case Stopping(left) => Some(left)
    case Over => None
  }

  /** The stage after an event, if the event may come now. */
  function Advance(c: Config, stage: Stage, e: Event): Option<Stage> {
    match e
    case ServiceStarted(i) =>
      if stage == Starting(i) && i < |c.services| then
        Some(if c.services[i].readier then Gating(i + 1) else Starting(i + 1))
      else None
    case ServiceReady(i) => if stage == Gating(i + 1) then Some(Starting(i + 1)) else None
    case HostStarted => if stage == Starting(|c.services|) then Some(Up) else None
    case ServiceFailed(i, _) =>
      if (stage.Gating? || stage.Up?) && i < Remaining(c, stage).value then Some(Stopping(Remaining(c, stage).value))
      else None
    case ServiceStopped(i, _) => if Remaining(c, stage) == Some(i + 1) then Some(Stopping(i)) else None
    case HostStopped(_) => if Remaining(c, stage) == Some(0) then Some(Over) else None
  }

  function Run(c: Config, stage: Stage, events: seq<Event>): Option<Stage>
    decreases |events|
  {
    if events == [] then Some(stage)
    else
      var next := Advance(c, stage, events[0]);
      if next.None? then None else Run(c, next.value, events[1..])
  }

  lemma {:induction false} RunAppend(c: Config, stage: Stage, a: seq<Event>, b: seq<Event>)
    requires Run(c, stage, a).Some?
    ensures Run(c, stage, a + b) == Run(c, Run(c, stage, a).value, b)
    decreases |a|
  {
    if a == [] {
      assert a + b == b;
    } else {
      RunAppend(c, Advance(c, stage, a[0]).value, a[1..], b);
      assert (a + b)[1..] == a[1..] + b;
    }
  }

  lemma RunOne(c: Config, stage: Stage, e: Event)
    ensures Run(c, stage, [e]) == Advance(c, stage, e)
  {
    assert [e][1..] == [];
  }

  lemma RunNone(c: Config, stage: Stage)
    ensures Run(c, stage, []) == Some(stage)
  {
  }

  lemma {:induction false} RunLaunch(c: Config, launched: nat, gated: bool)
    requires launched <= |c.services| && (gated ==> 0 < launched && c.services[launched - 1].readier)
    ensures Run(c, Starting(0), LaunchEvents(c, launched, gated))
            == Some(if gated then Gating(launched) else Starting(launched))
    decreases launched
  {
    if launched == 0 {
      RunNone(c, Starting(0));
    } else {
      hide Run;
      var i := launched - 1;
      var before := LaunchEvents(c, i, false);
      RunLaunch(c, i, false);
      RunAppend(c, Starting(0), before, [ServiceStarted(i)]);
      RunOne(c, Starting(i), ServiceStarted(i));
      RunAppend(c, Starting(0), before + [ServiceStarted(i)], [ServiceReady(i)]);
      RunOne(c, Gating(launched), ServiceReady(i));
      assert before + [ServiceStarted(i)] + [] == before + [ServiceStarted(i)];
    }
  }

  lemma {:induction false} RunStops(c: Config, stage: Stage, outcomes: seq<Outcome>, cause: int, launched: nat, from: nat)
    requires from <= launched <= |outcomes| && Remaining(c, stage) == Some(launched)
    ensures var r := Run(c, stage, StopAllEvents(outcomes, cause, launched, from));
      r.Some? && Remaining(c, r.value) == Some(from)
    decreases launched - from
  {
    if from == launched {
      RunNone(c, stage);
    } else {
      hide Run;
      var later := StopAllEvents(outcomes, cause, launched, from + 1);
      RunStops(c, stage, outcomes, cause, launched, from + 1);
      var last := ServiceStopped(from, ReportOf(from, cause, outcomes[from]));
      RunAppend(c, stage, later, [last]);
      RunOne(c, Run(c, stage, later).value, last);
    }
  }

  /** The events before stopAll leave the observer where the host is. */
  lemma RunFront(c: Config, s: State)
    requires PcInv(c, s) && ExitsInv(c, s)
    ensures var r := Run(c, Starting(0), FrontEvents(c, s.launched, s.gated, s.hostStarted, s.trigger));
      r.Some? && (!s.trigger.NoTrigger? ==> Remaining(c, r.value) == Some(s.launched))
  {
    hide Run;
    var launch := LaunchEvents(c, s.launched, s.gated);
    RunLaunch(c, s.launched, s.gated);
    if s.hostStarted {
      RunAppend(c, Starting(0), launch, [HostStarted]);
      RunOne(c, Starting(s.launched), HostStarted);
    }
    var up := if s.hostStarted then [HostStarted] else [];
    assert launch + [] == launch;
    var r := Run(c, Starting(0), launch + up);
    RunAppend(c, Starting(0), launch + up, TriggerEvents(s.trigger));
    if s.trigger.ExitTaken? {
      RunOne(c, r.value, ServiceFailed(s.trigger.exit.service, s.trigger.exit.err));
    } else {
      RunNone(c, r.value);
    }
  }

  /** An observer who knows only the registered services accepts the events of every run so far, and of a
      finished run as finished. */
  lemma TraceAccepted(c: Config, s: State)
    requires Reachable(c, s)
    ensures Run(c, Starting(0), s.events).Some?
    ensures s.pc.Returned? ==> Run(c, Starting(0), s.events) == Some(Over)
  {
    ReachableInv(c, s);
    RunTrace(c, s);
  }

  lemma RunTrace(c: Config, s: State)
    requires PcInv(c, s) && ExitsInv(c, s) && EventsInv(c, s)
    ensures Run(c, Starting(0), s.events).Some?
    ensures s.pc.Returned? ==> Run(c, Starting(0), s.events) == Some(Over)
  {
    hide Run, FrontEvents, StopAllEvents;
    var front := FrontEvents(c, s.launched, s.gated, s.hostStarted, s.trigger);
    var stops := StopAllEvents(s.outcomes, s.cause, s.launched, From(s));
    RunFront(c, s);
    var stage := Run(c, Starting(0), front).value;
    RunAppend(c, Starting(0), front, stops);
    if s.trigger.NoTrigger? {
      NoStopsYet(c, s);
      RunNone(c, stage);
    } else {
      RunStops(c, stage, s.outcomes, s.cause, s.launched, From(s));
    }
    if s.pc.Returned? {
      var end := Run(c, Starting(0), front + stops).value;
      RunAppend(c, Starting(0), front + stops, [HostStopped(s.errs)]);
      RunOne(c, end, HostStopped(s.errs));
    } else {
      assert s.events == front + stops;
    }
  }

  lemma NoStopsYet(c: Config, s: State)
    requires PcInv(c, s) && s.trigger.NoTrigger?
    ensures From(s) == s.launched && !s.pc.Returned?
    ensures s.launched <= |s.outcomes| && StopAllEvents(s.outcomes, s.cause, s.launched, s.launched) == []
  {
  }
}
