/** The Builder: what it accepts, and what the host it builds can rely on. */
module HostBuilder {
  import opened Common
  import opened Restart
  import opened Supervisor
  import opened Protocol
  import opened HostTheorems

  const DEFAULT_SHUTDOWN_TIMEOUT := 30 * SECOND
  const PRODUCTION := "Production"

  datatype Service = Service(name: string, readier: bool)

  datatype Registration = Registration(svc: Service, restart: Option<Policy>)

  datatype BuildError =
    | NilService
    | EmptyServiceName
    | DuplicateName(name: string)
    | BadPolicy(name: string, reason: PolicyError)
    | BadShutdownTimeout(timeout: int)
    | BadStartTimeout(timeout: int)
    | EmptyEnvironment
    | EmptyTaskName
    | NilTask(name: string)
    | NilLogger
    | NilHook(hook: Hook)

  /** The four hook lists. */
  datatype Hook = OnStarted | OnStopping | OnStopped | OnReload

  /** The builder's fields as a value. */
  datatype Setup = Setup(
    services: seq<Registration>, tasks: seq<string>, environment: string,
    shutdownTimeout: int, startTimeout: int, hasLogger: bool, hooks: seq<Hook>, observers: nat, errs: seq<BuildError>)

  const EMPTY := Setup([], [], "", DEFAULT_SHUTDOWN_TIMEOUT, 0, false, [], 0, [])

  /** One configuration call. `opts` are the WithRestart options of AddService, in order. */
  datatype Call =
    | AddService(svc: Option<Service>, opts: seq<Policy>)
    | AddStartupTask(task: string, isNil: bool)
    | WithShutdownTimeout(timeout: int)
    | WithStartTimeout(timeout: int)
    | WithEnvironment(environment: string)
    | WithLogger(nilLogger: bool)
    | AddHook(hook: Hook, nilHook: bool)
    | WithObserver

  predicate HasName(services: seq<Registration>, name: string) {
    exists k :: 0 <= k < |services| && services[k].svc.name == name
  }

  /** Why a call is refused. Only the last restart option counts, for the policy and for its error. */
  function Refusal(b: Setup, call: Call): Option<BuildError> {
    match call
    case AddService(svc, opts) =>
      if svc.None? then Some(NilService)
      else if svc.value.name == "" then Some(EmptyServiceName)
      else if HasName(b.services, svc.value.name) then Some(DuplicateName(svc.value.name))
      else if opts != [] && Validate(opts[|opts| - 1]).Some? then
        Some(BadPolicy(svc.value.name, Validate(opts[|opts| - 1]).value))
      else None
    case AddStartupTask(task, isNil) =>
      if task == "" then Some(EmptyTaskName) else if isNil then Some(NilTask(task)) else None
    case WithShutdownTimeout(d) => if d <= 0 then Some(BadShutdownTimeout(d)) else None
    case WithStartTimeout(d) => if d <= 0 then Some(BadStartTimeout(d)) else None
    case WithEnvironment(e) => if e == "" then Some(EmptyEnvironment) else None
    case WithLogger(isNil) => if isNil then Some(NilLogger) else None
    case AddHook(hook, isNil) => if isNil then Some(NilHook(hook)) else None
    case WithObserver => None
  }

  function After(b: Setup, call: Call): Setup {
    if Refusal(b, call).Some? then b.(errs := b.errs + [Refusal(b, call).value])
    else match call
      case AddService(svc, opts) => b.(services := b.services + [Registered(svc.value, opts)])
      case AddStartupTask(task, _) => b.(tasks := b.tasks + [task])
      case WithShutdownTimeout(d) => b.(shutdownTimeout := d)
      case WithStartTimeout(d) => b.(startTimeout := d)
      case WithEnvironment(e) => b.(environment := e)
      case WithLogger(_) => b.(hasLogger := true)
      case AddHook(hook, _) => b.(hooks := b.hooks + [hook])
      case WithObserver => b.(observers := b.observers + 1)
  }

  function Registered(svc: Service, opts: seq<Policy>): Registration {
    Registration(svc, if opts == [] then None else Some(Normalized(opts[|opts| - 1])))
  }

  function AfterAll(b: Setup, calls: seq<Call>): Setup {
    if calls == [] then b else After(AfterAll(b, calls[..|calls| - 1]), calls[|calls| - 1])
  }

  /** What Build hands to the host. */
  function Configuration(b: Setup): (c: Config)
    requires 0 <= b.startTimeout && 0 <= b.shutdownTimeout
  {
    Config(seq(|b.services|, i requires 0 <= i < |b.services| =>
               ServiceSpec(b.services[i].svc.readier, b.services[i].restart)),
           |b.tasks|, b.startTimeout, b.shutdownTimeout)
  }

  /** Names identify services, and every restart policy can be run. */
  ghost predicate Sound(b: Setup) {
    && (forall k :: 0 <= k < |b.services| ==> b.services[k].svc.name != "")
    && (forall j, k :: 0 <= j < k < |b.services| ==> b.services[j].svc.name != b.services[k].svc.name)
    && (forall k :: 0 <= k < |b.services| && b.services[k].restart.Some? ==> Accepted(b.services[k].restart.value))
    && 0 < b.shutdownTimeout && 0 <= b.startTimeout
  }

  lemma AfterSound(b: Setup, call: Call)
    requires Sound(b)
    ensures Sound(After(b, call))
  {
    if call.AddService? && call.opts != [] {
      ValidateIsExact(call.opts[|call.opts| - 1]);
    }
  }

  /** Whatever the calls, the setup stays sound. */
  lemma {:induction false} SetupIsSound(calls: seq<Call>)
    ensures Sound(AfterAll(EMPTY, calls))
  {
    if calls != [] {
      SetupIsSound(calls[..|calls| - 1]);
      AfterSound(AfterAll(EMPTY, calls[..|calls| - 1]), calls[|calls| - 1]);
    }
  }

  ghost predicate Accepts(calls: seq<Call>, k: nat)
    requires k < |calls|
  {
    Refusal(AfterAll(EMPTY, calls[..k]), calls[k]).None?
  }

  lemma AfterErrs(b: Setup, call: Call)
    ensures After(b, call).errs == [] <==> b.errs == [] && Refusal(b, call).None?
  {
  }

  /** Build succeeds exactly when no call was refused: an early mistake is never forgotten. */
  lemma {:induction false} BuildsIffNothingRefused(calls: seq<Call>)
    ensures AfterAll(EMPTY, calls).errs == [] <==> forall k :: 0 <= k < |calls| ==> Accepts(calls, k)
  {
    if calls != [] {
      var last := |calls| - 1;
      var front := calls[..last];
      BuildsIffNothingRefused(front);
      AfterErrs(AfterAll(EMPTY, front), calls[last]);
      assert Accepts(calls, last) <==> Refusal(AfterAll(EMPTY, front), calls[last]).None?;
      forall k | 0 <= k < last
        ensures Accepts(calls, k) <==> Accepts(front, k)
      {
        assert front[..k] == calls[..k];
      }
    }
  }

  /** A service with its last restart option, zero fields filled in. */
  function Request(call: Call): Registration
    requires call.AddService? && call.svc.Some?
  {
    var opts := call.opts;
    Registration(call.svc.value, if |opts| == 0 then None else Some(Normalized(opts[|opts| - 1])))
  }

  /** The registrations asked for, in order. */
  function Requested(calls: seq<Call>): seq<Registration> {
    if calls == [] then []
    else
      var last := calls[|calls| - 1];
      Requested(calls[..|calls| - 1]) + (if last.AddService? && last.svc.Some? then [Request(last)] else [])
  }

  /** A host that builds has exactly the requested services, in registration order, with distinct names. */
  lemma {:induction false} BuiltServices(calls: seq<Call>)
    requires AfterAll(EMPTY, calls).errs == []
    ensures AfterAll(EMPTY, calls).services == Requested(calls)
    ensures Sound(AfterAll(EMPTY, calls))
  {
    SetupIsSound(calls);
    if calls == [] {
      assert Requested(calls) == [];
    } else {
      hide Refusal, Sound;
      var last := |calls| - 1;
      BuiltServices(calls[..last]);
      AfterErrs(AfterAll(EMPTY, calls[..last]), calls[last]);
      AfterServices(AfterAll(EMPTY, calls[..last]), calls[last]);
    }
  }

  lemma AfterServices(b: Setup, call: Call)
    requires Refusal(b, call).None?
    ensures After(b, call).services
            == b.services + if call.AddService? && call.svc.Some? then [Registered(call.svc.value, call.opts)] else []
  {
  }

  /** What the documentation asks of a call: proper arguments, an acceptable policy and a name not used before. */
  ghost predicate Proper(calls: seq<Call>, k: nat)
    requires k < |calls|
  {
    match calls[k]
    case AddService(svc, opts) =>
      && svc.Some? && svc.value.name != ""
      && (|opts| > 0 ==> Accepted(Normalized(opts[|opts| - 1])))
      && !NameUsed(calls[..k], svc.value.name)
    case AddStartupTask(task, isNil) => task != "" && !isNil
    case WithShutdownTimeout(d) => d > 0
    case WithStartTimeout(d) => d > 0
    case WithEnvironment(e) => e != ""
    case WithLogger(isNil) => !isNil
    case AddHook(_, isNil) => !isNil
    case WithObserver => true
  }

  predicate NameUsed(calls: seq<Call>, name: string) {
    exists j :: 0 <= j < |calls| && calls[j].AddService? && calls[j].svc.Some? && calls[j].svc.value.name == name
  }

  lemma {:induction false} NamesRequested(calls: seq<Call>, name: string)
    ensures HasName(Requested(calls), name) <==> NameUsed(calls, name)
  {
    if calls == [] {
      assert Requested(calls) == [];
    } else {
      var last, front := |calls| - 1, calls[..|calls| - 1];
      NamesRequested(front, name);
      NamesAppend(Requested(front), Requested(calls), name);
      assert NameUsed(front, name) ==> NameUsed(calls, name) by {
        if j :| 0 <= j < |front| && front[j].AddService? && front[j].svc.Some? && front[j].svc.value.name == name {
          assert calls[j] == front[j];
        }
      }
      if j :| 0 <= j < |calls| && calls[j].AddService? && calls[j].svc.Some? && calls[j].svc.value.name == name {
        assert j < last ==> front[j] == calls[j];
      }
    }
  }

  lemma NamesAppend(front: seq<Registration>, all: seq<Registration>, name: string)
    requires front <= all && |all| <= |front| + 1
    ensures HasName(all, name) <==> HasName(front, name) || (|front| < |all| && all[|front|].svc.name == name)
  {
    if k :| 0 <= k < |front| && front[k].svc.name == name {
      assert all[k].svc.name == name;
    }
    if k :| 0 <= k < |all| && all[k].svc.name == name {
      assert k < |front| ==> front[k].svc.name == name;
    }
  }

  /** Build succeeds exactly when every call was proper. */
  lemma {:induction false} BuildsIffProper(calls: seq<Call>)
    ensures AfterAll(EMPTY, calls).errs == [] <==> forall k :: 0 <= k < |calls| ==> Proper(calls, k)
  {
    if calls == [] {
      assert AfterAll(EMPTY, calls).errs == [];
    } else {
      var last, front := |calls| - 1, calls[..|calls| - 1];
      BuildsIffProper(front);
      AfterErrs(AfterAll(EMPTY, front), calls[last]);
      forall k | 0 <= k < last
        ensures Proper(calls, k) <==> Proper(front, k)
      {
        assert front[..k] == calls[..k];
      }
      if AfterAll(EMPTY, front).errs == [] {
        RefusedIff(calls);
      }
    }
  }

  lemma RefusedIff(calls: seq<Call>)
    requires calls != [] && AfterAll(EMPTY, calls[..|calls| - 1]).errs == []
    ensures Refusal(AfterAll(EMPTY, calls[..|calls| - 1]), calls[|calls| - 1]).None? <==> Proper(calls, |calls| - 1)
  {
    var last, front := calls[|calls| - 1], calls[..|calls| - 1];
    BuiltServices(front);
    if last.AddService? && last.svc.Some? {
      NamesRequested(front, last.svc.value.name);
      if last.opts != [] {
        ValidateIsExact(last.opts[|last.opts| - 1]);
      }
    }
  }

  // The settings.

  function ShutdownSetting(calls: seq<Call>): int {
    if calls == [] then 30_000_000_000
    else
      var last := calls[|calls| - 1];
      if last.WithShutdownTimeout? then last.timeout else ShutdownSetting(calls[..|calls| - 1])
  }

  function StartSetting(calls: seq<Call>): int {
    if calls == [] then 0
    else
      var last := calls[|calls| - 1];
      if last.WithStartTimeout? then last.timeout else StartSetting(calls[..|calls| - 1])
  }

  function EnvironmentSetting(calls: seq<Call>): string {
    if calls == [] then ""
    else
      var last := calls[|calls| - 1];
      if last.WithEnvironment? then last.environment else EnvironmentSetting(calls[..|calls| - 1])
  }

  function TasksAdded(calls: seq<Call>): seq<string> {
    if calls == [] then []
    else
      var last := calls[|calls| - 1];
      TasksAdded(calls[..|calls| - 1]) + if last.AddStartupTask? then [last.task] else []
  }

  lemma {:induction false} SetupSettings(calls: seq<Call>)
    requires AfterAll(EMPTY, calls).errs == []
    ensures var b := AfterAll(EMPTY, calls);
      && b.shutdownTimeout == ShutdownSetting(calls) && b.startTimeout == StartSetting(calls)
      && b.environment == EnvironmentSetting(calls) && b.tasks == TasksAdded(calls)
  {
    if calls != [] {
      var last := |calls| - 1;
      AfterErrs(AfterAll(EMPTY, calls[..last]), calls[last]);
      SetupSettings(calls[..last]);
      hide Refusal, HasName;
      match calls[last] {
        case AddService(_, _) =>
        case AddStartupTask(_, _) =>
        case WithShutdownTimeout(_) =>
        case WithStartTimeout(_) =>
        case WithEnvironment(_) =>
        case WithLogger(_) =>
        case AddHook(_, _) =>
        case WithObserver =>
      }
    }
  }

  /** The host that a sequence of calls configures. */
  function Built(calls: seq<Call>): Config {
    SetupIsSound(calls);
    Configuration(AfterAll(EMPTY, calls))
  }

  /** The host gets what the calls asked for: every service with its policy, in registration order, every task, and
      the last value of every setting, or its default. */
  lemma BuiltConfiguration(calls: seq<Call>)
    requires AfterAll(EMPTY, calls).errs == []
    ensures var c, asked := Built(calls), Requested(calls);
      && |c.services| == |asked|
      && (forall i :: 0 <= i < |asked| ==> c.services[i].readier == asked[i].svc.readier && c.services[i].restart == asked[i].restart)
      && c.tasks == |TasksAdded(calls)|
      && c.shutdownTimeout == ShutdownSetting(calls) && c.startTimeout == StartSetting(calls)
  {
    BuiltServices(calls);
    SetupSettings(calls);
  }

  /** A name requested twice never builds. */
  lemma DuplicatesNeverBuild(calls: seq<Call>, j: nat, k: nat)
    requires j < k < |Requested(calls)| && Requested(calls)[j].svc.name == Requested(calls)[k].svc.name
    ensures AfterAll(EMPTY, calls).errs != []
  {
    if AfterAll(EMPTY, calls).errs == [] {
      BuiltServices(calls);
      assert false;
    }
  }

  /** From the builder to the running host: whatever the calls, in every interleaving the restarts of every
      service with a safe policy are announced with delays within that policy's bounds. */
  lemma BuiltDelays(calls: seq<Call>, s: State, i: nat, p: Policy)
    requires Reachable(Built(calls), s) && i < |Built(calls).services|
    requires Built(calls).services[i].restart == Some(p) && Safe(p)
    ensures Accepted(p) && i < |s.svcs| && WithinBounds(p, s.svcs[i].sup)
    ensures forall k :: 0 <= k < |s.svcs[i].sup.reports| ==> 1 <= s.svcs[i].sup.reports[k].attempt
    ensures p.factor.Finite? ==> forall k :: 0 <= k < |s.svcs[i].sup.reports| ==>
      s.svcs[i].sup.reports[k].delay == Backoff(p, s.svcs[i].sup.reports[k].attempt - 1)
  {
    SetupIsSound(calls);
    HostDelays(Built(calls), s, i, p);
  }

  class Builder {
    var services: seq<Registration>
    var tasks: seq<string>
    var environment: string
    var shutdownTimeout: int
    var startTimeout: int
    var hasLogger: bool
    var hooks: seq<Hook>
    var observers: nat
    var errs: seq<BuildError>

    function Contents(): Setup
      reads this
    {
      Setup(services, tasks, environment, shutdownTimeout, startTimeout, hasLogger, hooks, observers, errs)
    }

    ghost predicate Valid()
      reads this
    {
      Sound(Contents())
    }

    constructor ()
      ensures Valid() && Contents() == EMPTY
    {
      services, tasks, environment, errs := [], [], "", [];
      shutdownTimeout, startTimeout := DEFAULT_SHUTDOWN_TIMEOUT, 0;
      hasLogger, hooks, observers := false, [], 0;
    }

    method AddService(svc: Option<Service>, opts: seq<Policy>)
      requires Valid()
      modifies this
      ensures Valid() && Contents() == After(old(Contents()), Call.AddService(svc, opts))
    {
      AfterSound(Contents(), Call.AddService(svc, opts));
      if svc.None? {
        errs := errs + [NilService];
        return;
      }
      var name := svc.value.name;
      if name == "" {
        errs := errs + [EmptyServiceName];
        return;
      }
      for k := 0 to |services|
        invariant Contents() == old(Contents())
        invariant forall j :: 0 <= j < k ==> services[j].svc.name != name
      {
        if services[k].svc.name == name {
          errs := errs + [DuplicateName(name)];
          return;
        }
      }
      var reg, regErr := Registration(svc.value, None), Option<PolicyError>.None;
      for k := 0 to |opts|
        invariant Contents() == old(Contents())
        invariant reg == Registered(svc.value, opts[..k])
        invariant regErr == if k == 0 then None else Validate(opts[k - 1])
      {
        reg, regErr := reg.(restart := Some(Normalized(opts[k]))), Validate(opts[k]);
      }
      assert opts[..|opts|] == opts;
      if regErr.Some? {
        errs := errs + [BadPolicy(name, regErr.value)];
        return;
      }
      services := services + [reg];
    }

    method AddStartupTask(task: string, isNil: bool)
      requires Valid()
      modifies this
      ensures Valid() && Contents() == After(old(Contents()), Call.AddStartupTask(task, isNil))
    {
      if task == "" {
        errs := errs + [EmptyTaskName];
      } else if isNil {
        errs := errs + [NilTask(task)];
      } else {
        tasks := tasks + [task];
      }
    }

    method WithShutdownTimeout(d: int)
      requires Valid()
      modifies this
      ensures Valid() && Contents() == After(old(Contents()), Call.WithShutdownTimeout(d))
    {
      if d <= 0 {
        errs := errs + [BadShutdownTimeout(d)];
      } else {
        shutdownTimeout := d;
      }
    }

    method WithStartTimeout(d: int)
      requires Valid()
      modifies this
      ensures Valid() && Contents() == After(old(Contents()), Call.WithStartTimeout(d))
    {
      if d <= 0 {
        errs := errs + [BadStartTimeout(d)];
      } else {
        startTimeout := d;
      }
    }

    method WithEnvironment(e: string)
      requires Valid()
      modifies this
      ensures Valid() && Contents() == After(old(Contents()), Call.WithEnvironment(e))
    {
      if e == "" {
        errs := errs + [EmptyEnvironment];
      } else {
        environment := e;
      }
    }

    method WithLogger(isNil: bool)
      requires Valid()
      modifies this
      ensures Valid() && Contents() == After(old(Contents()), Call.WithLogger(isNil))
    {
      if isNil {
        errs := errs + [NilLogger];
      } else {
        hasLogger := true;
      }
    }

    /** addHook, for each of the four hook lists. */
    method AddHook(hook: Hook, isNil: bool)
      requires Valid()
      modifies this
      ensures Valid() && Contents() == After(old(Contents()), Call.AddHook(hook, isNil))
    {
      if isNil {
        errs := errs + [NilHook(hook)];
      } else {
        hooks := hooks + [hook];
      }
    }

    method WithObserver()
      requires Valid()
      modifies this
      ensures Valid() && Contents() == After(old(Contents()), Call.WithObserver)
    {
      observers := observers + 1;
    }

    /** The configuration, or the errors collected on the way; the builder itself does not change. */
    method Build() returns (config: Option<Config>, env: string)
      requires Valid()
      ensures config.Some? <==> errs == []
      ensures config.Some? ==>
        && config.value == Configuration(Contents())
        && 0 < config.value.shutdownTimeout
        && forall k :: 0 <= k < |config.value.services| && config.value.services[k].restart.Some? ==>
             Accepted(config.value.services[k].restart.value)
      ensures env == if environment == "" then PRODUCTION else environment
    {
      env := if environment == "" then PRODUCTION else environment;
      if errs != [] {
        return None, env;
      }
      return Some(Configuration(Contents())), env;
    }
  }
}
