# shost: a verified model of the host lifecycle and the cron engine

shost runs long-lived services in one process: it launches them in registration order, restarts them
by policy, and stops them in reverse order within one deadline. Its `cron` package computes the run
times of cron expressions. This Dafny project models both and proves what they promise.

## What is here

**The host as a protocol** (`Protocol`, `HostInvariant`, `HostTheorems`, `HostEvents`, `HostRuns`, `HostLaws`). The main goroutine of
`RunContext`, one `supervise` goroutine and one `Stop` call per service, and an environment that moves
the clock, cancels the caller's context and calls `Shutdown`, are one labelled step relation. A Go
`select` with several ready cases is several enabled steps, and what services and tasks return, and
when, is arbitrary, so a theorem about every reachable state is a theorem about every interleaving.
`HostInvariant.Inv` is kept by every step; `HostTheorems` draws the guarantees from it. `HostRuns` reads a run
from its steps alone, without the state: the clock, what Start, Stop and the tasks returned, which select
cases were taken; `HostLaws` tells the guarantees in those terms.

**The host as code** (`HostLoop`, `Supervisor.Supervise`). `RunContext`, `runStartupTasks`, `stopAll` and
`supervise` are also written as the loops they are. Each loop is proved to take only steps of the
protocol and to end where the protocol says, so the theorems hold of the loops. The other goroutines
follow a script given from outside and may take any number of its steps between two of the loop's own;
the proofs hold for every script.

**Restart policies and the builder** (`Restart`, `Supervisor`, `HostBuilder`). The defaults and validation of a
policy, the backoff sequence, the law that decides when a supervisor gives up, and the builder calls
that establish what the host relies on.

**The cron engine** (`Calendar`, `CronNext`, `CronComplete`, `Strings`, `Masks`, `CronParse`, `CronText`, `CronService`). A
theory of the proleptic Gregorian calendar (leap years as in Appendix C of RFC 3339, weekdays proved to agree
with its Appendix B), the jumping search `Next` against its one-line specification, the exact case
in which `Next` says "never" wrongly, the parser from words to masks, and the loop that runs jobs.
Times are whole minutes since 1 January of year 1 at a fixed whole-minute UTC offset, plus the part of
the minute already gone.

**The logger's templates** (`Slog`). The placeholder scan against the parts a template is made of.

## Where the code and its documentation part

* `Schedule.Next` is documented to return zero when the schedule will never fire again
  (`cron/expr.go:10-12`), and `runSchedule` blocks for good on that answer. The search stops after five
  years (`cron/expr.go:189-190`), which is shorter than the eight years around a century such as 2100.
  `CronComplete.NeverIsWrongIff` gives the exact condition; `CronComplete.MissedLeapDay` the family of cases.
* A step near 2^63 makes the loop variable of `parsePart` wrap around and set bits that were not asked
  for. `CronParse.StrideExactIff` says for which steps the bits are the progression,
  `CronParse.PartExact` carries it to the text of a part and `CronParse.WrappingPart` shows one that fails.
* `MaxDelay` is documented to cap the backoff (`builder.go:30-31`). Validation lets through factors, NaN and
  +Inf among them, whose products do not fit a `time.Duration`; Go leaves the converted value to the
  machine, and the delay may become negative (`host.go:323-326`). The model makes such a value arbitrary.
  `Supervisor.AnnouncedInBoundsIff` says for which policies the announced delays keep their bounds
  (`Restart.Safe`), and `Restart.OverflowWitness` shows an accepted policy that does not.

## Model

| member | source | states |
|---|---|---|
| HostInvariant.InvStep | host.go:50-398 | every step of every goroutine keeps the invariant that ties the program counter, the supervisors, the channels, the joined error and the event trace together |
| HostInvariant.ReachableInv | host.go:50-398 | so every state of every interleaving satisfies it |
| HostTheorems.ReverseShutdown | host.go:331-377 | in every interleaving, until the stop deadline expires, a service's context is not cancelled and its Stop not called before every later launched service's Stop has returned and its final Start result has been received |
| HostTheorems.NoEarlyCancel | host.go:53-56 | before stopAll no service is touched, even when the caller's context is cancelled or Shutdown is called |
| HostTheorems.SendsNeverBlock | host.go:58-60 | each supervisor sends at most once on `done` and at most once on `exits`, `exits` never exceeds its capacity, and a supervisor that wants to send always can |
| HostTheorems.CauseIsDone | host.go:285-300 | an exit is readable only after the same error is on `done`, so stopAll never blocks on the service that caused the shutdown |
| HostTheorems.ShutdownBounded | host.go:334-398 | whatever the others do, stopAll and the return take at most three main steps per launched service and one more |
| HostTheorems.DeadlineSuffices | host.go:335-377 | once the deadline has expired the main goroutine is never blocked and returns by its own steps without time passing |
| HostTheorems.StopCalledOnce | host.go:339-349 | at the end exactly the launched services have been cancelled and had Stop called, once each |
| HostTheorems.ErrorsExact | host.go:148-171 | the returned error holds an entry exactly when the trigger or a service's outcome calls for it, and then once |
| HostTheorems.ErrorConservation | host.go:364-388 | a service that ends with a real error is named once, as the cause or as failed during shutdown, never both, or else as not stopping in time |
| HostTheorems.OutcomesAreReal | host.go:353-377 | what stopAll recorded is what the channels delivered; a service recorded as stuck was overtaken by the deadline |
| HostTheorems.CauseSent | host.go:112-114 | the cause index is set exactly when an exit was read, and names the service that sent that error |
| HostTheorems.NilIffClean | host.go:143-171 | RunContext returns nil exactly when no task failed, no start timeout was taken, no exit was read and every launched service stopped cleanly in time; a task failure or interruption launches nothing |
| HostTheorems.EventShape | host.go:82-171 | the observer events of every finished run: starts in registration order with each Readier ready before the next start, HostStarted only when all are up, at most one failure, the stops, HostStopped once |
| HostEvents.TraceAccepted | host.go:82-171 | an acceptor that knows only the registered services accepts the events of every run so far, and a finished run as finished: shutdown begins only before any launch, while a Readier is awaited or when all are up |
| HostTheorems.StoppedInReverse | host.go:339-396 | the stop events name each launched service once, in reverse order, with its report |
| HostTheorems.AtMostOneLateStart | host.go:269-321 | after stoppingCh is closed a supervisor calls Start at most once more, announces at most one restart, and sends one final message, although the timer may win its select |
| HostTheorems.LateRunIsLast | host.go:273-321 | after that extra run has begun the supervisor neither restarts, nor announces a restart, nor reports an exit |
| HostRuns.RunReads | host.go:50-398 | every run leads to the state that its steps call for: clock, environment, tasks, selects, exits, messages, measured times, Stop calls and deadlines |
| HostLaws.FinalMessages | host.go:261-329 | the one message on `done` is what the latest Start returned, or nil when shutdown ended the pause before a restart |
| HostLaws.StartErrorReported | host.go:364-388 | no Start error is lost or invented: when the host did not give up on a service, what its Start returned is there, and a real error in it is reported once, as the cause or as failed during shutdown |
| HostLaws.StopErrorReported | host.go:348-359 | no Stop error is lost or invented: an entry exactly for what Stop returned, when it was received |
| HostLaws.TaskFailureReported | host.go:214-234 | an entry for a task, once, exactly when that task returned an error that was not context.Canceled after cancellation |
| HostLaws.StartTimeoutReported | host.go:115-120 | the start timeout is reported exactly when its case was taken, for the service launched last |
| HostLaws.CauseReported | host.go:112-114 | the cause is the service whose exit was sent first, with what its Start returned, exactly when an exit was read |
| HostLaws.NilIff | host.go:148-171 | told by the steps: nil exactly when no task failed, neither the start timeout nor an exit nor the stop deadline was taken, and every launched service's Stop returned nil and its final message was nil or context.Canceled |
| HostLaws.FullTimeout | host.go:331-377 | from the moment stopAll begins every service has the whole shutdown timeout: until that much time has passed nobody is given up and the order of shutdown holds without exception |
| HostLaws.NoMoreThanTimeout | host.go:335-377 | once it has passed the main goroutine is never blocked and returns without time passing |
| HostLaws.ServingSelect | host.go:139-147 | exactly a cancelled context, a call of Shutdown or a sent exit ends serving |
| HostLaws.ReadinessSelect | host.go:98-127 | the same for the readiness select, with the Readier itself and the start timeout counted from the start of the run |
| HostLaws.TaskSelect | host.go:214-220 | between tasks: the next one begins unless a cancelled context or a call of Shutdown has reached the tasks |
| HostLaws.StopSelect | host.go:353-376 | what stopAll waits for: exactly what Stop returned, and then the service's final message |
| HostLaws.ShutdownHasReason | host.go:69-154 | the host never shuts down by itself |
| HostLaws.LaunchOrder | host.go:74-127 | services are launched only after every task was done without failure, past a Readier only when it is ready, and the host is started only when all are up |
| HostLaws.QuietEnd | host.go:273-283 | a supervisor ends without a report only when the host is shutting down |
| HostLaws.EndOfSupervisor | host.go:273-300 | a supervisor that has ended sent its exit to the host exactly when no select had found a shutdown; under a policy, exactly when the exits among its steps exhaust it |
| HostLaws.ExitsOfSteps | host.go:270-295 | the exits that the give-up law counts are the decisions among the steps, each with its measured time and what Start had returned |
| HostLaws.MeasuredRun | host.go:270-291 | the running time compared with ResetAfter is the time from the launch or the latest restart to the decision |
| HostLaws.PauseKept | host.go:307-321 | a restart waits for exactly the announced delay after the decision |
| HostLaws.OneLateRestart | host.go:313-321 | told by the steps: at most one restart after stoppingCh is closed |
| HostLaws.StopCallsInOrder | host.go:339-349 | after n calls Stop has been called, and the context cancelled, for exactly the last n launched services, and at the end for all of them |
| HostLaws.StopEventTellsErrors | host.go:379-395 | the stop event of a service agrees with the joined error: timed out, the Stop error, the Start error reported as failed during shutdown, or nil |
| HostLaws.FailureEventTellsCause | host.go:242-256 | the failure event names the cause that the joined error names |
| HostTheorems.HostGivesUpOnTime | host.go:285-300 | in every interleaving a restart policy decides which exits reach the host: exactly those that exhaust it |
| HostTheorems.HostDelays | host.go:291-326 | in every interleaving the announced delays of a service with a safe policy are its backoff, within its bounds |
| HostBuilder.BuiltDelays | builder.go:163-280 | from the builder calls to the running host: the same for every host that the builder can configure |
| HostLoop.World.RunContext | host.go:50-171 | the body of RunContext takes only protocol steps, with any steps of the other goroutines between two of its own, returns the protocol's joined error, and returns nil exactly when its steps are those of NilIff |
| HostLoop.World.RunStartupTasks | host.go:201-235 | the startup loop: the failure it returns is that of the task that failed among its steps, with what the task returned, and otherwise it says whether shutdown interrupted the tasks |
| HostLoop.World.AwaitReady | host.go:98-127 | the five-way readiness select, any ready case may be taken |
| HostLoop.World.Serve | host.go:139-147 | the serving select |
| HostLoop.World.StopEverything | host.go:334-398 | the downward loop returns, whatever the services do, and its errors are exactly what the protocol adds |
| HostLoop.World.StopService | host.go:340-388 | one turn: the entries are those its two waits call for |
| HostLoop.World.SuperviseService | host.go:261-329 | the restart loop with its clock and channels, among the steps of all other goroutines, takes only protocol steps; its counters are the protocol's, its sends never wait, and its one message is what its steps call for |
| Supervisor.GiveUpLaw | host.go:264-329 | over every run of the loop the exit is reported exactly when a streak first exceeds MaxAttempts, at length MaxAttempts + 1, never with MaxAttempts 0, and every restart is announced with its streak length and the delay that streak has come to, products that do not fit included |
| Supervisor.StreakStarts | host.go:291-295 | the attempt counter is the length of the one streak that ends at the latest exit, begun at the first run or at the latest one that lasted ResetAfter |
| Supervisor.AnnouncedDelays | host.go:307-326 | when every product that can come up fits, every announced delay is the backoff of its attempt, lies within the policy's bounds, and does not shrink within a streak |
| Supervisor.AnnouncedInBoundsIff | host.go:264-329 | and only then: an accepted policy keeps every delay it announces within its bounds, in every run on every machine, if and only if it is safe |
| Supervisor.Supervise | host.go:261-329 | the restart loop: it ends in the first round that does not lead to a restart, sends what that round and its streak decide, and takes only steps of the protocol's supervisor; without clock and channels |
| Restart.ValidateIsExact | builder.go:39-67 | validation accepts exactly the policies with ordered positive delays, non-negative attempts, a positive reset time and a factor that is not below 1, NaN and +Inf included |
| Restart.DefaultsFillZeros | builder.go:14-53 | zero fields take one second, one minute, 2 and one minute; the others stay |
| Restart.BackoffLaw | host.go:291-326 | for an accepted policy in range, the delays the machine computes lie within the bounds, never shrink, stay at the cap, lose less than one nanosecond of the product each time, are at most InitialDelay * Factor^k, and for a whole Factor equal min(MaxDelay, InitialDelay * Factor^k) |
| Restart.InRangeIff | host.go:323-326 | some product of the backoff does not fit a time.Duration exactly when the product of MaxDelay does not fit and the first product moves the delay; both can be checked beforehand |
| Restart.BoundsIff | host.go:323-326 | an accepted policy keeps every delay within its bounds, whatever the machine makes of a product that does not fit, if and only if it is in range; a factor that is not finite is never, but the cap always holds |
| Restart.InRangeIsSafe | host.go:291-326 | a policy in range is safe for any number of attempts |
| Restart.OverflowWitness | builder.go:55-67 | the policy with only Factor 1e10 set is accepted, its first product exceeds 2^63, and its next delay can be the least integer |
| HostBuilder.SetupIsSound | builder.go:116-250 | whatever the calls: names are unique and non-empty, policies are accepted ones, timeouts are positive |
| HostBuilder.BuildsIffProper | builder.go:118-250 | Build succeeds exactly when every call was proper: arguments present, positive times, an acceptable policy, a name not used before |
| HostBuilder.BuiltConfiguration | builder.go:253-280 | the host gets every service with its policy, in order, every task, and the last value of each setting or its default |
| HostBuilder.BuildsIffNothingRefused | builder.go:253-256 | Build succeeds exactly when no call was refused |
| HostBuilder.BuiltServices | builder.go:163-189 | a host that builds has exactly the requested services, in order |
| HostBuilder.DuplicatesNeverBuild | builder.go:173-178 | a name requested twice never builds |
| HostBuilder.Builder.AddService | builder.go:163-189 | the loops over registered names and options do what the specification of a call says |
| HostBuilder.Builder.Build | builder.go:253-280 | the configuration handed to the host, with every policy acceptable |
| Calendar.CivilRoundTrip | cron/expr.go:193-200 | every day number has one valid date and the date leads back to it |
| Calendar.DateRoundTrip | cron/expr.go:193-200 | and every valid date is found again from its day number |
| Calendar.NextMonth | cron/expr.go:195 | AddDate(0, 1, 0) from the first of a month is the first of the next, over year ends |
| Calendar.NextDay | cron/expr.go:199 | AddDate(0, 0, 1) is the next day, over month and year ends and leap days |
| Calendar.WeekdayAgrees | cron/expr.go:219 | counting days modulo seven agrees with the computation of Appendix B of RFC 3339 |
| CronNext.Next | cron/expr.go:186-213 | the jumping search ends and returns the least matching whole minute strictly after the instant and before the limit, or none when the window has none |
| CronNext.NextUnique | cron/expr.go:10-15 | that specification has one answer |
| CronNext.JumpIsQuiet | cron/expr.go:193-210 | every jump moves strictly forward and passes only minutes that do not match; no jump is left exactly when the minute matches |
| CronNext.TimeParts | cron/expr.go:202-206 | the hour and the minute of a minute of a day |
| CronComplete.LimitDay | cron/expr.go:189-190 | the search ends on the same date and time five years on |
| CronComplete.WeekdayInMonth | cron/expr.go:215-230 | every month contains every weekday |
| CronComplete.NoneIff | cron/expr.go:186-213 | Next answers "never" exactly when the fields allow no date, or only 29 February and the window holds no usable one |
| CronComplete.FiresAgainIff | cron/expr.go:186-230 | whether any later minute matches depends on the fields alone |
| CronComplete.NeverIsWrongIff | cron/expr.go:10-12 | the promise that zero means never fails exactly for 29-February schedules whose window holds no usable leap day |
| CronComplete.MissSpansCentury | cron/expr.go:189-190 | such a window contains a century year that is no leap year |
| CronComplete.MissedLeapDay | cron/expr.go:189-212 | around every such century the search says "never" although the schedule fires eight years after its last run |
| CronComplete.LeapMidnight2100 | cron/expr.go:189-212 | "0 0 29 2 *" asked on 1 March 2096 is told "never", and fires on 29 February 2104 |
| CronParse.LeapExpression | cron/expr.go:38-72 | the text "0 0 29 2 *" parses to that schedule |
| CronParse.StrideMask | cron/expr.go:163-167 | the bit loop ends for every step and sets exactly the stride's bits, machine-integer wrap-around included |
| CronParse.StrideExactIff | cron/expr.go:163-167 | those bits are the arithmetic progression if and only if the step is short enough; every step up to 2^63 - 1 - max is |
| CronParse.WrapWitness | cron/expr.go:164-166 | a step that wraps and sets bits not asked for |
| CronParse.WrappingPart | cron/expr.go:121-168 | the text "10/9223372036854775807" of a day-of-month part is accepted, asks for the 10th alone, and sets 0, 2, 4, 6, 8 and 10 |
| CronText.StarSets | cron/expr.go:125-167 | "*" sets the whole range and "*/n" every n-th value from its beginning, for every n that cannot wrap |
| CronText.ValueSets | cron/expr.go:150-167 | a number or name sets itself, and "a/n" every n-th value from a to the end of the range |
| CronText.RangeSets | cron/expr.go:138-167 | "a-b" sets a to b, and "a-b/n" every n-th value of them |
| CronText.StepRefused | cron/expr.go:125-132 | a step that is no number, zero or negative is refused |
| CronText.RangeRefused | cron/expr.go:138-149 | a descending range, or an end that is no value of the range, is refused |
| CronText.ValueRefused | cron/expr.go:150-154 | a text that is no value of the range is refused |
| CronText.EmptyRefused | cron/expr.go:122-124 | an empty part is refused |
| CronText.FieldLimits | cron/expr.go:50-62 | the numbers each field takes: 0-59, 0-23, 1-31, 1-12, 0-7 |
| CronText.MonthValues | cron/expr.go:94-97 | each month name, in any case, stands for its number |
| CronText.WeekdayValues | cron/expr.go:99-101 | each weekday name, in any case, stands for its number |
| CronText.FieldNames | cron/expr.go:170-175 | month and weekday names may stand wherever numbers may, in ranges and with steps |
| CronText.NumeralIsValue | cron/expr.go:176-183 | and every number of the range may |
| CronText.AliasMeans | cron/expr.go:39-41 | what each alias stands for, in any case and with any space around it |
| CronParse.StepPart | cron/expr.go:125-161 | the text "lo/step" runs from lo to the end of the range, for every lo and step |
| CronParse.PartExact | cron/expr.go:121-168 | an accepted part sets exactly the values it asks for if and only if its step does not wrap |
| CronParse.FieldMeans | cron/expr.go:109-168 | for every accepted field, wrapping steps included: it allows exactly the union of what its parts set, never less than they ask for |
| CronParse.FieldExact | cron/expr.go:109-168 | that is exactly the union of the parts' progressions if and only if no wrapping step adds a value; in particular when none wraps |
| CronParse.TameFieldAsks | cron/expr.go:109-168 | without wrapping steps what a field sets is what it asks for |
| CronParse.PartsNonEmpty | cron/expr.go:109-168 | whatever the steps, an accepted field allows something in its range and nothing above it |
| CronParse.ParsePart | cron/expr.go:121-168 | the part parser against its specification, errors included |
| CronParse.ParseField | cron/expr.go:109-119 | the field loop against its specification; the first bad part refuses the field |
| Strings.FieldsWord | cron/expr.go:42 | a word, any space after it, and the words of the rest |
| Strings.FieldsOfJoined | cron/expr.go:42 | words joined by spaces are split back into those words |
| Strings.TrimSurrounded | cron/expr.go:39 | the space around a text is cut off, and nothing else |
| Strings.NumeralReads | cron/expr.go:176 | a number written in decimal is read back |
| CronParse.Expr | cron/expr.go:38-72 | from the text: aliases whatever their case and the space around them, the five fields, Sunday as 7 and the two stars against the specification, errors included |
| CronParse.ExprMeans | cron/expr.go:22-72 | the schedule of any accepted words matches exactly the minutes whose minute, hour and month they set and whose day they set: either day word when both are restricted, the other one when one is "*", any day when both are; 7 is Sunday |
| CronParse.ExprIsParsed | cron/expr.go:38-72 | every schedule Expr returns has the non-empty fields that the search relies on |
| CronParse.ExprNeverIsWrongIff | cron/expr.go:38-213 | from text to answer: when the promise fails for an expression |
| CronParse.CommaListParses | cron/expr.go:109-119 | a comma list of values in range parses to exactly those values |
| CronParse.EverySetIsReached | cron/expr.go:109-119 | every non-empty set of values in range is the meaning of some field |
| CronParse.EveryFieldReachesEverySet | cron/expr.go:50-62 | in particular of each of the five fields, month and day names included |
| CronService.Service.RunSchedule | cron/cron.go:142-164 | the loop: every run at the target computed from the clock after the previous run, with StopOnError the first failed run is the last and its error is returned, otherwise only the end of the context returns, which failures reach the handler, when it ends as cancelled, and that an exhausted schedule waits for the context |
| CronService.Service.RunOnce | cron/cron.go:168-191 | one run; a run cancelled during its jitter starts no job and tells no handler |
| CronService.Service.Start | cron/cron.go:119-127 | the immediate first run and the loop after it |
| CronService.JobsCounted | cron/cron.go:168-191 | one job for each run that its jitter did not cancel |
| CronService.FailuresInOrder | cron/cron.go:182-189 | the handler is told each failed job's error once, in order |
| CronService.TargetsIncrease | cron/cron.go:142-164 | with a clock that does not run backwards targets are strictly increasing matching minutes, none run twice |
| CronService.SkippedExactly | cron/cron.go:95-98 | the matching minutes without a run between two targets are exactly those gone by when the earlier run was over |
| CronService.EveryMinuteAccounted | cron/cron.go:95-98 | every matching minute up to the last target was run or went by during a run |
| CronService.NotRunAndGoneBy | cron/cron.go:95-98 | and never both |
| CronService.SomeClockwork | cron/expr.go:186-213 | every expression has a schedule: a least matching minute, or none, at every instant |
| CronService.SearchIsSchedule | cron/expr.go:186-213 | and that schedule is what the search computes |
| Slog.RenderTemplate | slog.go:54-87 | the scan fills the placeholders in order and attaches one attribute to each filled one |
| Slog.NothingLost | slog.go:50-87 | reading a template into parts and writing them back gives the template |
| Slog.WrittenIsRead | slog.go:50-87 | text, "{}", named placeholders and an unclosed tail, in any order, are read as written: filled part by part, under their own names |
| Slog.EveryTemplate | slog.go:64-76 | and every template is written so |
| Slog.HoleFirst | slog.go:77-83 | a placeholder gives way to the next argument, or stays as it is when none is left |
| Slog.PairsInOrder | slog.go:79-83 | as many attributes as there are both placeholders and arguments, matched in order |
| Slog.Unchanged | slog.go:50-53 | without arguments, or when each argument prints as its own placeholder, the template comes out unchanged |

## Left out

- The HTTP, gRPC, gateway, Swagger UI, health, OpenTelemetry, systemd, single-instance and Windows packages: adapters over libraries.
- OS signals, Reload, environment variables and the test helpers of shosttest.
- Hooks, observer bodies and logging: assumed to end; only the event is recorded.
- Error wording: errors are tags with a flag for context.Canceled; a recovered panic is one more error.
- Calling RunContext twice: it closes stoppingCh and is modelled as called once.
- Readiness channels: a Readier may become ready at any time, and stays ready.
- The context of startup tasks: it may notice a cancelled ctx or Shutdown at any later moment; its own goroutine is not a process of the model.
- The deferred cancel of the base context after RunContext has returned.
- Supervisor.Supervise: what its selects find is an input; the same loop with its clock and channels is HostLoop.World.SuperviseService. Attempt counters are unbounded.
- Restart.BackoffLaw: Factor is a real number, NaN or an infinity; the rounding of float64 is not modelled.
- CronNext.Next: a fixed whole-minute UTC offset; daylight-saving changes, and sub-minute offsets, are not modelled. The zero time is None, so an answer that is itself the first instant of year 1 is not distinguished.
- Masks: a uint64 mask is the set of its bit positions, and a shift past bit 63 sets nothing; the word itself is not modelled.
- CronParse.Expr: a string is a sequence of Unicode characters, so invalid UTF-8 is not modelled; the error text is None.
- CronService.Service.RunSchedule: jitter delays, run timeouts and what a job does are inputs; a schedule is a function of the instant, with no state of its own.
- The fixed-interval ticker loop of Every: its dropped ticks are a property of time.Ticker.
- Slog.RenderTemplate: characters are Dafny's, not bytes, and how an argument prints is an input.
