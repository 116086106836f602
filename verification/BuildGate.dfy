/** How builds are started. The build controller reads the engine state, counts
    the builds it starts, and announces each to a FIFO queue; the reducer takes
    actions off the queue and counts the starts it sees. Between the two counts
    the controller keeps from starting a build twice.

    Which manifest to build next is left open: any manifest without a build.
    Names of Tiltfiles are taken to differ from those of manifests. */
module BuildGate {
  import opened Shared
  import opened Decimals

  type Name = string

  datatype Source = BuildControl | LiveUpdate

  datatype BuildError = NoError | BuildFailed(message: string) | BuildFatal(message: string)

  datatype Action =
    | Started(name: Name, source: Source, span: nat)
    | Completed(name: Name, source: Source, span: nat, error: BuildError)
    | Reloaded(dropped: set<Name>, created: set<Name>, maxParallel: int)
    | Failed(message: string)
    | Exit(cause: Option<string>)
    | Unrecognized
    | Irrelevant

  /** A finished build as the history of its manifest keeps it; an unset span is 0. */
  datatype Record = Record(source: Source, span: nat)

  const BuildHistoryLimit := 2

  datatype Engine = Engine(
    startCount: nat,
    completedCount: nat,
    fatalError: Option<string>,
    userExited: bool,
    manifests: map<Name, map<Source, nat>>,
    buildSet: set<Name>,
    maxParallel: int,
    history: map<Name, seq<Record>>)

  predicate IsBuilding(manifests: map<Name, map<Source, nat>>, n: Name) {
    n in manifests && manifests[n] != map[]
  }

  function MaxParallelUpdates(max: int): nat {
    if max < 1 then 1 else max
  }

  function AvailableBuildSlots(e: Engine): nat {
    if |e.buildSet| >= MaxParallelUpdates(e.maxParallel) then 0 else MaxParallelUpdates(e.maxParallel) - |e.buildSet|
  }

  function HistoryOf(e: Engine, n: Name): seq<Record> {
    if n in e.history then e.history[n] else []
  }

  /** The most recent build comes first, and only so many are kept. */
  function AddCompletedBuild(history: seq<Record>, r: Record): seq<Record> {
    var all := [r] + history;
    if |all| > BuildHistoryLimit then all[..BuildHistoryLimit] else all
  }

  function BuildStarted(e: Engine, n: Name, source: Source, span: nat): Engine {
    var counted := if source == BuildControl then e.(startCount := e.startCount + 1) else e;
    if n !in e.manifests then counted
    else
      var current: map<Source, nat> := e.manifests[n][source := span];
      counted.(manifests := e.manifests[n := current], buildSet := e.buildSet + {n})
  }

  function SpanOf(e: Engine, n: Name, source: Source): nat {
    if n in e.manifests && source in e.manifests[n] then e.manifests[n][source] else 0
  }

  function BuildCompleted(e: Engine, n: Name, source: Source, error: BuildError): Engine {
    var known := n in e.manifests;
    var manifests := if known then e.manifests[n := e.manifests[n] - {source}] else e.manifests;
    e.(completedCount := e.completedCount + 1,
       manifests := manifests,
       history := if known then e.history[n := AddCompletedBuild(HistoryOf(e, n), Record(source, SpanOf(e, n, source)))] else e.history,
       fatalError := if known && error.BuildFatal? then Some(error.message) else e.fatalError,
       buildSet := if IsBuilding(manifests, n) then e.buildSet else e.buildSet - {n})
  }

  function ConfigsReloaded(e: Engine, dropped: set<Name>, created: set<Name>, max: int): Engine {
    e.(manifests := (e.manifests - dropped - created) + (map n | n in created :: map[]),
       history := e.history - dropped - created,
       maxParallel := max)
  }

  function Reduced(e: Engine, a: Action): Engine {
    if a.Exit? then
      if a.cause.Some? then e.(fatalError := a.cause) else e.(userExited := true)
    else if e.fatalError.Some? then e
    else
      match a
      case Started(n, source, span) => BuildStarted(e, n, source, span)
      case Completed(n, source, span, error) => BuildCompleted(e, n, source, error)
      case Reloaded(dropped, created, max) => ConfigsReloaded(e, dropped, created, max)
      case Failed(message) => e.(fatalError := Some(message))
      case Unrecognized => e.(fatalError := Some("unrecognized action"))
      case Irrelevant => e
  }

  // ---- the system ----

  datatype Phase = Launched | Registered | Finished | Cleaned

  datatype Build = Build(name: Name, span: nat, phase: Phase)

  /** The functions that cancel builds, by manifest, and the builds whose
      context was cancelled. A build is known by its span. */
  datatype Contexts = Contexts(stopFns: map<Name, nat>, cancelled: set<nat>)

  function Registering(c: Contexts, n: Name, span: nat): Contexts {
    c.(stopFns := c.stopFns[n := span])
  }

  /** Cancel whatever is registered under the name, and forget it. */
  function CleaningUp(c: Contexts, n: Name): Contexts {
    if n in c.stopFns then Contexts(c.stopFns - {n}, c.cancelled + {c.stopFns[n]}) else c
  }

  /** decided is a build chosen by the controller but not yet announced; the
      state's lock is not held between the two. */
  datatype System = System(
    count: nat,
    contexts: Contexts,
    decided: Option<Name>,
    builds: seq<Build>,
    engine: Engine,
    queue: seq<Action>)

  datatype Step =
    | Decide(next: Name)
    | Announce
    | Register(k: nat)
    | Complete(k: nat, error: BuildError)
    | Cleanup(k: nat)
    | Sweep(name: Name)
    | Dispatch(action: Action)
    | Reduce

  predicate NeedsBuild(count: nat, e: Engine) {
    count <= e.startCount && AvailableBuildSlots(e) >= 1
  }

  predicate HasPhase(s: System, k: nat, p: Phase) {
    1 <= k <= |s.builds| && s.builds[k - 1].phase == p
  }

  predicate ByController(a: Action) {
    (a.Started? || a.Completed?) && a.source == BuildControl
  }

  predicate Enabled(s: System, step: Step) {
    match step
    case Decide(n) => s.decided == None && NeedsBuild(s.count, s.engine) && n in s.engine.manifests && !IsBuilding(s.engine.manifests, n)
    case Announce => s.decided.Some?
    case Register(k) => HasPhase(s, k, Launched)
    case Complete(k, _) => HasPhase(s, k, Registered)
    case Cleanup(k) => HasPhase(s, k, Finished)
    case Sweep(_) => true
    case Dispatch(a) => !ByController(a)
    case Reduce => s.queue != []
  }

  function SetPhase(builds: seq<Build>, k: nat, p: Phase): (r: seq<Build>)
    requires 1 <= k <= |builds|
    ensures |r| == |builds|
    ensures forall j :: 0 <= j < |r| ==> r[j] == if j == k - 1 then builds[j].(phase := p) else builds[j]
  {
    builds[k - 1 := builds[k - 1].(phase := p)]
  }

  function After(s: System, step: Step): System
    requires Enabled(s, step)
  {
    match step
    case Decide(n) => s.(count := s.count + 1, decided := Some(n))
    case Announce =>
      s.(decided := None,
         builds := s.builds + [Build(s.decided.value, s.count, Launched)],
         queue := s.queue + [Started(s.decided.value, BuildControl, s.count)])
    case Register(k) =>
      s.(builds := SetPhase(s.builds, k, Registered), contexts := Registering(s.contexts, s.builds[k - 1].name, k))
    case Complete(k, error) =>
      var b := s.builds[k - 1];
      s.(builds := SetPhase(s.builds, k, Finished),
         queue := s.queue + [Completed(b.name, BuildControl, b.span, if k in s.contexts.cancelled then BuildFailed("build canceled") else error)])
    case Cleanup(k) => s.(builds := SetPhase(s.builds, k, Cleaned), contexts := CleaningUp(s.contexts, s.builds[k - 1].name))
    case Sweep(n) => s.(contexts := CleaningUp(s.contexts, n))
    case Dispatch(a) => s.(queue := s.queue + [a])
    case Reduce => s.(queue := s.queue[1..], engine := Reduced(s.engine, s.queue[0]))
  }

  predicate ValidRun(s: System, steps: seq<Step>)
    decreases |steps|
  {
    steps == [] || (Enabled(s, steps[0]) && ValidRun(After(s, steps[0]), steps[1..]))
  }

  function Final(s: System, steps: seq<Step>): System
    requires ValidRun(s, steps)
    decreases |steps|
  {
    if steps == [] then s else Final(After(s, steps[0]), steps[1..])
  }

  lemma {:induction false} RunThen(s: System, steps: seq<Step>, step: Step)
    requires ValidRun(s, steps) && Enabled(Final(s, steps), step)
    ensures ValidRun(s, steps + [step]) && Final(s, steps + [step]) == After(Final(s, steps), step)
    decreases |steps|
  {
    if steps == [] {
      assert steps + [step] == [step];
    } else {
      assert (steps + [step])[1..] == steps[1..] + [step];
      RunThen(After(s, steps[0]), steps[1..], step);
    }
  }

  function Initial(max: int): System {
    System(0, Contexts(map[], {}), None, [], Engine(0, 0, None, false, map[], {}, max, map[]), [])
  }

  // ---- the two counts ----

  predicate IsStart(a: Action) {
    a.Started? && a.source == BuildControl
  }

  function StartsIn(q: seq<Action>): nat {
    if q == [] then 0 else (if IsStart(q[0]) then 1 else 0) + StartsIn(q[1..])
  }

  /** Starts the controller has counted and the reducer has not yet seen. */
  function Undelivered(s: System): nat {
    StartsIn(s.queue) + if s.decided.Some? then 1 else 0
  }

  ghost predicate CountsAgree(s: System) {
    && s.engine.startCount + Undelivered(s) <= s.count <= s.engine.startCount + 1
    && (s.engine.fatalError == None ==> s.count == s.engine.startCount + Undelivered(s))
  }

  ghost predicate SpansInOrder(s: System) {
    && |s.builds| + (if s.decided.Some? then 1 else 0) == s.count
    && forall i :: 0 <= i < |s.builds| ==> s.builds[i].span == i + 1
  }

  lemma {:induction false} StartsInSnoc(q: seq<Action>, a: Action)
    ensures StartsIn(q + [a]) == StartsIn(q) + if IsStart(a) then 1 else 0
    decreases |q|
  {
    if q == [] {
      assert q + [a] == [a];
    } else {
      assert (q + [a])[1..] == q[1..] + [a];
      StartsInSnoc(q[1..], a);
    }
  }

  lemma StepKeepsCounts(s: System, step: Step)
    requires CountsAgree(s) && SpansInOrder(s) && Enabled(s, step)
    ensures CountsAgree(After(s, step)) && SpansInOrder(After(s, step))
  {
    match step {
      case Announce => StartsInSnoc(s.queue, Started(s.decided.value, BuildControl, s.count));
      case Complete(k, _) => StartsInSnoc(s.queue, After(s, step).queue[|s.queue|]);
      case Dispatch(a) => StartsInSnoc(s.queue, a);
      case _ =>
    }
  }

  lemma {:induction false} RunKeepsCounts(s: System, steps: seq<Step>)
    requires CountsAgree(s) && SpansInOrder(s) && ValidRun(s, steps)
    ensures CountsAgree(Final(s, steps)) && SpansInOrder(Final(s, steps))
    decreases |steps|
  {
    if steps != [] {
      StepKeepsCounts(s, steps[0]);
      RunKeepsCounts(After(s, steps[0]), steps[1..]);
    }
  }

  // ---- after a fatal error ----

  lemma StepKeepsFatal(s: System, step: Step)
    requires s.engine.fatalError.Some? && Enabled(s, step)
    ensures After(s, step).engine.fatalError.Some?
    ensures After(s, step).engine.startCount == s.engine.startCount
  {
  }

  lemma {:induction false} FatalErrorStays(s: System, steps: seq<Step>)
    requires s.engine.fatalError.Some? && ValidRun(s, steps)
    ensures Final(s, steps).engine.fatalError.Some?
    ensures Final(s, steps).engine.startCount == s.engine.startCount
    decreases |steps|
  {
    if steps != [] {
      StepKeepsFatal(s, steps[0]);
      FatalErrorStays(After(s, steps[0]), steps[1..]);
    }
  }

  /** A fatal error is for ever, and of all the builds the controller may still
      start there is at most one; none, if the reducer is still behind. */
  lemma AtMostOneBuildAfterFatal(max: int, steps: seq<Step>, more: seq<Step>)
    requires ValidRun(Initial(max), steps)
    requires Final(Initial(max), steps).engine.fatalError.Some?
    requires ValidRun(Final(Initial(max), steps), more)
    ensures var s, s' := Final(Initial(max), steps), Final(Final(Initial(max), steps), more);
            && s'.engine.fatalError.Some?
            && s'.count <= s.count + 1
            && (Undelivered(s) > 0 ==> s'.count == s.count)
  {
    var s := Final(Initial(max), steps);
    RunKeepsCounts(Initial(max), steps);
    RunKeepsCounts(s, more);
    FatalErrorStays(s, more);
    CountOnlyGrows(s, more);
  }

  lemma {:induction false} CountOnlyGrows(s: System, steps: seq<Step>)
    requires ValidRun(s, steps)
    ensures Final(s, steps).count >= s.count
    decreases |steps|
  {
    if steps != [] {
      CountOnlyGrows(After(s, steps[0]), steps[1..]);
    }
  }

  // ---- span IDs ----

  function SpanId(n: nat): string {
    "build:" + Decimal(n)
  }

  /** In every run: the controller's count is the reducer's plus what is still
      under way to it, never more than one ahead; and no two builds share a span. */
  lemma EveryRunCounts(max: int, steps: seq<Step>)
    requires ValidRun(Initial(max), steps)
    ensures var s := Final(Initial(max), steps);
            && s.count <= s.engine.startCount + 1
            && (s.engine.fatalError == None ==> s.count == s.engine.startCount + Undelivered(s))
            && forall i, j :: 0 <= i < j < |s.builds| ==> SpanId(s.builds[i].span) != SpanId(s.builds[j].span)
  {
    RunKeepsCounts(Initial(max), steps);
    var s := Final(Initial(max), steps);
    forall i, j | 0 <= i < j < |s.builds|
      ensures SpanId(s.builds[i].span) != SpanId(s.builds[j].span)
    {
      var a, b := s.builds[i].span, s.builds[j].span;
      if SpanId(a) == SpanId(b) {
        assert SpanId(a)[6..] == Decimal(a) && SpanId(b)[6..] == Decimal(b);
        DecimalInjective(a, b);
      }
    }
  }
}
