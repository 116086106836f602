/** Applying the batches of Batches one after the other, the entities of one
    batch by a bounded group of workers. A worker's steps interleave freely;
    what the cluster answers is up to the environment. Every state carries the
    history of what happened so far. */
module Upserting {
  import opened Shared
  import opened Batches

  const MaxUpsertWorkers := 10

  datatype Error = UpdateFailed(message: string) | ContextDone

  datatype Outcome = Made(entities: seq<Entity>) | Failed(error: Error)

  datatype Result = Ok(entities: seq<Entity>) | Err(error: Error)

  /** A spawned worker; one that has not been spawned has no entry. */
  datatype Task = Spawned | Updating | Returned(outcome: Outcome) | Finished(outcome: Outcome)

  /** Positions are those of the list given to Upsert. */
  datatype Event = Began(position: nat) | Ended(position: nat, outcome: Outcome) | Stopped(error: Error)

  datatype State = State(
    batch: nat,
    tasks: seq<Task>,
    error: Option<Error>,
    interrupted: bool,
    results: seq<Entity>,
    returned: Option<Result>,
    trace: seq<Event>)

  datatype Step = Spawn | Begin(i: nat) | Finish(i: nat, outcome: Outcome) | Record(i: nat) | Barrier | Interrupt

  function Low(bs: seq<Batch>, b: nat): nat
    requires b <= |bs|
  {
    |Flatten(bs[..b])|
  }

  function NextBatch(bs: seq<Batch>, s: State): State {
    if s.batch == |bs| then s.(returned := Some(Ok(s.results))) else s
  }

  function Initial(bs: seq<Batch>): State {
    NextBatch(bs, State(0, [], None, false, [], None, []))
  }

  /** Workers that hold one of the group's slots. */
  function Active(tasks: seq<Task>): set<nat> {
    set i | 0 <= i < |tasks| && !tasks[i].Finished?
  }

  function Outputs(tasks: seq<Task>): (outs: seq<seq<Entity>>)
    ensures |outs| == |tasks|
    ensures forall i :: 0 <= i < |tasks| && tasks[i].Finished? && tasks[i].outcome.Made? ==> tasks[i].outcome.entities == outs[i]
  {
    seq(|tasks|, i requires 0 <= i < |tasks| =>
      if tasks[i].Finished? && tasks[i].outcome.Made? then tasks[i].outcome.entities else [])
  }

  predicate Enabled(bs: seq<Batch>, s: State, step: Step) {
    && s.returned == None && s.batch < |bs|
    && match step
       case Spawn => |s.tasks| < |bs[s.batch]| && |Active(s.tasks)| < MaxUpsertWorkers
       case Begin(i) => i < |s.tasks| && s.tasks[i] == Spawned
       case Finish(i, _) => i < |s.tasks| && s.tasks[i] == Updating
       case Record(i) => i < |s.tasks| && s.tasks[i].Returned?
       case Barrier => |s.tasks| == |bs[s.batch]| && forall i :: 0 <= i < |s.tasks| ==> s.tasks[i].Finished?
       case Interrupt => !s.interrupted
  }

  function After(bs: seq<Batch>, s: State, step: Step): State
    requires Enabled(bs, s, step)
  {
    match step
    case Spawn => s.(tasks := s.tasks + [Spawned])
    case Begin(i) =>
      if s.error.Some? || s.interrupted then
        s.(tasks := s.tasks[i := Returned(Failed(ContextDone))])
      else
        s.(tasks := s.tasks[i := Updating], trace := s.trace + [Began(Low(bs, s.batch) + i)])
    case Finish(i, o) =>
      s.(tasks := s.tasks[i := Returned(o)], trace := s.trace + [Ended(Low(bs, s.batch) + i, o)])
    case Record(i) =>
      var o := s.tasks[i].outcome;
      var s' := s.(tasks := s.tasks[i := Finished(o)]);
      if o.Failed? && s.error == None then
        s'.(error := Some(o.error), trace := s.trace + [Stopped(o.error)])
      else s'
    case Barrier =>
      if s.error.Some? then s.(returned := Some(Err(s.error.value)))
      else NextBatch(bs, s.(batch := s.batch + 1, tasks := [], results := s.results + Flatten(Outputs(s.tasks))))
    case Interrupt => s.(interrupted := true)
  }

  predicate ValidRun(bs: seq<Batch>, s: State, steps: seq<Step>)
    decreases |steps|
  {
    steps == [] || (Enabled(bs, s, steps[0]) && ValidRun(bs, After(bs, s, steps[0]), steps[1..]))
  }

  function Final(bs: seq<Batch>, s: State, steps: seq<Step>): State
    requires ValidRun(bs, s, steps)
    decreases |steps|
  {
    if steps == [] then s else Final(bs, After(bs, s, steps[0]), steps[1..])
  }

  // ---- what a history may look like ----

  /** Where the batch that holds position k begins. */
  function BatchStart(bs: seq<Batch>, k: nat): nat {
    if bs == [] then 0
    else
      var rest := bs[..|bs| - 1];
      if k >= |Flatten(rest)| then |Flatten(rest)| else BatchStart(rest, k)
  }

  ghost predicate HasEnded(trace: seq<Event>, k: nat) {
    exists o :: Ended(k, o) in trace
  }

  ghost predicate Succeeded(trace: seq<Event>, k: nat) {
    exists out :: Ended(k, Made(out)) in trace
  }

  ghost predicate HasStopped(trace: seq<Event>) {
    exists e :: Stopped(e) in trace
  }

  ghost function InFlight(trace: seq<Event>, n: nat): set<nat> {
    set k | 0 <= k < n && Began(k) in trace && !HasEnded(trace, k)
  }

  ghost predicate Admissible(bs: seq<Batch>, before: seq<Event>, e: Event) {
    match e
    case Began(k) =>
      && k < |Flatten(bs)|
      && Began(k) !in before
      && !HasStopped(before)
      && |InFlight(before, |Flatten(bs)|)| < MaxUpsertWorkers
      && forall p: nat :: p < BatchStart(bs, k) ==> Succeeded(before, p)
    case Ended(k, _) => Began(k) in before && !HasEnded(before, k)
    case Stopped(_) => !HasStopped(before)
  }

  ghost predicate GoodTrace(bs: seq<Batch>, trace: seq<Event>) {
    forall j {:trigger trace[..j]} :: 0 <= j < |trace| ==> Admissible(bs, trace[..j], trace[j])
  }

  lemma GoodTraceSnoc(bs: seq<Batch>, trace: seq<Event>, e: Event)
    requires GoodTrace(bs, trace) && Admissible(bs, trace, e)
    ensures GoodTrace(bs, trace + [e])
  {
    var more := trace + [e];
    forall j | 0 <= j < |more|
      ensures Admissible(bs, more[..j], more[j])
    {
      if j < |trace| {
        assert more[..j] == trace[..j];
      } else {
        assert more[..j] == trace;
      }
    }
  }

  // ---- the invariant ----

  ghost predicate TaskFits(s: State, k: nat, t: Task) {
    match t
    case Spawned => Began(k) !in s.trace && !HasEnded(s.trace, k)
    case Updating => Began(k) in s.trace && !HasEnded(s.trace, k)
    case Returned(o) => OutcomeFits(s, k, o)
    case Finished(o) => OutcomeFits(s, k, o) && (o.Failed? ==> s.error.Some?)
  }

  ghost predicate OutcomeFits(s: State, k: nat, o: Outcome) {
    if Began(k) in s.trace then Ended(k, o) in s.trace
    else o == Failed(ContextDone) && (s.error.Some? || s.interrupted) && !HasEnded(s.trace, k)
  }

  ghost predicate Untouched(trace: seq<Event>, from: nat) {
    forall k: nat {:trigger Began(k)} {:trigger HasEnded(trace, k)} :: k >= from ==> Began(k) !in trace && !HasEnded(trace, k)
  }

  ghost predicate Explains(trace: seq<Event>, outs: seq<seq<Entity>>) {
    forall k :: 0 <= k < |outs| ==> Ended(k, Made(outs[k])) in trace
  }

  ghost predicate ErrorFits(s: State) {
    match s.error
    case None => !HasStopped(s.trace)
    case Some(e) =>
      && Stopped(e) in s.trace
      && (Caused(s.trace, e) || (s.interrupted && e == ContextDone))
  }

  ghost predicate Caused(trace: seq<Event>, e: Error) {
    exists k :: Ended(k, Failed(e)) in trace
  }

  /** An error was set by one of this batch's workers. */
  ghost predicate Blamed(s: State) {
    s.error.Some? ==> exists i :: 0 <= i < |s.tasks| && s.tasks[i].Finished? && s.tasks[i].outcome.Failed?
  }

  ghost predicate TasksFit(s: State, lo: nat) {
    forall i :: 0 <= i < |s.tasks| ==> TaskFits(s, lo + i, s.tasks[i])
  }

  ghost predicate Results(s: State, lo: nat) {
    exists outs: seq<seq<Entity>> :: |outs| == lo && Explains(s.trace, outs) && s.results == Flatten(outs)
  }

  ghost predicate Inv(bs: seq<Batch>, s: State) {
    && s.batch <= |bs|
    && var lo := Low(bs, s.batch);
    && (s.batch < |bs| ==> |s.tasks| <= |bs[s.batch]|)
    && (s.batch == |bs| ==> s.tasks == [] && s.returned == Some(Ok(s.results)) && s.error == None)
    && (s.batch < |bs| && s.returned.Some? ==> s.error.Some? && s.returned == Some(Err(s.error.value)))
    && |Active(s.tasks)| <= MaxUpsertWorkers
    && GoodTrace(bs, s.trace)
    && TasksFit(s, lo)
    && Untouched(s.trace, lo + |s.tasks|)
    && Results(s, lo)
    && ErrorFits(s)
    && Blamed(s)
  }

  // ---- every step keeps the invariant ----

  /** s' has what s has, and more history that does not speak of k. */
  ghost predicate Onward(s: State, s': State, k: nat) {
    && (forall e :: e in s.trace ==> e in s'.trace)
    && (Began(k) in s'.trace ==> Began(k) in s.trace)
    && (forall o :: Ended(k, o) in s'.trace ==> Ended(k, o) in s.trace)
    && (s.error.Some? ==> s'.error.Some?)
    && (s.interrupted ==> s'.interrupted)
  }

  lemma TaskFitsOnward(s: State, s': State, k: nat, t: Task)
    requires TaskFits(s, k, t) && Onward(s, s', k)
    ensures TaskFits(s', k, t)
  {
  }

  /** At most one event is new, and it does not speak of other positions
      than k. */
  ghost predicate Adds(s: State, s': State, k: nat) {
    && (s'.trace == s.trace || exists e :: s'.trace == s.trace + [e] && (e.Stopped? || e.position == k))
    && (s.error.Some? ==> s'.error.Some?)
    && s'.interrupted == s.interrupted
  }

  lemma AddsIsOnward(s: State, s': State, k: nat, other: nat)
    requires Adds(s, s', k) && other != k
    ensures Onward(s, s', other)
  {
  }

  lemma OthersFit(s: State, s': State, lo: nat, i: nat)
    requires TasksFit(s, lo) && i < |s.tasks| == |s'.tasks| && s'.tasks == s.tasks[i := s'.tasks[i]]
    requires Adds(s, s', lo + i)
    requires TaskFits(s', lo + i, s'.tasks[i])
    ensures TasksFit(s', lo)
  {
    forall j | 0 <= j < |s.tasks|
      ensures TaskFits(s', lo + j, s'.tasks[j])
    {
      if j != i {
        AddsIsOnward(s, s', lo + i, lo + j);
        TaskFitsOnward(s, s', lo + j, s.tasks[j]);
      }
    }
  }

  lemma ResultsOnward(s: State, s': State, lo: nat)
    requires Results(s, lo) && s'.results == s.results
    requires forall e :: e in s.trace ==> e in s'.trace
    ensures Results(s', lo)
  {
    var outs: seq<seq<Entity>> :| |outs| == lo && Explains(s.trace, outs) && s.results == Flatten(outs);
    assert Explains(s'.trace, outs);
  }

  lemma {:induction false} Shifted(a: set<nat>, b: set<nat>, lo: nat)
    requires forall k :: k in a ==> k >= lo && k - lo in b
    ensures |a| <= |b|
    decreases |a|
  {
    if a != {} {
      var k :| k in a;
      Shifted(a - {k}, b - {k - lo}, lo);
    }
  }

  lemma EarlierHasEnded(s: State, lo: nat, k: nat)
    requires Results(s, lo) && k < lo
    ensures HasEnded(s.trace, k)
  {
    var outs: seq<seq<Entity>> :| |outs| == lo && Explains(s.trace, outs) && s.results == Flatten(outs);
    assert Ended(k, Made(outs[k])) in s.trace;
  }

  lemma FlyingIsActive(s: State, lo: nat, k: nat)
    requires Results(s, lo) && TasksFit(s, lo) && Untouched(s.trace, lo + |s.tasks|)
    requires Began(k) in s.trace && !HasEnded(s.trace, k)
    ensures lo <= k < lo + |s.tasks| && k - lo in Active(s.tasks) && s.tasks[k - lo] != Spawned
  {
    if k < lo {
      EarlierHasEnded(s, lo, k);
    } else {
      assert k < lo + |s.tasks|;
      assert TaskFits(s, lo + (k - lo), s.tasks[k - lo]);
    }
  }

  lemma InFlightIsActive(bs: seq<Batch>, s: State, i: nat)
    requires Inv(bs, s) && i < |s.tasks| && s.tasks[i] == Spawned
    ensures |InFlight(s.trace, |Flatten(bs)|)| < MaxUpsertWorkers
  {
    var lo := Low(bs, s.batch);
    var flying, others := InFlight(s.trace, |Flatten(bs)|), Active(s.tasks) - {i};
    forall k | k in flying
      ensures k >= lo && k - lo in others
    {
      FlyingIsActive(s, lo, k);
    }
    Shifted(flying, others, lo);
    assert i in Active(s.tasks);
  }

  lemma {:induction false} LowMonotone(bs: seq<Batch>, b: nat, c: nat)
    requires b <= c <= |bs|
    ensures Low(bs, b) <= Low(bs, c)
    decreases c
  {
    if b < c {
      LowMonotone(bs, b, c - 1);
      assert bs[..c][..c - 1] == bs[..c - 1];
    }
  }

  lemma LowNext(bs: seq<Batch>, b: nat)
    requires b < |bs|
    ensures Low(bs, b + 1) == Low(bs, b) + |bs[b]| && Low(bs, b + 1) <= |Flatten(bs)|
  {
    assert bs[..b + 1][..b] == bs[..b];
    assert bs[..|bs|] == bs;
    LowMonotone(bs, b + 1, |bs|);
  }

  lemma {:induction false} BatchStartIsLow(bs: seq<Batch>, b: nat, i: nat)
    requires b < |bs| && i < |bs[b]|
    ensures BatchStart(bs, Low(bs, b) + i) == Low(bs, b)
    decreases |bs|
  {
    var rest := bs[..|bs| - 1];
    if b < |rest| {
      LowNext(bs, b);
      LowMonotone(bs, b + 1, |rest|);
      assert rest[..b] == bs[..b];
      BatchStartIsLow(rest, b, i);
    }
  }

  lemma InitialInv(bs: seq<Batch>)
    ensures Inv(bs, Initial(bs))
  {
    var s := Initial(bs);
    assert bs[..0] == [];
    assert Active([]) == {};
    assert Explains([], []);
    assert Results(s, 0);
  }

  lemma SpawnFits(s: State, s': State, lo: nat)
    requires TasksFit(s, lo) && Untouched(s.trace, lo + |s.tasks|)
    requires s' == s.(tasks := s.tasks + [Spawned])
    ensures TasksFit(s', lo) && Untouched(s'.trace, lo + |s'.tasks|)
  {
    forall j | 0 <= j < |s'.tasks|
      ensures TaskFits(s', lo + j, s'.tasks[j])
    {
      if j < |s.tasks| {
        assert TaskFits(s, lo + j, s.tasks[j]);
      }
    }
  }

  lemma SpawnKeeps(bs: seq<Batch>, s: State)
    requires Inv(bs, s) && Enabled(bs, s, Spawn)
    ensures Inv(bs, After(bs, s, Spawn))
  {
    var s' := After(bs, s, Spawn);
    var lo := Low(bs, s.batch);
    assert Active(s'.tasks) == Active(s.tasks) + {|s.tasks|};
    SpawnFits(s, s', lo);
    ResultsOnward(s, s', lo);
    BlamedSame(s, s');
  }

  lemma BlamedSame(s: State, s': State)
    requires Blamed(s) && s'.error == s.error && |s.tasks| <= |s'.tasks|
    requires forall i :: 0 <= i < |s.tasks| && s.tasks[i].Finished? ==> s'.tasks[i] == s.tasks[i]
    ensures Blamed(s')
  {
    if s.error.Some? {
      var i :| 0 <= i < |s.tasks| && s.tasks[i].Finished? && s.tasks[i].outcome.Failed?;
      assert s'.tasks[i] == s.tasks[i];
    }
  }

  lemma ActiveUpdate(tasks: seq<Task>, i: nat, t: Task)
    requires i < |tasks| && !tasks[i].Finished?
    ensures |Active(tasks[i := t])| <= |Active(tasks)|
  {
    SubsetSize(Active(tasks[i := t]), Active(tasks));
  }

  lemma BeginKeeps(bs: seq<Batch>, s: State, i: nat)
    requires Inv(bs, s) && Enabled(bs, s, Begin(i))
    ensures Inv(bs, After(bs, s, Begin(i)))
  {
    var s' := After(bs, s, Begin(i));
    var lo := Low(bs, s.batch);
    assert TaskFits(s, lo + i, s.tasks[i]);
    ActiveUpdate(s.tasks, i, s'.tasks[i]);
    if s.error == None && !s.interrupted {
      BeginAdmissible(bs, s, i);
      GoodTraceSnoc(bs, s.trace, Began(lo + i));
    }
    OthersFit(s, s', lo, i);
    ResultsOnward(s, s', lo);
    BlamedSame(s, s');
    CausedOnward(s, s');
  }

  lemma CausedOnward(s: State, s': State)
    requires s.error.Some? ==> ErrorFits(s)
    requires forall e :: e in s.trace ==> e in s'.trace
    requires s.interrupted ==> s'.interrupted
    ensures s'.error == s.error && s.error.Some? ==> ErrorFits(s')
  {
    if s.error.Some? && Caused(s.trace, s.error.value) {
      var k :| Ended(k, Failed(s.error.value)) in s.trace;
      assert Ended(k, Failed(s.error.value)) in s'.trace;
    }
  }

  lemma BeginAdmissible(bs: seq<Batch>, s: State, i: nat)
    requires Inv(bs, s) && Enabled(bs, s, Begin(i)) && s.error == None
    ensures Admissible(bs, s.trace, Began(Low(bs, s.batch) + i))
  {
    var lo := Low(bs, s.batch);
    assert TaskFits(s, lo + i, s.tasks[i]);
    LowNext(bs, s.batch);
    BatchStartIsLow(bs, s.batch, i);
    InFlightIsActive(bs, s, i);
    var outs: seq<seq<Entity>> :| |outs| == lo && Explains(s.trace, outs) && s.results == Flatten(outs);
    forall p: nat | p < lo
      ensures Succeeded(s.trace, p)
    {
      assert Ended(p, Made(outs[p])) in s.trace;
    }
  }

  lemma FinishKeeps(bs: seq<Batch>, s: State, i: nat, o: Outcome)
    requires Inv(bs, s) && Enabled(bs, s, Finish(i, o))
    ensures Inv(bs, After(bs, s, Finish(i, o)))
  {
    var s' := After(bs, s, Finish(i, o));
    var lo := Low(bs, s.batch);
    assert TaskFits(s, lo + i, s.tasks[i]);
    ActiveUpdate(s.tasks, i, s'.tasks[i]);
    GoodTraceSnoc(bs, s.trace, Ended(lo + i, o));
    OthersFit(s, s', lo, i);
    ResultsOnward(s, s', lo);
    BlamedSame(s, s');
    CausedOnward(s, s');
  }

  lemma RecordKeeps(bs: seq<Batch>, s: State, i: nat)
    requires Inv(bs, s) && Enabled(bs, s, Record(i))
    ensures Inv(bs, After(bs, s, Record(i)))
  {
    var s' := After(bs, s, Record(i));
    var lo := Low(bs, s.batch);
    assert TaskFits(s, lo + i, s.tasks[i]);
    ActiveUpdate(s.tasks, i, s'.tasks[i]);
    var o := s.tasks[i].outcome;
    if o.Failed? && s.error == None {
      GoodTraceSnoc(bs, s.trace, Stopped(o.error));
      assert s'.tasks[i].outcome.Failed?;
      assert Began(lo + i) in s.trace ==> Ended(lo + i, Failed(o.error)) in s'.trace;
    } else {
      BlamedSame(s, s');
      CausedOnward(s, s');
    }
    OthersFit(s, s', lo, i);
    ResultsOnward(s, s', lo);
  }

  /** With no error every worker of the batch has made its entity. */
  lemma OutputsExplained(s: State, outs: seq<seq<Entity>>)
    requires TasksFit(s, |outs|) && Explains(s.trace, outs) && s.error == None
    requires forall i :: 0 <= i < |s.tasks| ==> s.tasks[i].Finished?
    ensures Explains(s.trace, outs + Outputs(s.tasks))
  {
    var all := outs + Outputs(s.tasks);
    forall k | 0 <= k < |all|
      ensures Ended(k, Made(all[k])) in s.trace
    {
      if k >= |outs| {
        assert TaskFits(s, |outs| + (k - |outs|), s.tasks[k - |outs|]);
        assert all[k] == Outputs(s.tasks)[k - |outs|];
      } else {
        assert all[k] == outs[k];
      }
    }
  }

  lemma BatchMade(bs: seq<Batch>, s: State, lo: nat)
    requires TasksFit(s, lo) && Results(s, lo) && s.error == None
    requires forall i :: 0 <= i < |s.tasks| ==> s.tasks[i].Finished?
    ensures Results(s.(results := s.results + Flatten(Outputs(s.tasks))), lo + |s.tasks|)
  {
    var outs: seq<seq<Entity>> :| |outs| == lo && Explains(s.trace, outs) && s.results == Flatten(outs);
    FlattenConcat(outs, Outputs(s.tasks));
    OutputsExplained(s, outs);
    assert |outs + Outputs(s.tasks)| == lo + |s.tasks|;
  }

  lemma BarrierKeeps(bs: seq<Batch>, s: State)
    requires Inv(bs, s) && Enabled(bs, s, Barrier)
    ensures Inv(bs, After(bs, s, Barrier))
  {
    var s' := After(bs, s, Barrier);
    var lo := Low(bs, s.batch);
    if s.error.Some? {
      ResultsOnward(s, s', lo);
      CausedOnward(s, s');
    } else {
      NextBatchKeeps(bs, s);
    }
  }

  lemma NextBatchKeeps(bs: seq<Batch>, s: State)
    requires Inv(bs, s) && Enabled(bs, s, Barrier) && s.error == None
    ensures Inv(bs, After(bs, s, Barrier))
  {
    var lo := Low(bs, s.batch);
    LowNext(bs, s.batch);
    BatchMade(bs, s, lo);
    ResultsOnward(s.(results := s.results + Flatten(Outputs(s.tasks))), After(bs, s, Barrier), lo + |s.tasks|);
    assert Active([]) == {};
  }

  lemma StepKeepsInv(bs: seq<Batch>, s: State, step: Step)
    requires Inv(bs, s) && Enabled(bs, s, step)
    ensures Inv(bs, After(bs, s, step))
  {
    match step {
      case Spawn => SpawnKeeps(bs, s);
      case Begin(i) => BeginKeeps(bs, s, i);
      case Finish(i, o) => FinishKeeps(bs, s, i, o);
      case Record(i) => RecordKeeps(bs, s, i);
      case Barrier => BarrierKeeps(bs, s);
      case Interrupt =>
        var s' := After(bs, s, step);
        forall j | 0 <= j < |s.tasks|
          ensures TaskFits(s', Low(bs, s.batch) + j, s'.tasks[j])
        {
          TaskFitsOnward(s, s', Low(bs, s.batch) + j, s.tasks[j]);
        }
        ResultsOnward(s, s', Low(bs, s.batch));
    }
  }

  lemma {:induction false} RunKeepsInv(bs: seq<Batch>, s: State, steps: seq<Step>)
    requires Inv(bs, s) && ValidRun(bs, s, steps)
    ensures Inv(bs, Final(bs, s, steps))
    decreases |steps|
  {
    if steps != [] {
      StepKeepsInv(bs, s, steps[0]);
      RunKeepsInv(bs, After(bs, s, steps[0]), steps[1..]);
    }
  }

  // ---- what an admissible history tells ----

  lemma AdmissibleAt(bs: seq<Batch>, trace: seq<Event>, j: nat)
    requires GoodTrace(bs, trace) && j < |trace|
    ensures Admissible(bs, trace[..j], trace[j])
  {
    assert trace[..j] == trace[..j];
  }

  /** No update begins twice and none ends twice. */
  lemma AtMostOnce(bs: seq<Batch>, trace: seq<Event>, i: nat, j: nat)
    requires GoodTrace(bs, trace) && i < j < |trace|
    ensures trace[i].Began? && trace[j].Began? ==> trace[i].position != trace[j].position
    ensures trace[i].Ended? && trace[j].Ended? ==> trace[i].position != trace[j].position
  {
    AdmissibleAt(bs, trace, j);
    assert trace[..j][i] == trace[i];
  }

  lemma EndsOneWay(bs: seq<Batch>, trace: seq<Event>, k: nat, o: Outcome, o': Outcome)
    requires GoodTrace(bs, trace) && Ended(k, o) in trace && Ended(k, o') in trace
    ensures o == o'
  {
    var i :| 0 <= i < |trace| && trace[i] == Ended(k, o);
    var j :| 0 <= j < |trace| && trace[j] == Ended(k, o');
    if i < j {
      AtMostOnce(bs, trace, i, j);
    } else if j < i {
      AtMostOnce(bs, trace, j, i);
    }
  }

  lemma {:induction false} AtMostTenInFlight(bs: seq<Batch>, trace: seq<Event>, j: nat)
    requires GoodTrace(bs, trace) && j <= |trace|
    ensures |InFlight(trace[..j], |Flatten(bs)|)| <= 10
    decreases j
  {
    var n := |Flatten(bs)|;
    if j == 0 {
      assert InFlight(trace[..0], n) == {};
      return;
    }
    AtMostTenInFlight(bs, trace, j - 1);
    AdmissibleAt(bs, trace, j - 1);
    InFlightGrows(trace[..j - 1], trace[j - 1], n);
    assert trace[..j] == trace[..j - 1] + [trace[j - 1]];
  }

  lemma InFlightGrows(before: seq<Event>, e: Event, n: nat)
    ensures |InFlight(before + [e], n)| <= |InFlight(before, n)| + if e.Began? then 1 else 0
  {
    var after, was := InFlight(before + [e], n), InFlight(before, n);
    forall k: nat, o | Ended(k, o) in before
      ensures HasEnded(before + [e], k)
    {
      assert Ended(k, o) in before + [e];
    }
    assert forall k :: k in after ==> k in was || (e.Began? && k == e.position);
    if e.Began? {
      SubsetSize(after, was + {e.position});
    } else {
      SubsetSize(after, was);
    }
  }

  lemma StoppedAt(trace: seq<Event>, i: nat)
    requires i < |trace|
    ensures trace[i].Stopped? ==> HasStopped(trace)
  {
    if trace[i].Stopped? {
      assert Stopped(trace[i].error) in trace;
    }
  }

  /** An error keeps every later batch from beginning, whenever the later
      batch's event is placed; and once the group has stopped, nothing begins,
      in its own batch either. */
  lemma NothingBeginsAfterFailure(bs: seq<Batch>, trace: seq<Event>, j: nat, p: nat, e: Error)
    requires GoodTrace(bs, trace) && j < |trace| && trace[j].Began?
    ensures Ended(p, Failed(e)) in trace ==> BatchStart(bs, trace[j].position) <= p
    ensures forall i :: 0 <= i < j ==> !trace[i].Stopped?
  {
    AdmissibleAt(bs, trace, j);
    var before := trace[..j];
    forall i | 0 <= i < j
      ensures !trace[i].Stopped?
    {
      assert before[i] == trace[i];
      StoppedAt(before, i);
    }
    if Ended(p, Failed(e)) in trace && p < BatchStart(bs, trace[j].position) {
      assert Succeeded(before, p);
      var out :| Ended(p, Made(out)) in before;
      assert Ended(p, Made(out)) in trace;
      EndsOneWay(bs, trace, p, Made(out), Failed(e));
    }
  }

  // ---- positions ----

  lemma {:induction false} BatchOf(bs: seq<Batch>, k: nat) returns (b: nat, i: nat)
    requires k < |Flatten(bs)|
    ensures b < |bs| && i < |bs[b]| && k == Low(bs, b) + i && Flatten(bs)[k] == bs[b][i]
    ensures BatchStart(bs, k) == Low(bs, b)
    decreases |bs|
  {
    var rest := bs[..|bs| - 1];
    if k >= |Flatten(rest)| {
      b, i := |rest|, k - |Flatten(rest)|;
    } else {
      b, i := BatchOf(rest, k);
      assert rest[..b] == bs[..b];
    }
  }

  lemma {:induction false} ElementAt(bs: seq<Batch>, b: nat, i: nat)
    requires b < |bs| && i < |bs[b]|
    ensures Low(bs, b) + i < |Flatten(bs)| && Flatten(bs)[Low(bs, b) + i] == bs[b][i]
    decreases |bs|
  {
    var rest := bs[..|bs| - 1];
    if b < |rest| {
      ElementAt(rest, b, i);
      assert rest[..b] == bs[..b];
    }
  }

  lemma SameAddressLaterBatch(orders: TypeOrders, bs: seq<Batch>, l: seq<Entity>, p: nat, q: nat)
    requires SplitOf(orders, bs, l) && p < q < |l| && l[p].address == l[q].address
    ensures p < BatchStart(bs, q)
  {
    var b, i := BatchOf(bs, q);
    if p >= Low(bs, b) {
      assert IsBatch(orders, bs[b]);
      ElementAt(bs, b, p - Low(bs, b));
    }
  }

  /** Updates of one object are made one after the other, in input order: the
      earlier one has ended well before the later one begins. */
  lemma SameObjectInOrder(orders: TypeOrders, l: seq<Entity>, trace: seq<Event>, p: nat, q: nat, j: nat)
    requires GoodTrace(ToBatches(orders, l), trace)
    requires p < q < |l| && l[p].address == l[q].address
    requires j < |trace| && trace[j] == Began(q)
    ensures Succeeded(trace[..j], p)
    ensures Began(p) !in trace[j..]
  {
    var bs := ToBatches(orders, l);
    BatchesAreSplit(orders, l);
    SameAddressLaterBatch(orders, bs, l, p, q);
    AdmissibleAt(bs, trace, j);
    assert Succeeded(trace[..j], p);
    var out :| Ended(p, Made(out)) in trace[..j];
    var m :| 0 <= m < j && trace[m] == Ended(p, Made(out));
    AdmissibleAt(bs, trace, m);
    var n :| 0 <= n < m && trace[n] == Began(p);
    forall x | j <= x < |trace|
      ensures trace[x] != Began(p)
    {
      AtMostOnce(bs, trace, n, x);
    }
  }

  /** Updates of different type orders never overlap: those of the earlier
      position have all ended before one of the later begins. */
  lemma TypeOrdersInSequence(orders: TypeOrders, l: seq<Entity>, trace: seq<Event>, p: nat, q: nat, j: nat)
    requires GoodTrace(ToBatches(orders, l), trace)
    requires p < q < |l| && TypeOrder(orders, l[p]) != TypeOrder(orders, l[q])
    requires j < |trace| && trace[j] == Began(q)
    ensures Succeeded(trace[..j], p)
  {
    var bs := ToBatches(orders, l);
    BatchesAreSplit(orders, l);
    var b, i := BatchOf(bs, q);
    if p >= Low(bs, b) {
      assert IsBatch(orders, bs[b]);
      ElementAt(bs, b, p - Low(bs, b));
    }
    AdmissibleAt(bs, trace, j);
  }

  // ---- runs of Upsert ----

  ghost predicate UpsertRun(orders: TypeOrders, l: seq<Entity>, steps: seq<Step>, s: State) {
    var bs := ToBatches(orders, l);
    ValidRun(bs, Initial(bs), steps) && s == Final(bs, Initial(bs), steps)
  }

  lemma RunInv(orders: TypeOrders, l: seq<Entity>, steps: seq<Step>, s: State)
    requires UpsertRun(orders, l, steps, s)
    ensures Inv(ToBatches(orders, l), s)
    ensures GoodTrace(ToBatches(orders, l), s.trace)
  {
    InitialInv(ToBatches(orders, l));
    RunKeepsInv(ToBatches(orders, l), Initial(ToBatches(orders, l)), steps);
  }

  /** Whatever the interleaving, a successful result is the list of what each
      entity's own update made, in input order; nothing failed, and every
      update ended. */
  lemma SuccessIsInInputOrder(orders: TypeOrders, l: seq<Entity>, steps: seq<Step>, s: State) returns (outs: seq<seq<Entity>>)
    requires UpsertRun(orders, l, steps, s)
    requires s.returned.Some? && s.returned.value.Ok?
    ensures |outs| == |l| && s.returned.value.entities == Flatten(outs)
    ensures forall k :: 0 <= k < |l| ==> Ended(k, Made(outs[k])) in s.trace
    ensures forall k: nat, e :: Ended(k, Failed(e)) !in s.trace
  {
    var bs := ToBatches(orders, l);
    RunInv(orders, l, steps, s);
    BatchesAreSplit(orders, l);
    assert s.batch == |bs|;
    assert bs[..|bs|] == bs;
    outs :| |outs| == Low(bs, s.batch) && Explains(s.trace, outs) && s.results == Flatten(outs);
    forall k: nat, e | Ended(k, Failed(e)) in s.trace
      ensures false
    {
      assert HasEnded(s.trace, k);
      assert Ended(k, Made(outs[k])) in s.trace;
      EndsOneWay(bs, s.trace, k, Failed(e), Made(outs[k]));
    }
  }

  /** A finished run reports success exactly when every update succeeded; an
      error it reports is that of an update, unless the caller's own context
      ended. */
  lemma ReportsExactlyWhatHappened(orders: TypeOrders, l: seq<Entity>, steps: seq<Step>, s: State)
    requires UpsertRun(orders, l, steps, s)
    requires s.returned.Some?
    ensures s.returned.value.Ok? <==> forall k: nat :: k < |l| ==> Succeeded(s.trace, k)
    ensures s.returned.value.Err? ==>
              var e := s.returned.value.error;
              Stopped(e) in s.trace && (Caused(s.trace, e) || (s.interrupted && e == ContextDone))
  {
    var bs := ToBatches(orders, l);
    RunInv(orders, l, steps, s);
    BatchesAreSplit(orders, l);
    if s.returned.value.Ok? {
      var outs := SuccessIsInInputOrder(orders, l, steps, s);
      forall k: nat | k < |l|
        ensures Succeeded(s.trace, k)
      {
        assert Ended(k, Made(outs[k])) in s.trace;
      }
    } else {
      var lo := Low(bs, s.batch);
      var i :| 0 <= i < |s.tasks| && s.tasks[i].Finished? && s.tasks[i].outcome.Failed?;
      LowNext(bs, s.batch);
      assert TaskFits(s, lo + i, s.tasks[i]);
      if Succeeded(s.trace, lo + i) {
        var out :| Ended(lo + i, Made(out)) in s.trace;
        assert HasEnded(s.trace, lo + i);
        EndsOneWay(bs, s.trace, lo + i, Made(out), s.tasks[i].outcome);
      }
    }
  }

  // ---- progress ----

  function Rank(t: Task): nat {
    match t
    case Spawned => 1
    case Updating => 2
    case Returned(_) => 3
    case Finished(_) => 4
  }

  function Progress(tasks: seq<Task>): nat {
    if tasks == [] then 0 else Progress(tasks[..|tasks| - 1]) + Rank(tasks[|tasks| - 1])
  }

  /** Steps still possible, at most. */
  function Left(bs: seq<Batch>, s: State): int
    requires s.batch <= |bs|
  {
    4 * (|Flatten(bs)| - Low(bs, s.batch)) - Progress(s.tasks)
    + (|bs| - s.batch)
    + (if s.returned == None then 1 else 0)
    + (if s.interrupted then 0 else 1)
  }

  lemma {:induction false} ProgressUpdate(tasks: seq<Task>, i: nat, t: Task)
    requires i < |tasks|
    ensures Progress(tasks[i := t]) == Progress(tasks) - Rank(tasks[i]) + Rank(t)
    decreases |tasks|
  {
    var n := |tasks| - 1;
    if i < n {
      assert tasks[i := t][..n] == tasks[..n][i := t];
      ProgressUpdate(tasks[..n], i, t);
    } else {
      assert tasks[i := t][..n] == tasks[..n];
    }
  }

  lemma {:induction false} ProgressAtMost(tasks: seq<Task>)
    ensures Progress(tasks) <= 4 * |tasks|
    ensures (forall i :: 0 <= i < |tasks| ==> tasks[i].Finished?) ==> Progress(tasks) == 4 * |tasks|
    decreases |tasks|
  {
    if tasks != [] {
      ProgressAtMost(tasks[..|tasks| - 1]);
    }
  }

  lemma ProgressSpawn(tasks: seq<Task>)
    ensures Progress(tasks + [Spawned]) == Progress(tasks) + 1
  {
    assert (tasks + [Spawned])[..|tasks|] == tasks;
  }

  lemma BarrierUsesUp(bs: seq<Batch>, s: State)
    requires Enabled(bs, s, Barrier)
    ensures After(bs, s, Barrier).batch <= |bs|
    ensures Left(bs, After(bs, s, Barrier)) < Left(bs, s)
  {
    LowNext(bs, s.batch);
    ProgressAtMost(s.tasks);
  }

  lemma BeginUsesUp(bs: seq<Batch>, s: State, i: nat)
    requires Enabled(bs, s, Begin(i))
    ensures Left(bs, After(bs, s, Begin(i))) < Left(bs, s)
  {
    ProgressUpdate(s.tasks, i, Updating);
    ProgressUpdate(s.tasks, i, Returned(Failed(ContextDone)));
  }

  lemma StepUsesUp(bs: seq<Batch>, s: State, step: Step)
    requires Enabled(bs, s, step)
    ensures After(bs, s, step).batch <= |bs|
    ensures Left(bs, After(bs, s, step)) < Left(bs, s)
  {
    match step {
      case Spawn => ProgressSpawn(s.tasks);
      case Begin(i) => BeginUsesUp(bs, s, i);
      case Finish(i, o) => ProgressUpdate(s.tasks, i, Returned(o));
      case Record(i) => ProgressUpdate(s.tasks, i, Finished(s.tasks[i].outcome));
      case Barrier => BarrierUsesUp(bs, s);
      case Interrupt =>
    }
  }

  lemma LeftIsNat(bs: seq<Batch>, s: State)
    requires Inv(bs, s)
    ensures Left(bs, s) >= 0
  {
    ProgressAtMost(s.tasks);
    if s.batch < |bs| {
      LowNext(bs, s.batch);
    } else {
      assert bs[..|bs|] == bs;
    }
  }

  lemma {:induction false} RunUsesUp(bs: seq<Batch>, s: State, steps: seq<Step>)
    requires Inv(bs, s) && ValidRun(bs, s, steps)
    ensures |steps| <= Left(bs, s)
    decreases |steps|
  {
    LeftIsNat(bs, s);
    if steps != [] {
      StepUsesUp(bs, s, steps[0]);
      StepKeepsInv(bs, s, steps[0]);
      RunUsesUp(bs, After(bs, s, steps[0]), steps[1..]);
    }
  }

  /** A run is never stuck before it returns, and no run goes on for ever: four
      steps an entity, one a batch, and two. */
  lemma EveryRunReturns(orders: TypeOrders, l: seq<Entity>, steps: seq<Step>, s: State)
    requires UpsertRun(orders, l, steps, s)
    ensures |steps| <= 4 * |l| + |ToBatches(orders, l)| + 2
    ensures s.returned == None ==> exists step: Step :: !step.Interrupt? && Enabled(ToBatches(orders, l), s, step)
  {
    var bs := ToBatches(orders, l);
    BatchesAreSplit(orders, l);
    InitialInv(bs);
    RunUsesUp(bs, Initial(bs), steps);
    assert bs[..0] == [];
    RunInv(orders, l, steps, s);
    if s.returned == None {
      NeverStuck(bs, s);
    }
  }

  lemma NeverStuck(bs: seq<Batch>, s: State)
    requires Inv(bs, s) && s.returned == None
    ensures exists step: Step :: !step.Interrupt? && Enabled(bs, s, step)
  {
    if i :| 0 <= i < |s.tasks| && !s.tasks[i].Finished? {
      match s.tasks[i] {
        case Spawned => assert Enabled(bs, s, Begin(i));
        case Updating => assert Enabled(bs, s, Finish(i, Made([])));
        case Returned(_) => assert Enabled(bs, s, Record(i));
      }
    } else if |s.tasks| == |bs[s.batch]| {
      assert Enabled(bs, s, Barrier);
    } else {
      assert Active(s.tasks) == {};
      assert Enabled(bs, s, Spawn);
    }
  }

  // ---- ten at once ----

  /** The first n updates have begun, and none has ended. */
  function Flying(n: nat): State {
    State(0, seq(n, i => Updating), None, false, [], None, seq(n, i requires 0 <= i < n => Began(i)))
  }

  lemma {:induction false} RunThen(bs: seq<Batch>, s: State, steps: seq<Step>, step: Step)
    requires ValidRun(bs, s, steps) && Enabled(bs, Final(bs, s, steps), step)
    ensures ValidRun(bs, s, steps + [step]) && Final(bs, s, steps + [step]) == After(bs, Final(bs, s, steps), step)
    decreases |steps|
  {
    if steps == [] {
      assert steps + [step] == [step];
    } else {
      assert (steps + [step])[1..] == steps[1..] + [step];
      RunThen(bs, After(bs, s, steps[0]), steps[1..], step);
    }
  }

  lemma {:induction false} FirstMany(s: set<nat>, n: nat)
    requires forall k: nat :: k in s <==> k < n
    ensures |s| == n
    decreases n
  {
    if n > 0 {
      FirstMany(s - {n - 1}, n - 1);
    } else {
      assert s == {};
    }
  }

  lemma FlyingAreActive(n: nat)
    ensures |Active(Flying(n).tasks)| == n
  {
    FirstMany(Active(Flying(n).tasks), n);
  }

  lemma OneMoreFlies(bs: seq<Batch>, n: nat)
    requires bs != [] && n < |bs[0]| && n < 10
    ensures Enabled(bs, Flying(n), Spawn) && Enabled(bs, After(bs, Flying(n), Spawn), Begin(n))
    ensures After(bs, After(bs, Flying(n), Spawn), Begin(n)) == Flying(n + 1)
  {
    FlyingAreActive(n);
    assert bs[..0] == [];
    var s := After(bs, Flying(n), Spawn);
    assert s.tasks[n := Updating] == Flying(n + 1).tasks;
    assert s.trace + [Began(n)] == Flying(n + 1).trace;
  }

  lemma {:induction false} LeadsToFlying(bs: seq<Batch>, n: nat) returns (steps: seq<Step>)
    requires bs != [] && n <= |bs[0]| && n <= 10
    ensures ValidRun(bs, Initial(bs), steps) && Final(bs, Initial(bs), steps) == Flying(n)
    decreases n
  {
    if n == 0 {
      steps := [];
      assert Initial(bs) == Flying(0);
    } else {
      steps := LeadsToFlying(bs, n - 1);
      OneMoreFlies(bs, n - 1);
      RunThen(bs, Initial(bs), steps, Spawn);
      RunThen(bs, Initial(bs), steps + [Spawn], Begin(n - 1));
      steps := steps + [Spawn] + [Begin(n - 1)];
    }
  }

  /** The bound is reached: if the first batch has as many entities, any number of
      updates up to ten can be in flight together. */
  lemma UpToTenInFlight(bs: seq<Batch>, n: nat) returns (steps: seq<Step>)
    requires bs != [] && n <= |bs[0]| && n <= 10
    ensures ValidRun(bs, Initial(bs), steps)
    ensures |InFlight(Final(bs, Initial(bs), steps).trace, |Flatten(bs)|)| == n
  {
    steps := LeadsToFlying(bs, n);
    LowNext(bs, 0);
    assert bs[..0] == [];
    FlyingAreInFlight(n, |Flatten(bs)|);
  }

  lemma FlyingAreInFlight(n: nat, all: nat)
    requires n <= all
    ensures |InFlight(Flying(n).trace, all)| == n
  {
    var trace := Flying(n).trace;
    assert forall k: nat :: k < n ==> trace[k] == Began(k);
    FirstMany(InFlight(trace, all), n);
  }

  // ---- once the caller's context has ended ----

  lemma InterruptedStep(bs: seq<Batch>, s: State, step: Step)
    requires s.interrupted && Enabled(bs, s, step)
    ensures var t := After(bs, s, step); t.interrupted && forall k :: Began(k) in t.trace ==> Began(k) in s.trace
  {
  }

  /** Once the caller's context has ended no update begins any more, in any batch. */
  lemma {:induction false} NothingBeginsAfterInterrupt(bs: seq<Batch>, s: State, steps: seq<Step>)
    requires s.interrupted && ValidRun(bs, s, steps)
    ensures forall k :: Began(k) in Final(bs, s, steps).trace ==> Began(k) in s.trace
    decreases |steps|
  {
    if steps != [] {
      InterruptedStep(bs, s, steps[0]);
      NothingBeginsAfterInterrupt(bs, After(bs, s, steps[0]), steps[1..]);
    }
  }
}
