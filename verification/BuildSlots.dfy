/** How many builds are under way, against the limit on parallel updates. The
    reducer knows a build by its manifest, so the limit is kept as long as
    reloading the Tiltfile does not pull a manifest away from under its build. */
module BuildSlots {
  import opened Shared
  import opened BuildGate

  function NameOf(s: System, k: nat): Name {
    if 1 <= k <= |s.builds| then s.builds[k - 1].name
    else if s.decided.Some? then s.decided.value else ""
  }

  predicate CompletionOf(a: Action, k: nat) {
    a.Completed? && a.source == BuildControl && a.span == k
  }

  predicate CompletionQueued(q: seq<Action>, k: nat) {
    exists i :: 0 <= i < |q| && CompletionOf(q[i], k)
  }

  /** Started by the controller, and its completion not yet taken off the queue. */
  predicate Underway(s: System, k: nat) {
    && 1 <= k <= s.count
    && (k > |s.builds| || s.builds[k - 1].phase.Launched? || s.builds[k - 1].phase.Registered? || CompletionQueued(s.queue, k))
  }

  function UnderwaySet(s: System): set<nat> {
    set k | 1 <= k <= s.count && Underway(s, k)
  }

  /** The build's manifest names it as its current build. */
  predicate Recorded(s: System, k: nat) {
    var n := NameOf(s, k);
    n in s.engine.manifests && BuildControl in s.engine.manifests[n] && s.engine.manifests[n][BuildControl] == k
  }

  /** The reducer has this build on record, and it takes a slot. */
  predicate Tracked(s: System, k: nat) {
    Recorded(s, k) && NameOf(s, k) in s.engine.buildSet
  }

  /** What a manifest names as the controller's current build is under way. */
  ghost predicate EntriesUnderway(s: System) {
    s.engine.fatalError == None ==>
      forall n {:trigger s.engine.manifests[n]} :: n in s.engine.manifests && BuildControl in s.engine.manifests[n] ==>
        Underway(s, s.engine.manifests[n][BuildControl]) && NameOf(s, s.engine.manifests[n][BuildControl]) == n
  }

  /** The controller is one ahead of the reducer, and this is the build. */
  predicate Newest(s: System, k: nat) {
    k == s.count && s.count > s.engine.startCount
  }

  ghost predicate Accounted(s: System) {
    forall k {:trigger Underway(s, k)} :: Underway(s, k) ==> Tracked(s, k) || Newest(s, k)
  }

  /** A start on its way to the reducer will find its manifest, and no build
      of the controller's there. */
  ghost predicate Awaited(s: System) {
    Undelivered(s) > 0 && s.engine.fatalError == None ==>
      && NameOf(s, s.count) in s.engine.manifests
      && BuildControl !in s.engine.manifests[NameOf(s, s.count)]
  }

  predicate ActionFits(s: System, a: Action, most: int) {
    match a
    case Started(n, BuildControl, k) => 1 <= k == s.count == |s.builds| && s.builds[k - 1].name == n
    case Completed(n, BuildControl, k, _) =>
      && 1 <= k <= |s.builds| && s.builds[k - 1].name == n
      && (s.builds[k - 1].phase.Finished? || s.builds[k - 1].phase.Cleaned?)
    case Reloaded(_, _, max) => max <= most
    case _ => true
  }

  predicate AboutBuild(a: Action, k: nat) {
    (a.Started? || a.Completed?) && a.source == BuildControl && a.span == k
  }

  /** A completion is the last the queue says of its build. */
  ghost predicate CompletionsLast(q: seq<Action>) {
    forall i, j :: 0 <= i < j < |q| && q[i].Completed? && q[i].source == BuildControl ==> !AboutBuild(q[j], q[i].span)
  }

  ghost predicate QueueFits(s: System, most: int) {
    && (forall i :: 0 <= i < |s.queue| ==> ActionFits(s, s.queue[i], most))
    && CompletionsLast(s.queue)
  }

  /** The counts, the spans and the queue agree with each other. */
  ghost predicate Sane(s: System, most: int) {
    && CountsAgree(s) && SpansInOrder(s)
    && QueueFits(s, most)
    && (Undelivered(s) > 0 ==> Underway(s, s.count))
    && s.engine.maxParallel <= most
  }

  ghost predicate Inv(s: System, most: int) {
    && Sane(s, most)
    && Accounted(s) && Awaited(s) && EntriesUnderway(s)
    && |UnderwaySet(s)| <= MaxParallelUpdates(most)
  }

  /** The same builds are under way, and the queue has at most grown. */
  ghost predicate SameBuilds(s: System, s': System) {
    && s'.engine == s.engine && s'.count == s.count && s.queue <= s'.queue
    && Undelivered(s') == Undelivered(s)
    && (forall k {:trigger Underway(s', k)} {:trigger Underway(s, k)} :: Underway(s', k) <==> Underway(s, k))
    && forall k {:trigger NameOf(s', k)} {:trigger NameOf(s, k)} :: 1 <= k <= s.count ==> NameOf(s', k) == NameOf(s, k)
  }

  /** A reload leaves a build the reducer has on record its manifest, and one
      whose start is still on its way some manifest of its name. */
  predicate Spared(s: System, k: nat, dropped: set<Name>, created: set<Name>) {
    var n := NameOf(s, k);
    if Newest(s, k) then n in dropped ==> n in created else n !in dropped && n !in created
  }

  ghost predicate Spares(s: System, dropped: set<Name>, created: set<Name>) {
    forall k {:trigger Underway(s, k)} :: Underway(s, k) ==> Spared(s, k, dropped, created)
  }

  /** The next action is not a reload that pulls a manifest from its build. */
  ghost predicate Gentle(s: System, step: Step, most: int) {
    && (step.Dispatch? && step.action.Reloaded? ==> step.action.maxParallel <= most)
    && (step.Reduce? && s.queue != [] && s.queue[0].Reloaded? && s.engine.fatalError == None ==>
          Spares(s, s.queue[0].dropped, s.queue[0].created))
  }

  ghost predicate GentleRun(s: System, steps: seq<Step>, most: int)
    requires ValidRun(s, steps)
    decreases |steps|
  {
    steps == [] || (Gentle(s, steps[0], most) && GentleRun(After(s, steps[0]), steps[1..], most))
  }

  // ---- sets ----

  lemma {:induction false} TrackedAtMost(s: System, ks: set<nat>, names: set<Name>)
    requires forall k :: k in ks ==> Tracked(s, k) && NameOf(s, k) in names
    ensures |ks| <= |names|
    decreases |ks|
  {
    if ks != {} {
      var k :| k in ks;
      TrackedAtMost(s, ks - {k}, names - {NameOf(s, k)});
    }
  }

  // ---- the queue ----

  lemma {:induction false} StartIsCounted(q: seq<Action>, i: nat)
    requires i < |q| && IsStart(q[i])
    ensures StartsIn(q) >= 1
    decreases |q|
  {
    if i > 0 {
      StartIsCounted(q[1..], i - 1);
    }
  }

  lemma {:induction false} SomeStart(q: seq<Action>) returns (i: nat)
    requires StartsIn(q) >= 1
    ensures i < |q| && IsStart(q[i])
    decreases |q|
  {
    if IsStart(q[0]) {
      i := 0;
    } else {
      i := SomeStart(q[1..]);
      i := i + 1;
    }
  }

  /** What holds of every action of a queue holds when one is appended. */
  lemma QueueGrows(s: System, s': System, a: Action, most: int)
    requires QueueFits(s, most) && s'.queue == s.queue + [a]
    requires forall i :: 0 <= i < |s.queue| ==> ActionFits(s', s.queue[i], most)
    requires ActionFits(s', a, most)
    requires forall i :: 0 <= i < |s.queue| && s.queue[i].Completed? && s.queue[i].source == BuildControl ==> !AboutBuild(a, s.queue[i].span)
    ensures QueueFits(s', most)
    ensures forall k :: CompletionQueued(s'.queue, k) <==> CompletionQueued(s.queue, k) || CompletionOf(a, k)
  {
    forall k | CompletionQueued(s.queue, k) || CompletionOf(a, k)
      ensures CompletionQueued(s'.queue, k)
    {
      if CompletionOf(a, k) {
        assert CompletionOf(s'.queue[|s.queue|], k);
      } else {
        var i :| 0 <= i < |s.queue| && CompletionOf(s.queue[i], k);
        assert CompletionOf(s'.queue[i], k);
      }
    }
  }

  // ---- the controller's steps ----

  /** Before a decision nothing is on its way to the reducer. */
  lemma DecideKeepsSane(s: System, n: Name, most: int)
    requires Sane(s, most) && Enabled(s, Decide(n))
    ensures Sane(After(s, Decide(n)), most)
    ensures Undelivered(s) == 0 && s.count == s.engine.startCount
    ensures var s' := After(s, Decide(n));
            && Newest(s', s'.count) && NameOf(s', s'.count) == n
            && UnderwaySet(s') == UnderwaySet(s) + {s'.count}
    ensures forall k {:trigger Underway(After(s, Decide(n)), k)} :: 1 <= k <= s.count ==>
              (Underway(After(s, Decide(n)), k) <==> Underway(s, k)) && NameOf(After(s, Decide(n)), k) == NameOf(s, k)
  {
    var s' := After(s, Decide(n));
    StepKeepsCounts(s, Decide(n));
    forall i | 0 <= i < |s.queue|
      ensures ActionFits(s', s'.queue[i], most)
    {
      assert ActionFits(s, s.queue[i], most);
      if IsStart(s.queue[i]) {
        StartIsCounted(s.queue, i);
      }
    }
    forall k | 1 <= k <= s.count
      ensures Underway(s', k) <==> Underway(s, k)
      ensures NameOf(s', k) == NameOf(s, k)
    {
    }
  }

  lemma DecideKeeps(s: System, n: Name, most: int)
    requires Inv(s, most) && Enabled(s, Decide(n))
    ensures Inv(After(s, Decide(n)), most)
    ensures |UnderwaySet(After(s, Decide(n)))| <= MaxParallelUpdates(s.engine.maxParallel)
    ensures forall k {:trigger Underway(s, k)} :: Underway(s, k) ==> NameOf(s, k) != n
  {
    var s' := After(s, Decide(n));
    DecideKeepsSane(s, n, most);
    forall k | 1 <= k <= s.count && Underway(s, k)
      ensures Tracked(s', k) && Tracked(s, k)
    {
      assert Underway(s', k);
    }
    TrackedAtMost(s, UnderwaySet(s), s.engine.buildSet);
  }

  lemma AnnounceIsAside(s: System, most: int)
    requires Sane(s, most) && Enabled(s, Announce)
    ensures Sane(After(s, Announce), most) && SameBuilds(s, After(s, Announce))
  {
    var s' := After(s, Announce);
    StepKeepsCounts(s, Announce);
    forall i | 0 <= i < |s.queue|
      ensures ActionFits(s', s.queue[i], most)
      ensures s.queue[i].Completed? && s.queue[i].source == BuildControl ==> s.queue[i].span != s.count
    {
      assert ActionFits(s, s.queue[i], most);
    }
    StartsInSnoc(s.queue, s'.queue[|s.queue|]);
    QueueGrows(s, s', s'.queue[|s.queue|], most);
    forall k: nat
      ensures Underway(s', k) <==> Underway(s, k)
      ensures 1 <= k <= s.count ==> NameOf(s', k) == NameOf(s, k)
    {
    }
  }

  /** Steps that leave the queue, the engine and the count alone. */
  lemma QuietStepIsAside(s: System, s': System, most: int)
    requires Sane(s, most)
    requires s'.queue == s.queue && s'.engine == s.engine && s'.count == s.count && s'.decided == s.decided
    requires |s'.builds| == |s.builds|
    requires forall i :: 0 <= i < |s.builds| ==>
               && s'.builds[i].name == s.builds[i].name && s'.builds[i].span == s.builds[i].span
               && (s'.builds[i].phase == s.builds[i].phase
                   || (s.builds[i].phase.Launched? && s'.builds[i].phase.Registered?)
                   || (s.builds[i].phase.Finished? && s'.builds[i].phase.Cleaned?))
    ensures Sane(s', most) && SameBuilds(s, s')
  {
    forall i | 0 <= i < |s.queue|
      ensures ActionFits(s', s'.queue[i], most)
    {
      assert ActionFits(s, s.queue[i], most);
    }
    forall k
      ensures Underway(s', k) <==> Underway(s, k)
      ensures NameOf(s', k) == NameOf(s, k)
    {
    }
  }

  lemma CompleteIsAside(s: System, k: nat, error: BuildError, most: int)
    requires Sane(s, most) && Enabled(s, Complete(k, error))
    ensures Sane(After(s, Complete(k, error)), most) && SameBuilds(s, After(s, Complete(k, error)))
  {
    var s' := After(s, Complete(k, error));
    StepKeepsCounts(s, Complete(k, error));
    forall i | 0 <= i < |s.queue|
      ensures ActionFits(s', s.queue[i], most)
      ensures s.queue[i].Completed? && s.queue[i].source == BuildControl ==> s.queue[i].span != k
    {
      assert ActionFits(s, s.queue[i], most);
    }
    StartsInSnoc(s.queue, s'.queue[|s.queue|]);
    QueueGrows(s, s', s'.queue[|s.queue|], most);
    forall j
      ensures Underway(s', j) <==> Underway(s, j)
      ensures NameOf(s', j) == NameOf(s, j)
    {
    }
  }

  lemma DispatchIsAside(s: System, a: Action, most: int)
    requires Sane(s, most) && Enabled(s, Dispatch(a)) && Gentle(s, Dispatch(a), most)
    ensures Sane(After(s, Dispatch(a)), most) && SameBuilds(s, After(s, Dispatch(a)))
  {
    var s' := After(s, Dispatch(a));
    StepKeepsCounts(s, Dispatch(a));
    StartsInSnoc(s.queue, a);
    forall i | 0 <= i < |s.queue|
      ensures ActionFits(s', s.queue[i], most)
    {
      assert ActionFits(s, s.queue[i], most);
    }
    QueueGrows(s, s', a, most);
    forall j
      ensures Underway(s', j) <==> Underway(s, j)
      ensures NameOf(s', j) == NameOf(s, j)
    {
    }
  }

  /** Every step but a decision and the reducer's. */
  lemma StepIsAside(s: System, step: Step, most: int)
    requires Sane(s, most) && Enabled(s, step) && Gentle(s, step, most) && !step.Decide? && !step.Reduce?
    ensures Sane(After(s, step), most) && SameBuilds(s, After(s, step))
  {
    match step {
      case Announce => AnnounceIsAside(s, most);
      case Complete(k, error) => CompleteIsAside(s, k, error, most);
      case Dispatch(a) => DispatchIsAside(s, a, most);
      case Register(k) => QuietStepIsAside(s, After(s, step), most);
      case Cleanup(k) => QuietStepIsAside(s, After(s, step), most);
      case Sweep(n) => QuietStepIsAside(s, After(s, step), most);
    }
  }

  lemma SameBuildsKeepInv(s: System, s': System, most: int)
    requires Inv(s, most) && Sane(s', most) && SameBuilds(s, s')
    ensures Inv(s', most)
  {
    forall k | Underway(s', k)
      ensures Tracked(s', k) || Newest(s', k)
    {
      assert Underway(s, k);
    }
    SubsetSize(UnderwaySet(s'), UnderwaySet(s));
  }

  // ---- the reducer's step ----

  lemma QueueShrinks(q: seq<Action>, k: nat)
    requires q != []
    ensures CompletionQueued(q, k) <==> CompletionOf(q[0], k) || CompletionQueued(q[1..], k)
    ensures CompletionsLast(q) && CompletionOf(q[0], k) ==> !CompletionQueued(q[1..], k)
  {
    var rest := q[1..];
    if CompletionQueued(rest, k) {
      var i :| 0 <= i < |rest| && CompletionOf(rest[i], k);
      assert q[i + 1] == rest[i];
      assert CompletionOf(q[i + 1], k);
      assert AboutBuild(q[i + 1], k);
    }
    if CompletionQueued(q, k) && !CompletionOf(q[0], k) {
      var i :| 0 <= i < |q| && CompletionOf(q[i], k);
      assert CompletionOf(rest[i - 1], k);
    }
  }

  lemma RestFits(s: System, s': System, most: int)
    requires QueueFits(s, most) && s.queue != []
    requires s'.queue == s.queue[1..] && s'.count == s.count && s'.builds == s.builds
    ensures QueueFits(s', most)
  {
    forall i | 0 <= i < |s'.queue|
      ensures ActionFits(s', s'.queue[i], most)
    {
      assert ActionFits(s, s.queue[i + 1], most);
    }
  }

  /** Taking an action off the queue ends what was under way only for its own
      build. */
  lemma HeadTaken(s: System, s': System, most: int)
    requires Sane(s, most) && s.queue != []
    requires s'.queue == s.queue[1..] && s'.count == s.count && s'.decided == s.decided && s'.builds == s.builds
    ensures QueueFits(s', most)
    ensures forall k {:trigger Underway(s', k)} :: Underway(s', k) <==> Underway(s, k) && !CompletionOf(s.queue[0], k)
    ensures |UnderwaySet(s')| <= |UnderwaySet(s)|
  {
    RestFits(s, s', most);
    assert ActionFits(s, s.queue[0], most);
    forall k
      ensures Underway(s', k) <==> Underway(s, k) && !CompletionOf(s.queue[0], k)
    {
      QueueShrinks(s.queue, k);
    }
    SubsetSize(UnderwaySet(s'), UnderwaySet(s));
  }

  /** No start is behind its own completion. */
  lemma CompletedIsNotNewest(s: System, most: int)
    requires Sane(s, most) && s.queue != [] && s.engine.fatalError == None
    requires s.queue[0].Completed? && s.queue[0].source == BuildControl
    ensures var k := s.queue[0].span; Underway(s, k) && !Newest(s, k) && NameOf(s, k) == s.queue[0].name
  {
    var k := s.queue[0].span;
    assert ActionFits(s, s.queue[0], most);
    assert CompletionQueued(s.queue, k);
    if Newest(s, k) {
      var i := SomeStart(s.queue);
      assert ActionFits(s, s.queue[i], most);
      assert AboutBuild(s.queue[i], k);
      assert false;
    }
  }

  /** So while the reducer is live a completion at the head of the queue is that
      of a build on record. */
  lemma CompletionIsTracked(s: System, most: int)
    requires Inv(s, most) && s.queue != [] && s.engine.fatalError == None
    requires s.queue[0].Completed? && s.queue[0].source == BuildControl
    ensures Tracked(s, s.queue[0].span) && NameOf(s, s.queue[0].span) == s.queue[0].name
    ensures !Newest(s, s.queue[0].span)
  {
    CompletedIsNotNewest(s, most);
  }

  lemma ReduceStarted(s: System, most: int)
    requires Inv(s, most) && s.queue != [] && s.engine.fatalError == None && s.queue[0].Started?
    ensures Accounted(After(s, Reduce)) && Awaited(After(s, Reduce))
  {
    var s' := After(s, Reduce);
    StepKeepsCounts(s, Reduce);
    HeadTaken(s, s', most);
    assert ActionFits(s, s.queue[0], most);
    var n := s.queue[0].name;
    forall k | Underway(s', k)
      ensures Tracked(s', k) || Newest(s', k)
    {
      assert Underway(s, k);
      assert NameOf(s', k) == NameOf(s, k);
    }
  }

  lemma ReduceOwnCompleted(s: System, most: int)
    requires Inv(s, most) && s.queue != [] && s.engine.fatalError == None
    requires s.queue[0].Completed? && s.queue[0].source == BuildControl
    ensures Accounted(After(s, Reduce)) && Awaited(After(s, Reduce))
  {
    var s' := After(s, Reduce);
    HeadTaken(s, s', most);
    CompletionIsTracked(s, most);
    var n, done := s.queue[0].name, s.queue[0].span;
    forall k | Underway(s', k)
      ensures Tracked(s', k) || Newest(s', k)
    {
      assert NameOf(s', k) == NameOf(s, k);
      assert CompletionOf(s.queue[0], done) && k != done;
      if Tracked(s, k) {
        assert NameOf(s, k) != n;
      }
    }
    StartsOfRest(s);
    assert NameOf(s', s.count) == NameOf(s, s.count);
  }

  lemma ReduceOtherCompleted(s: System, most: int)
    requires Inv(s, most) && s.queue != [] && s.engine.fatalError == None
    requires s.queue[0].Completed? && s.queue[0].source != BuildControl
    ensures Accounted(After(s, Reduce)) && Awaited(After(s, Reduce))
  {
    var s' := After(s, Reduce);
    HeadTaken(s, s', most);
    forall k | Underway(s', k)
      ensures Tracked(s', k) || Newest(s', k)
    {
      assert NameOf(s', k) == NameOf(s, k);
      if Tracked(s, k) {
        var n := NameOf(s, k);
        assert BuildControl in s'.engine.manifests[n];
        assert s'.engine.manifests[n] != map[];
      }
    }
    StartsOfRest(s);
    assert NameOf(s', s.count) == NameOf(s, s.count);
  }

  lemma StartsOfRest(s: System)
    requires s.queue != [] && !IsStart(s.queue[0])
    ensures Undelivered(After(s, Reduce)) == Undelivered(s)
  {
  }

  /** A reload keeps the books exactly when it spares the builds under way. */
  lemma ReloadKeepsExactlyWhenItSpares(s: System, most: int)
    requires Inv(s, most) && s.queue != [] && s.engine.fatalError == None && s.queue[0].Reloaded?
    ensures Accounted(After(s, Reduce)) && Awaited(After(s, Reduce)) <==> Spares(s, s.queue[0].dropped, s.queue[0].created)
  {
    var s' := After(s, Reduce);
    HeadTaken(s, s', most);
    var dropped, created := s.queue[0].dropped, s.queue[0].created;
    forall k
      ensures Underway(s', k) <==> Underway(s, k)
      ensures NameOf(s', k) == NameOf(s, k)
      ensures Newest(s', k) <==> Newest(s, k)
      ensures Tracked(s', k) <==> Tracked(s, k) && NameOf(s, k) !in dropped && NameOf(s, k) !in created
    {
    }
    NewestIsAwaited(s, s', dropped, created);
  }

  lemma NewestIsAwaited(s: System, s': System, dropped: set<Name>, created: set<Name>)
    requires CountsAgree(s) && Awaited(s) && s.engine.fatalError == None
    requires Undelivered(s) > 0 ==> Underway(s, s.count)
    requires s'.engine == ConfigsReloaded(s.engine, dropped, created, s'.engine.maxParallel)
    requires s'.count == s.count && Undelivered(s') == Undelivered(s) && NameOf(s', s.count) == NameOf(s, s.count)
    ensures Awaited(s') <==> (Newest(s, s.count) ==> NameOf(s, s.count) !in dropped || NameOf(s, s.count) in created)
  {
  }

  lemma ReduceKeepsEntries(s: System, most: int)
    requires Sane(s, most) && EntriesUnderway(s) && s.queue != []
    ensures EntriesUnderway(After(s, Reduce))
  {
    var s', a := After(s, Reduce), s.queue[0];
    HeadTaken(s, s', most);
    assert ActionFits(s, a, most);
    forall n | s'.engine.fatalError == None && n in s'.engine.manifests && BuildControl in s'.engine.manifests[n]
      ensures var k := s'.engine.manifests[n][BuildControl]; Underway(s', k) && NameOf(s', k) == n
    {
      var k := s'.engine.manifests[n][BuildControl];
      assert NameOf(s', k) == NameOf(s, k);
      if a.Started? && a.source == BuildControl && n == a.name {
        StartIsCounted(s.queue, 0);
        assert !CompletionOf(a, k);
      } else {
        assert n in s.engine.manifests && s.engine.manifests[n][BuildControl] == k;
        assert Underway(s, k) && NameOf(s, k) == n;
      }
    }
  }

  lemma ReduceKeepsSane(s: System, most: int)
    requires Sane(s, most) && s.queue != []
    ensures Sane(After(s, Reduce), most)
  {
    var s' := After(s, Reduce);
    StepKeepsCounts(s, Reduce);
    HeadTaken(s, s', most);
    assert ActionFits(s, s.queue[0], most);
    if Undelivered(s') > 0 && CompletionOf(s.queue[0], s.count) {
      LastIsUnderway(s, most);
    }
  }

  lemma ReduceKeeps(s: System, most: int)
    requires Inv(s, most) && Enabled(s, Reduce) && Gentle(s, Reduce, most)
    ensures Inv(After(s, Reduce), most)
  {
    var s' := After(s, Reduce);
    ReduceKeepsSane(s, most);
    HeadTaken(s, s', most);
    ReduceKeepsEntries(s, most);
    if s.engine.fatalError == None && s.queue[0].Started? {
      ReduceStarted(s, most);
    } else if s.engine.fatalError == None && s.queue[0].Completed? {
      if s.queue[0].source == BuildControl {
        ReduceOwnCompleted(s, most);
      } else {
        ReduceOtherCompleted(s, most);
      }
    } else if s.engine.fatalError == None && s.queue[0].Reloaded? {
      ReloadKeepsExactlyWhenItSpares(s, most);
    } else {
      OtherActionKeeps(s, most);
    }
  }

  lemma OtherActionKeeps(s: System, most: int)
    requires Inv(s, most) && s.queue != []
    requires s.engine.fatalError.Some? || !(s.queue[0].Started? || s.queue[0].Completed? || s.queue[0].Reloaded?)
    ensures Accounted(After(s, Reduce)) && Awaited(After(s, Reduce))
  {
    var s' := After(s, Reduce);
    HeadTaken(s, s', most);
    forall k | Underway(s', k)
      ensures Tracked(s', k) || Newest(s', k)
    {
      assert Underway(s, k);
      assert NameOf(s', k) == NameOf(s, k);
    }
  }

  /** The head of the queue does not complete a build whose start is behind it. */
  lemma LastIsUnderway(s: System, most: int)
    requires Sane(s, most) && s.queue != [] && CompletionOf(s.queue[0], s.count)
    ensures Undelivered(s) == 0
  {
    assert ActionFits(s, s.queue[0], most);
    if StartsIn(s.queue) >= 1 {
      var i := SomeStart(s.queue);
      assert ActionFits(s, s.queue[i], most);
      assert AboutBuild(s.queue[i], s.count);
    }
  }

  lemma StepKeepsInv(s: System, step: Step, most: int)
    requires Inv(s, most) && Enabled(s, step) && Gentle(s, step, most)
    ensures Inv(After(s, step), most)
  {
    if step.Decide? {
      DecideKeeps(s, step.next, most);
    } else if step.Reduce? {
      ReduceKeeps(s, most);
    } else {
      StepIsAside(s, step, most);
      SameBuildsKeepInv(s, After(s, step), most);
    }
  }

  lemma {:induction false} RunKeepsInv(s: System, steps: seq<Step>, most: int)
    requires Inv(s, most) && ValidRun(s, steps) && GentleRun(s, steps, most)
    ensures Inv(Final(s, steps), most)
    decreases |steps|
  {
    if steps != [] {
      StepKeepsInv(s, steps[0], most);
      RunKeepsInv(After(s, steps[0]), steps[1..], most);
    }
  }

  lemma InitialInv(max: int, most: int)
    requires max <= most
    ensures Inv(Initial(max), most)
  {
    assert UnderwaySet(Initial(max)) == {};
  }

  // ---- main results ----

  /** No manifest has two builds under way. */
  ghost predicate OneEach(s: System) {
    forall j, k {:trigger Underway(s, j), Underway(s, k)} :: Underway(s, j) && Underway(s, k) && j != k ==> NameOf(s, j) != NameOf(s, k)
  }

  lemma StepKeepsOneEach(s: System, step: Step, most: int)
    requires Inv(s, most) && Enabled(s, step) && OneEach(s)
    ensures OneEach(After(s, step))
  {
    var s' := After(s, step);
    if step.Decide? {
      DecideKeeps(s, step.next, most);
    }
    if step.Reduce? {
      HeadTaken(s, s', most);
    }
    forall k | 1 <= k <= s.count
      ensures NameOf(s', k) == NameOf(s, k)
      ensures Underway(s', k) ==> Underway(s, k)
    {
      if step.Complete? || step.Dispatch? || step.Announce? {
        var q, a := s.queue, s'.queue[|s.queue|];
        if CompletionQueued(s'.queue, k) {
          var i :| 0 <= i < |s'.queue| && CompletionOf(s'.queue[i], k);
          assert i < |q| ==> CompletionOf(q[i], k);
        }
      }
    }
  }

  lemma {:induction false} RunKeepsOneEach(s: System, steps: seq<Step>, most: int)
    requires Inv(s, most) && OneEach(s) && ValidRun(s, steps) && GentleRun(s, steps, most)
    ensures OneEach(Final(s, steps))
    decreases |steps|
  {
    if steps != [] {
      StepKeepsOneEach(s, steps[0], most);
      StepKeepsInv(s, steps[0], most);
      RunKeepsOneEach(After(s, steps[0]), steps[1..], most);
    }
  }

  /** With reloads that spare the builds under way, there are never more builds
      than the largest limit that was in force, and never two of one manifest. */
  lemma BuildsStayWithinLimit(max: int, steps: seq<Step>, most: int)
    requires max <= most && ValidRun(Initial(max), steps) && GentleRun(Initial(max), steps, most)
    ensures |UnderwaySet(Final(Initial(max), steps))| <= if most < 1 then 1 else most
    ensures OneEach(Final(Initial(max), steps))
  {
    InitialInv(max, most);
    RunKeepsInv(Initial(max), steps, most);
    RunKeepsOneEach(Initial(max), steps, most);
  }

  /** When a build is started the limit then in force holds, even if it was
      lowered while others were running. */
  lemma StartsRespectCurrentLimit(max: int, steps: seq<Step>, most: int, n: Name)
    requires max <= most && ValidRun(Initial(max), steps) && GentleRun(Initial(max), steps, most)
    requires Enabled(Final(Initial(max), steps), Decide(n))
    ensures var s := Final(Initial(max), steps);
            |UnderwaySet(After(s, Decide(n)))| <= MaxParallelUpdates(s.engine.maxParallel)
  {
    InitialInv(max, most);
    RunKeepsInv(Initial(max), steps, most);
    DecideKeeps(Final(Initial(max), steps), n, most);
  }

  /** A completed build goes down in its manifest's history under its own span. */
  lemma CompletionRecordsItsOwnSpan(max: int, steps: seq<Step>, most: int)
    requires max <= most && ValidRun(Initial(max), steps) && GentleRun(Initial(max), steps, most)
    ensures var s := Final(Initial(max), steps);
            s.queue != [] && s.queue[0].Completed? && s.queue[0].source == BuildControl && s.engine.fatalError == None ==>
              var n := s.queue[0].name;
              After(s, Reduce).engine.history == s.engine.history[n := AddCompletedBuild(HistoryOf(s.engine, n), Record(BuildControl, s.queue[0].span))]
  {
    var s := Final(Initial(max), steps);
    InitialInv(max, most);
    RunKeepsInv(Initial(max), steps, most);
    if s.queue != [] && s.queue[0].Completed? && s.queue[0].source == BuildControl && s.engine.fatalError == None {
      CompletionIsTracked(s, most);
    }
  }

  // ---- when a reload does not spare them ----

  lemma ThenReload(s: System, steps: seq<Step>, created: set<Name>, max: int) returns (all: seq<Step>)
    requires ValidRun(s, steps) && Final(s, steps).queue == [] && Final(s, steps).engine.fatalError == None
    ensures ValidRun(s, all)
    ensures var t := Final(s, steps); Final(s, all) == t.(engine := ConfigsReloaded(t.engine, {}, created, max))
  {
    RunThen(s, steps, Dispatch(Reloaded({}, created, max)));
    all := steps + [Dispatch(Reloaded({}, created, max))];
    RunThen(s, all, Reduce);
    all := all + [Reduce];
  }

  lemma ThenStart(s: System, steps: seq<Step>, n: Name) returns (all: seq<Step>)
    requires ValidRun(s, steps) && Enabled(Final(s, steps), Decide(n))
    requires Final(s, steps).queue == [] && Final(s, steps).engine.fatalError == None
    ensures ValidRun(s, all)
    ensures var t := Final(s, steps);
            Final(s, all) == t.(count := t.count + 1,
                                builds := t.builds + [Build(n, t.count + 1, Launched)],
                                engine := BuildStarted(t.engine, n, BuildControl, t.count + 1))
  {
    RunThen(s, steps, Decide(n));
    RunThen(s, steps + [Decide(n)], Announce);
    all := steps + [Decide(n)] + [Announce];
    RunThen(s, all, Reduce);
    all := all + [Reduce];
  }

  function Building(n: Name, count: nat): System {
    System(count, Contexts(map[], {}), None, seq(count, i requires 0 <= i < count => Build(n, i + 1, Launched)),
           Engine(count, 0, None, false, map[n := if count == 0 then map[] else map[BuildControl := count]], if count == 0 then {} else {n}, 2, map[]), [])
  }

  lemma MadeAnewAndStarted(s: System, steps: seq<Step>, n: Name, count: nat) returns (all: seq<Step>)
    requires ValidRun(s, steps) && Final(s, steps) == Building(n, count) && count < 2
    ensures ValidRun(s, all) && Final(s, all) == Building(n, count + 1)
  {
    all := ThenReload(s, steps, {n}, 2);
    var made := ConfigsReloaded(Building(n, count).engine, {}, {n}, 2);
    MadeAnew(n, count);
    all := ThenStart(s, all, n);
    assert Final(s, all).engine == BuildStarted(made, n, BuildControl, count + 1);
    assert Final(s, all).builds == Building(n, count + 1).builds;
  }

  lemma MadeAnew(n: Name, count: nat)
    requires count < 2
    ensures var made := ConfigsReloaded(Building(n, count).engine, {}, {n}, 2);
            && n in made.manifests && made.manifests[n] == map[] && AvailableBuildSlots(made) >= 1
            && BuildStarted(made, n, BuildControl, count + 1) == Building(n, count + 1).engine
  {
    var made := ConfigsReloaded(Building(n, count).engine, {}, {n}, 2);
    assert made.manifests == map[n := map[]];
    var started := BuildStarted(made, n, BuildControl, count + 1);
    assert started.manifests[n] == map[BuildControl := count + 1];
    assert started.manifests == Building(n, count + 1).engine.manifests;
    assert started.buildSet == {n};
  }

  lemma BuiltTwice() returns (steps: seq<Step>)
    ensures ValidRun(Initial(2), steps) && Final(Initial(2), steps) == Building("a", 2)
  {
    var s := Initial(2);
    steps := ThenReload(s, [], {"a"}, 2);
    assert Final(s, steps).engine.manifests == map["a" := map[]];
    assert Final(s, steps) == Building("a", 0);
    steps := MadeAnewAndStarted(s, steps, "a", 0);
    steps := MadeAnewAndStarted(s, steps, "a", 1);
  }

  /** A limit of two, and three builds under way: a resource that is being
      built is made anew by a reload, as happens when its type changes. */
  lemma ReloadCanExceedLimit() returns (steps: seq<Step>)
    ensures ValidRun(Initial(2), steps)
    ensures Final(Initial(2), steps).engine.maxParallel == 2
    ensures |UnderwaySet(Final(Initial(2), steps))| == 3
  {
    steps := BuiltTwice();
    SlotIsLeft();
    steps := ThenReload(Initial(2), steps, {"b"}, 2);
    steps := ThenStart(Initial(2), steps, "b");
    AllUnderway(Final(Initial(2), steps));
  }

  lemma SlotIsLeft()
    ensures var e := ConfigsReloaded(Building("a", 2).engine, {}, {"b"}, 2);
            "b" in e.manifests && e.manifests["b"] == map[] && NeedsBuild(2, e) && e.maxParallel == 2
  {
  }

  lemma AllUnderway(s: System)
    requires s.count == 3 && |s.builds| == 3 && forall i :: 0 <= i < 3 ==> s.builds[i].phase.Launched?
    ensures |UnderwaySet(s)| == 3
  {
    assert UnderwaySet(s) == {1, 2, 3};
  }

  // ---- cancelling ----

  /** Every registered function belongs to a build of that manifest which has
      not yet cleaned up after itself. */
  ghost predicate NothingLeaks(s: System) {
    forall n {:trigger s.contexts.stopFns[n]} :: n in s.contexts.stopFns ==>
      var k := s.contexts.stopFns[n];
      && 1 <= k <= |s.builds| && s.builds[k - 1].name == n
      && (s.builds[k - 1].phase.Registered? || s.builds[k - 1].phase.Finished?)
  }

  lemma StepLeaksNothing(s: System, step: Step)
    requires NothingLeaks(s) && Enabled(s, step)
    ensures NothingLeaks(After(s, step))
  {
  }

  lemma {:induction false} RunLeaksNothing(s: System, steps: seq<Step>)
    requires NothingLeaks(s) && ValidRun(s, steps)
    ensures NothingLeaks(Final(s, steps))
    decreases |steps|
  {
    if steps != [] {
      StepLeaksNothing(s, steps[0]);
      RunLeaksNothing(After(s, steps[0]), steps[1..]);
    }
  }

  /** In every run, once all builds have cleaned up no cancel function is left;
      and a build that cleans up leaves only the contexts of builds of its own
      manifest cancelled. */
  lemma NoCancelFunctionLeaks(max: int, steps: seq<Step>)
    requires ValidRun(Initial(max), steps)
    ensures var s := Final(Initial(max), steps);
            && ((forall i :: 0 <= i < |s.builds| ==> s.builds[i].phase.Cleaned?) ==> s.contexts.stopFns == map[])
            && forall k, j :: HasPhase(s, k, Finished) && j in After(s, Cleanup(k)).contexts.cancelled && j !in s.contexts.cancelled ==>
                 1 <= j <= |s.builds| && s.builds[j - 1].name == s.builds[k - 1].name
  {
    RunLeaksNothing(Initial(max), steps);
    var s := Final(Initial(max), steps);
    forall n | n in s.contexts.stopFns
      ensures exists i :: 0 <= i < |s.builds| && !s.builds[i].phase.Cleaned?
    {
      assert !s.builds[s.contexts.stopFns[n] - 1].phase.Cleaned?;
    }
  }

  function OnceStarted(): Engine {
    BuildStarted(ConfigsReloaded(Initial(1).engine, {}, {"a"}, 1), "a", BuildControl, 1)
  }

  lemma OnceFinished()
    ensures var e := BuildCompleted(OnceStarted(), "a", BuildControl, NoError);
            && OnceStarted().fatalError == None && e.fatalError == None && e.startCount == 1
            && AvailableBuildSlots(e) >= 1 && "a" in e.manifests && e.manifests["a"] == map[]
  {
    var e := BuildCompleted(OnceStarted(), "a", BuildControl, NoError);
    assert OnceStarted().manifests["a"] == map[BuildControl := 1];
    assert e.manifests["a"] == map[];
    assert e.buildSet == {};
  }

  lemma FinishedAndStartedAgain() returns (steps: seq<Step>)
    ensures ValidRun(Initial(1), steps)
    ensures var s := Final(Initial(1), steps);
            && s.builds == [Build("a", 1, Finished), Build("a", 2, Launched)]
            && s.contexts == Contexts(map["a" := 1], {})
  {
    var s := Initial(1);
    OnceFinished();
    steps := ThenReload(s, [], {"a"}, 1);
    assert Final(s, steps).engine.manifests["a"] == map[];
    steps := ThenStart(s, steps, "a");
    assert Final(s, steps).builds == [Build("a", 1, Launched)] && Final(s, steps).engine == OnceStarted();
    steps := ThenFinish(s, steps, 1);
    assert Final(s, steps).builds == [Build("a", 1, Finished)];
    steps := ThenStart(s, steps, "a");
  }

  /** A build's deferred cleanup can come after the next build of the manifest
      has registered, and then it is that one it cancels. */
  lemma LateCleanupCancelsTheNextBuild() returns (steps: seq<Step>)
    ensures ValidRun(Initial(1), steps)
    ensures var s := Final(Initial(1), steps);
            HasPhase(s, 1, Cleaned) && HasPhase(s, 2, Registered) && s.contexts.cancelled == {2}
  {
    var s := Initial(1);
    steps := FinishedAndStartedAgain();
    RunThen(s, steps, Register(2));
    steps := steps + [Register(2)];
    var t := Final(s, steps);
    assert t.contexts.stopFns["a"] == 2;
    RunThen(s, steps, Cleanup(1));
    steps := steps + [Cleanup(1)];
  }

  lemma ThenFinish(s: System, steps: seq<Step>, k: nat) returns (all: seq<Step>)
    requires ValidRun(s, steps) && HasPhase(Final(s, steps), k, Launched)
    requires Final(s, steps).queue == [] && Final(s, steps).engine.fatalError == None
    requires k !in Final(s, steps).contexts.cancelled
    ensures ValidRun(s, all)
    ensures var t := Final(s, steps);
            var n := t.builds[k - 1].name;
            Final(s, all) == t.(builds := SetPhase(t.builds, k, Finished),
                                contexts := Registering(t.contexts, n, k),
                                engine := BuildCompleted(t.engine, n, BuildControl, NoError))
  {
    RunThen(s, steps, Register(k));
    all := steps + [Register(k)];
    RunThen(s, all, Complete(k, NoError));
    all := all + [Complete(k, NoError)];
    RunThen(s, all, Reduce);
    all := all + [Reduce];
    assert Final(s, all).builds == SetPhase(Final(s, steps).builds, k, Finished);
  }
}
