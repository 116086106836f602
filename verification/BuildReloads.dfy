/** When a reload of the Tiltfile endangers the limit on parallel builds. A build
    that its manifest no longer names keeps no slot once a live update of the
    manifest ends, and then others can take its place; unless its completion is
    in the queue already, before any such update. */
module BuildReloads {
  import opened Shared
  import opened BuildGate
  import opened BuildSlots
  import opened BuildSettling

  // ---- gentle continuations ----

  ghost predicate Leads(s: System, t: System, most: int) {
    exists steps :: ValidRun(s, steps) && GentleRun(s, steps, most) && Final(s, steps) == t
  }

  lemma LeadsNowhere(s: System, most: int)
    ensures Leads(s, s, most)
  {
    assert ValidRun(s, []) && GentleRun(s, [], most) && Final(s, []) == s;
  }

  lemma LeadsFirst(s: System, step: Step, t: System, most: int)
    requires Enabled(s, step) && Gentle(s, step, most) && Leads(After(s, step), t, most)
    ensures Leads(s, t, most)
  {
    var rest :| ValidRun(After(s, step), rest) && GentleRun(After(s, step), rest, most) && Final(After(s, step), rest) == t;
    var steps := [step] + rest;
    assert steps[1..] == rest;
    assert ValidRun(s, steps) && GentleRun(s, steps, most) && Final(s, steps) == t;
  }

  lemma LeadsOneStep(s: System, step: Step, most: int)
    requires Enabled(s, step) && Gentle(s, step, most)
    ensures Leads(s, After(s, step), most)
  {
    LeadsNowhere(After(s, step), most);
    LeadsFirst(s, step, After(s, step), most);
  }

  lemma {:induction false} RunLeadsOn(s: System, steps: seq<Step>, t: System, most: int)
    requires ValidRun(s, steps) && GentleRun(s, steps, most) && Leads(Final(s, steps), t, most)
    ensures Leads(s, t, most)
    decreases |steps|
  {
    if steps != [] {
      RunLeadsOn(After(s, steps[0]), steps[1..], t, most);
      LeadsFirst(s, steps[0], t, most);
    }
  }

  lemma LeadsOn(s: System, t: System, u: System, most: int)
    requires Leads(s, t, most) && Leads(t, u, most)
    ensures Leads(s, u, most)
  {
    var steps :| ValidRun(s, steps) && GentleRun(s, steps, most) && Final(s, steps) == t;
    RunLeadsOn(s, steps, u, most);
  }

  /** An action from outside, dispatched while the queue is empty, and reduced. */
  lemma LeadsReduced(s: System, a: Action, most: int)
    requires s.queue == [] && !ByController(a)
    requires a.Reloaded? ==> a.maxParallel <= most && Spares(s, a.dropped, a.created)
    ensures Leads(s, s.(engine := Reduced(s.engine, a)), most)
  {
    var s1 := After(s, Dispatch(a));
    assert s1.queue == [a];
    forall k
      ensures Underway(s1, k) <==> Underway(s, k)
      ensures NameOf(s1, k) == NameOf(s, k)
    {
    }
    LeadsOneStep(s, Dispatch(a), most);
    LeadsOneStep(s1, Reduce, most);
    LeadsOn(s, s1, After(s1, Reduce), most);
  }

  /** A build the controller has decided on, announced and reduced. */
  function Delivered(s: System): System
    requires s.decided.Some?
  {
    s.(decided := None,
       builds := s.builds + [Build(s.decided.value, s.count, Launched)],
       engine := Reduced(s.engine, Started(s.decided.value, BuildControl, s.count)))
  }

  lemma LeadsDelivered(s: System, most: int)
    requires s.queue == [] && s.decided.Some?
    ensures Leads(s, Delivered(s), most)
  {
    var s1 := After(s, Announce);
    LeadsOneStep(s, Announce, most);
    LeadsOneStep(s1, Reduce, most);
    assert After(s1, Reduce) == Delivered(s);
    LeadsOn(s, s1, Delivered(s), most);
  }

  // ---- a build that no manifest names ----

  /** Nothing is pending, and some build under way is on no manifest's record. */
  ghost predicate Astray(s: System) {
    && s.queue == [] && s.decided == None && s.engine.fatalError == None
    && s.count == s.engine.startCount && SpansInOrder(s)
    && EntriesUnderway(s)
    && exists k :: Underway(s, k) && !Recorded(s, k)
  }

  predicate HasEntry(e: Engine, n: Name) {
    n in e.manifests && BuildControl in e.manifests[n]
  }

  ghost predicate SameEntries(e: Engine, f: Engine) {
    forall n :: (HasEntry(f, n) <==> HasEntry(e, n)) && (HasEntry(e, n) ==> f.manifests[n][BuildControl] == e.manifests[n][BuildControl])
  }

  lemma StaysAstray(s: System, e: Engine)
    requires Astray(s) && SameEntries(s.engine, e)
    requires e.fatalError == None && e.startCount == s.engine.startCount
    ensures Astray(s.(engine := e)) && UnderwaySet(s.(engine := e)) == UnderwaySet(s)
  {
    var t := s.(engine := e);
    forall k
      ensures Underway(t, k) <==> Underway(s, k)
      ensures NameOf(t, k) == NameOf(s, k)
    {
    }
    var k :| Underway(s, k) && !Recorded(s, k);
    assert HasEntry(e, NameOf(s, k)) <==> HasEntry(s.engine, NameOf(s, k));
    assert Underway(t, k) && !Recorded(t, k);
    forall n | n in e.manifests && BuildControl in e.manifests[n]
      ensures Underway(t, e.manifests[n][BuildControl]) && NameOf(t, e.manifests[n][BuildControl]) == n
    {
      assert HasEntry(e, n) && HasEntry(s.engine, n);
    }
  }

  /** A live update of a manifest, from start to end. */
  function LiveUpdated(e: Engine, m: Name): Engine {
    BuildCompleted(BuildStarted(e, m, LiveUpdate, 0), m, LiveUpdate, NoError)
  }

  lemma LiveUpdateFreesSlot(e: Engine, m: Name)
    requires !HasEntry(e, m)
    ensures SameEntries(e, LiveUpdated(e, m))
    ensures LiveUpdated(e, m).buildSet == e.buildSet - {m}
  {
    var mid, f := BuildStarted(e, m, LiveUpdate, 0), LiveUpdated(e, m);
    if m in e.manifests {
      forall source
        ensures source !in f.manifests[m]
      {
        match source {
          case BuildControl => assert BuildControl !in mid.manifests[m];
          case LiveUpdate =>
        }
      }
      assert f.manifests[m] == map[];
    }
    assert !IsBuilding(f.manifests, m);
    forall n
      ensures HasEntry(f, n) <==> HasEntry(e, n)
      ensures HasEntry(e, n) ==> f.manifests[n][BuildControl] == e.manifests[n][BuildControl]
    {
    }
  }

  lemma LeadsToFreedSlot(s: System, m: Name, most: int)
    requires Astray(s) && !HasEntry(s.engine, m)
    ensures var t := s.(engine := LiveUpdated(s.engine, m));
            Leads(s, t, most) && Astray(t) && UnderwaySet(t) == UnderwaySet(s) && t.engine.buildSet == s.engine.buildSet - {m}
  {
    var mid := s.(engine := BuildStarted(s.engine, m, LiveUpdate, 0));
    var t := s.(engine := LiveUpdated(s.engine, m));
    LeadsReduced(s, Started(m, LiveUpdate, 0), most);
    LeadsReduced(mid, Completed(m, LiveUpdate, 0, NoError), most);
    LeadsOn(s, mid, t, most);
    LiveUpdateFreesSlot(s.engine, m);
    StaysAstray(s, t.engine);
  }

  // ---- one more build ----

  lemma {:induction false} LongerThanAll(names: set<Name>) returns (n: nat)
    ensures forall x :: x in names ==> |x| < n
    decreases |names|
  {
    if names == {} {
      n := 0;
    } else {
      var x :| x in names;
      var m := LongerThanAll(names - {x});
      n := if m > |x| then m else |x| + 1;
      assert forall y :: y in names ==> y == x || y in names - {x};
    }
  }

  lemma NewName(names: set<Name>) returns (f: Name)
    ensures f !in names
  {
    var n := LongerThanAll(names);
    f := seq(n, i => 'x');
    assert |f| == n;
  }

  /** A manifest that no build under way bears is made, and its build started. */
  function WithBuildOf(s: System, f: Name, most: int): System {
    var made := ConfigsReloaded(s.engine, {}, {f}, most);
    s.(count := s.count + 1,
       builds := s.builds + [Build(f, s.count + 1, Launched)],
       engine := BuildStarted(made, f, BuildControl, s.count + 1))
  }

  lemma LeadsToMade(s: System, f: Name, most: int)
    requires Astray(s) && |s.engine.buildSet| < MaxParallelUpdates(most)
    requires forall k :: Underway(s, k) ==> NameOf(s, k) != f
    ensures var made := s.(engine := ConfigsReloaded(s.engine, {}, {f}, most));
            Leads(s, made, most) && Enabled(made, Decide(f))
  {
    assert Spares(s, {}, {f});
    LeadsReduced(s, Reloaded({}, {f}, most), most);
  }

  lemma LeadsToOneMore(s: System, f: Name, most: int)
    requires Astray(s) && |s.engine.buildSet| < MaxParallelUpdates(most)
    requires forall k :: Underway(s, k) ==> NameOf(s, k) != f
    ensures Leads(s, WithBuildOf(s, f, most), most)
  {
    var made := s.(engine := ConfigsReloaded(s.engine, {}, {f}, most));
    LeadsToMade(s, f, most);
    var decided := After(made, Decide(f));
    LeadsOneStep(made, Decide(f), most);
    LeadsDelivered(decided, most);
    LeadsOn(s, made, decided, most);
    LeadsOn(s, decided, Delivered(decided), most);
    DeliveredIsBuild(s, f, most);
  }

  lemma DeliveredIsBuild(s: System, f: Name, most: int)
    requires Astray(s)
    ensures var made := s.(engine := ConfigsReloaded(s.engine, {}, {f}, most));
            Delivered(made.(count := s.count + 1, decided := Some(f))) == WithBuildOf(s, f, most)
  {
  }

  lemma OneMoreIsAstray(s: System, f: Name, most: int)
    requires Astray(s)
    requires forall k :: Underway(s, k) ==> NameOf(s, k) != f
    ensures Astray(WithBuildOf(s, f, most))
    ensures UnderwaySet(WithBuildOf(s, f, most)) == UnderwaySet(s) + {s.count + 1}
  {
    var t := WithBuildOf(s, f, most);
    forall k: nat | k <= s.count
      ensures Underway(t, k) <==> Underway(s, k)
      ensures 1 <= k ==> NameOf(t, k) == NameOf(s, k)
    {
    }
    assert Underway(t, s.count + 1) && NameOf(t, s.count + 1) == f;
    assert UnderwaySet(t) == UnderwaySet(s) + {s.count + 1};
    forall n
      ensures HasEntry(t.engine, n) <==> n == f || HasEntry(s.engine, n)
      ensures n != f && HasEntry(s.engine, n) ==> t.engine.manifests[n][BuildControl] == s.engine.manifests[n][BuildControl]
    {
    }
    var k :| Underway(s, k) && !Recorded(s, k);
    assert Underway(t, k) && !Recorded(t, k);
    forall n | n in t.engine.manifests && BuildControl in t.engine.manifests[n]
      ensures Underway(t, t.engine.manifests[n][BuildControl]) && NameOf(t, t.engine.manifests[n][BuildControl]) == n
    {
      assert HasEntry(t.engine, n);
    }
  }

  // ---- past the limit ----

  lemma {:induction false} EntriesAtMost(s: System, names: set<Name>, ks: set<nat>)
    requires forall n :: n in names ==>
               HasEntry(s.engine, n) && s.engine.manifests[n][BuildControl] in ks && NameOf(s, s.engine.manifests[n][BuildControl]) == n
    ensures |names| <= |ks|
    decreases |names|
  {
    if names != {} {
      var n :| n in names;
      EntriesAtMost(s, names - {n}, ks - {s.engine.manifests[n][BuildControl]});
    }
  }

  /** Where every slot is taken by a recorded build, the one astray has none. */
  lemma SlotsAreFewer(s: System)
    requires Astray(s) && forall n :: n in s.engine.buildSet ==> HasEntry(s.engine, n)
    ensures |s.engine.buildSet| < |UnderwaySet(s)|
  {
    var k :| Underway(s, k) && !Recorded(s, k);
    assert k in UnderwaySet(s);
    forall n | n in s.engine.buildSet
      ensures s.engine.manifests[n][BuildControl] in UnderwaySet(s) - {k} && NameOf(s, s.engine.manifests[n][BuildControl]) == n
    {
      assert HasEntry(s.engine, n);
    }
    EntriesAtMost(s, s.engine.buildSet, UnderwaySet(s) - {k});
  }

  lemma OneMore(s: System, most: int) returns (t: System)
    requires Astray(s) && |UnderwaySet(s)| <= MaxParallelUpdates(most)
    requires forall n :: n in s.engine.buildSet ==> HasEntry(s.engine, n)
    ensures Leads(s, t, most) && Astray(t) && |UnderwaySet(t)| == |UnderwaySet(s)| + 1
  {
    SlotsAreFewer(s);
    var f := NewName(set k | k in UnderwaySet(s) :: NameOf(s, k));
    forall k | Underway(s, k)
      ensures NameOf(s, k) != f
    {
      assert k in UnderwaySet(s);
    }
    LeadsToOneMore(s, f, most);
    OneMoreIsAstray(s, f, most);
    t := WithBuildOf(s, f, most);
    assert s.count + 1 !in UnderwaySet(s);
  }

  lemma {:induction false} PastTheLimit(s: System, most: int) returns (t: System)
    requires Astray(s)
    ensures Leads(s, t, most) && |UnderwaySet(t)| > MaxParallelUpdates(most)
    decreases MaxParallelUpdates(most) + 1 - |UnderwaySet(s)|, |s.engine.buildSet|
  {
    if |UnderwaySet(s)| > MaxParallelUpdates(most) {
      t := s;
      LeadsNowhere(s, most);
    } else if m :| m in s.engine.buildSet && !HasEntry(s.engine, m) {
      var freed := s.(engine := LiveUpdated(s.engine, m));
      LeadsToFreedSlot(s, m, most);
      assert |freed.engine.buildSet| < |s.engine.buildSet|;
      t := PastTheLimit(freed, most);
      LeadsOn(s, freed, t, most);
    } else {
      var more := OneMore(s, most);
      t := PastTheLimit(more, most);
      LeadsOn(s, more, t, most);
    }
  }

  // ---- what waits behind the reload ----

  /** A start whose manifest the reload does not drop, no end of a live update of
      a manifest it touches, no reload of a manifest with a build under way;
      completions of builds, failures and all else at will. */
  ghost predicate MayWait(s: System, a: Action, dropped: set<Name>, created: set<Name>) {
    match a
    case Started(n, BuildControl, _) => n in dropped ==> n in created
    case Completed(n, LiveUpdate, _, _) => n !in dropped && n !in created
    case Reloaded(_, _, _) => Avoids(s, a)
    case _ => true
  }

  ghost predicate Avoids(s: System, a: Action) {
    a.Reloaded? ==>
      forall k {:trigger Underway(s, k)} :: Underway(s, k) ==> NameOf(s, k) !in a.dropped && NameOf(s, k) !in a.created
  }

  /** The reducer is live and about to reload, and what comes after may wait. */
  ghost predicate AboutToReload(s: System, most: int) {
    && Inv(s, most) && s.engine.fatalError == None && s.queue != [] && s.queue[0].Reloaded?
    && forall i {:trigger s.queue[i]} :: 1 <= i < |s.queue| ==> MayWait(s, s.queue[i], s.queue[0].dropped, s.queue[0].created)
  }

  /** The reload spares every build whose completion is not yet queued. */
  ghost predicate SparesUncompleted(s: System)
    requires s.queue != [] && s.queue[0].Reloaded?
  {
    forall k {:trigger Underway(s, k)} :: Underway(s, k) && !CompletionQueued(s.queue, k) ==>
      Spared(s, k, s.queue[0].dropped, s.queue[0].created)
  }

  // ---- safety ----

  /** A start that waits finds its manifest. */
  lemma WaitingStartIsAwaited(s: System, i: nat, most: int)
    requires AboutToReload(s, most) && 1 <= i < |s.queue| && IsStart(s.queue[i])
    ensures Awaited(After(s, Reduce)) && s.queue[i].name == NameOf(s, s.count) && Newest(s, s.count)
    ensures NameOf(s, s.count) in s.queue[0].dropped ==> NameOf(s, s.count) in s.queue[0].created
  {
    assert ActionFits(s, s.queue[i], most);
    StartIsCounted(s.queue, i);
    StartsOfRest(s);
    assert NameOf(After(s, Reduce), s.count) == NameOf(s, s.count);
  }

  lemma ReloadedSlots(s: System, most: int)
    requires AboutToReload(s, most)
    ensures Slotted(After(s, Reduce)) && Unentered(After(s, Reduce))
    ensures forall k {:trigger Older(After(s, Reduce), k)} :: Older(After(s, Reduce), k) <==> Older(s, k)
    ensures forall k {:trigger Older(s, k)} :: Older(s, k) ==>
              && Tracked(s, k) && NameOf(After(s, Reduce), k) == NameOf(s, k)
              && (Spared(s, k, s.queue[0].dropped, s.queue[0].created) <==> Tracked(After(s, Reduce), k))
  {
    var s' := After(s, Reduce);
    HeadTaken(s, s', most);
    StartsOfRest(s);
    forall k
      ensures Older(s', k) <==> Older(s, k)
      ensures NameOf(s', k) == NameOf(s, k)
      ensures Older(s, k) ==> Tracked(s, k)
    {
    }
  }

  lemma ReloadedIsHarmless(s: System, most: int, i: nat)
    requires AboutToReload(s, most) && 1 <= i < |s.queue|
    ensures Harmless(After(s, Reduce), s.queue[i])
  {
    var s', a := After(s, Reduce), s.queue[i];
    ReloadedSlots(s, most);
    assert MayWait(s, a, s.queue[0].dropped, s.queue[0].created);
    if IsStart(a) {
      WaitingStartIsAwaited(s, i, most);
    }
    forall k | Older(s', k)
      ensures IsStart(a) ==> NameOf(s', k) != a.name
      ensures a.Completed? && a.source == LiveUpdate && NameOf(s', k) == a.name ==> Tracked(s', k)
    {
      assert Older(s, k);
    }
  }

  lemma UncompletedSettles(s: System, most: int)
    requires AboutToReload(s, most) && SparesUncompleted(s)
    ensures Awaited(After(s, Reduce))
    ensures forall k {:trigger Older(After(s, Reduce), k)} :: Older(After(s, Reduce), k) && !Tracked(After(s, Reduce), k) ==>
              CompletionQueued(s.queue[1..], k)
  {
    var s' := After(s, Reduce);
    ReloadedSlots(s, most);
    forall k | Older(s', k) && !Tracked(s', k)
      ensures CompletionQueued(s.queue[1..], k)
    {
      assert Underway(s, k);
      QueueShrinks(s.queue, k);
    }
    if Undelivered(s) > 0 {
      NewestIsSpared(s, most);
    }
    StartsOfRest(s);
    NewestIsAwaited(s, s', s.queue[0].dropped, s.queue[0].created);
  }

  lemma NewestIsSpared(s: System, most: int)
    requires AboutToReload(s, most) && SparesUncompleted(s) && Undelivered(s) > 0
    ensures Spared(s, s.count, s.queue[0].dropped, s.queue[0].created)
  {
    assert Underway(s, s.count);
    if CompletionQueued(s.queue, s.count) {
      var i :| 0 <= i < |s.queue| && CompletionOf(s.queue[i], s.count);
      assert ActionFits(s, s.queue[i], most);
      var j := SomeStart(s.queue);
      WaitingStartIsAwaited(s, j, most);
    }
  }

  lemma ReloadSettles(s: System, most: int)
    requires AboutToReload(s, most)
    requires SparesUncompleted(s) || Doomed(After(s, Reduce), |s.queue| - 1)
    ensures Settling(After(s, Reduce), |s.queue| - 1, most)
  {
    var s', w := After(s, Reduce), |s.queue| - 1;
    ReduceKeepsSane(s, most);
    ReduceKeepsEntries(s, most);
    HeadTaken(s, s', most);
    ReloadedSlots(s, most);
    forall i | 0 <= i < w
      ensures Harmless(s', s'.queue[i])
    {
      assert s'.queue[i] == s.queue[i + 1];
      ReloadedIsHarmless(s, most, i + 1);
    }
    if SparesUncompleted(s) {
      UncompletedSettles(s, most);
      assert s'.queue[..w] == s.queue[1..];
    }
  }

  // ---- danger ----

  /** A build on no record, that no action in the queue completes or records. */
  predicate Stray(s: System, k: nat) {
    && Underway(s, k) && !CompletionQueued(s.queue, k) && !Recorded(s, k)
    && (Newest(s, k) ==> StartsIn(s.queue) == 0 && NameOf(s, k) !in s.engine.manifests)
  }

  /** The queue can be drained gently, and a build stays astray. */
  ghost predicate Drainable(s: System, most: int, k: nat) {
    && Sane(s, most) && EntriesUnderway(s) && Stray(s, k)
    && !Doomed(s, |s.queue|)
    && forall i {:trigger s.queue[i]} :: 0 <= i < |s.queue| ==> Avoids(s, s.queue[i])
  }

  lemma {:induction false} FatalIsDrained(e: Engine, q: seq<Action>)
    requires e.fatalError.Some?
    ensures Drained(e, q).fatalError.Some?
    decreases |q|
  {
    if q != [] {
      FatalIsDrained(Reduced(e, q[0]), q[1..]);
    }
  }

  lemma DrainableIsLive(s: System, most: int, k: nat)
    requires Drainable(s, most, k)
    ensures s.engine.fatalError == None
  {
    if s.engine.fatalError.Some? {
      FatalIsDrained(s.engine, s.queue[..|s.queue|]);
    }
  }

  lemma StrayStays(s: System, most: int, k: nat)
    requires Drainable(s, most, k) && s.queue != []
    ensures Stray(After(s, Reduce), k)
  {
    var s', a := After(s, Reduce), s.queue[0];
    DrainableIsLive(s, most, k);
    HeadTaken(s, s', most);
    QueueShrinks(s.queue, k);
    assert ActionFits(s, a, most);
    assert Avoids(s, a);
    if IsStart(a) {
      StartIsCounted(s.queue, 0);
    }
    assert NameOf(s', k) == NameOf(s, k);
  }

  lemma DrainsOn(s: System, most: int, k: nat)
    requires Drainable(s, most, k) && s.queue != []
    ensures Gentle(s, Reduce, most) && Drainable(After(s, Reduce), most, k)
  {
    var s' := After(s, Reduce);
    assert Avoids(s, s.queue[0]);
    StrayStays(s, most, k);
    ReduceKeepsSane(s, most);
    ReduceKeepsEntries(s, most);
    HeadTaken(s, s', most);
    forall i | 0 <= i < |s'.queue|
      ensures Avoids(s', s'.queue[i])
    {
      assert s'.queue[i] == s.queue[i + 1];
      assert Avoids(s, s.queue[i + 1]);
      forall j | Underway(s', j)
        ensures Underway(s, j) && NameOf(s', j) == NameOf(s, j)
      {
      }
    }
    assert s.queue[..|s.queue|] == s.queue && s'.queue[..|s'.queue|] == s'.queue;
  }

  lemma {:induction false} Drain(s: System, most: int, k: nat) returns (t: System)
    requires Drainable(s, most, k)
    ensures Leads(s, t, most) && t.queue == [] && Drainable(t, most, k)
    decreases |s.queue|
  {
    if s.queue == [] {
      t := s;
      LeadsNowhere(s, most);
    } else {
      DrainsOn(s, most, k);
      t := Drain(After(s, Reduce), most, k);
      LeadsFirst(s, Reduce, t, most);
    }
  }

  lemma DeliveredEntries(s: System)
    requires s.decided.Some? && s.queue == [] && SpansInOrder(s) && EntriesUnderway(s)
    ensures EntriesUnderway(Delivered(s))
  {
    var t, n := Delivered(s), s.decided.value;
    if s.engine.fatalError == None {
      forall m | m in t.engine.manifests && BuildControl in t.engine.manifests[m]
        ensures Underway(t, t.engine.manifests[m][BuildControl]) && NameOf(t, t.engine.manifests[m][BuildControl]) == m
      {
        if m == n {
          DeliveredUnderway(s, s.count);
        } else {
          assert m in s.engine.manifests && s.engine.manifests[m] == t.engine.manifests[m];
          DeliveredUnderway(s, s.engine.manifests[m][BuildControl]);
        }
      }
    }
  }

  lemma DeliveredUnderway(s: System, j: nat)
    requires s.decided.Some? && s.queue == [] && SpansInOrder(s) && j <= s.count
    ensures Underway(Delivered(s), j) <==> Underway(s, j)
    ensures 1 <= j ==> NameOf(Delivered(s), j) == NameOf(s, j)
    ensures NameOf(s, s.count) == s.decided.value && Underway(s, s.count)
  {
  }

  /** Once drained, and once a decision has been delivered, a build is astray. */
  lemma DrainedLeadsAstray(s: System, most: int, k: nat) returns (t: System)
    requires Drainable(s, most, k) && s.queue == []
    ensures Leads(s, t, most) && Astray(t)
  {
    DrainableIsLive(s, most, k);
    if s.decided == None {
      t := s;
      LeadsNowhere(s, most);
      assert Underway(t, k) && !Recorded(t, k);
    } else {
      t := Delivered(s);
      LeadsDelivered(s, most);
      DeliveredEntries(s);
      DeliveredUnderway(s, k);
      assert Underway(t, k) && !Recorded(t, k);
    }
  }

  /** A build that the reload takes from its manifest is astray after it. */
  lemma UnsparedIsStray(s: System, most: int, k: nat)
    requires AboutToReload(s, most) && !Doomed(After(s, Reduce), |s.queue| - 1)
    requires Underway(s, k) && !CompletionQueued(s.queue, k) && !Spared(s, k, s.queue[0].dropped, s.queue[0].created)
    ensures Drainable(After(s, Reduce), most, k)
  {
    var s' := After(s, Reduce);
    ReduceKeepsSane(s, most);
    ReduceKeepsEntries(s, most);
    HeadTaken(s, s', most);
    QueueShrinks(s.queue, k);
    assert NameOf(s', k) == NameOf(s, k);
    StartsOfRest(s);
    if Newest(s, k) && StartsIn(s'.queue) > 0 {
      var i := SomeStart(s'.queue);
      WaitingStartIsAwaited(s, i + 1, most);
    }
    forall i | 0 <= i < |s'.queue|
      ensures Avoids(s', s'.queue[i])
    {
      assert s'.queue[i] == s.queue[i + 1];
      assert MayWait(s, s.queue[i + 1], s.queue[0].dropped, s.queue[0].created);
      forall j | Underway(s', j)
        ensures Underway(s, j) && NameOf(s', j) == NameOf(s, j)
      {
      }
    }
  }

  // ---- the reload itself ----

  /** However the run goes on, as long as it goes on gently, the limit holds. */
  ghost predicate ReloadIsSafe(s: System, most: int)
    requires s.queue != []
  {
    forall steps :: ValidRun(After(s, Reduce), steps) && GentleRun(After(s, Reduce), steps, most) ==>
      |UnderwaySet(Final(After(s, Reduce), steps))| <= MaxParallelUpdates(most)
  }

  /** A reload endangers the limit if and only if it takes its manifest from some
      build whose completion is not yet queued, and no action behind the reload
      is a fatal error: then, whatever the limit and whatever else is under way,
      some continuation exceeds it. */
  lemma ReloadIsSafeExactlyWhen(s: System, most: int)
    requires AboutToReload(s, most)
    ensures ReloadIsSafe(s, most) <==> SparesUncompleted(s) || Doomed(After(s, Reduce), |s.queue| - 1)
  {
    var s1 := After(s, Reduce);
    if SparesUncompleted(s) || Doomed(s1, |s.queue| - 1) {
      ReloadSettles(s, most);
      forall steps | ValidRun(s1, steps) && GentleRun(s1, steps, most)
        ensures |UnderwaySet(Final(s1, steps))| <= MaxParallelUpdates(most)
      {
        RunSettles(s1, steps, |s.queue| - 1, most);
      }
    } else {
      var k :| Underway(s, k) && !CompletionQueued(s.queue, k) && !Spared(s, k, s.queue[0].dropped, s.queue[0].created);
      UnsparedIsStray(s, most, k);
      var drained := Drain(s1, most, k);
      var t := DrainedLeadsAstray(drained, most, k);
      var u := PastTheLimit(t, most);
      LeadsOn(s1, drained, t, most);
      LeadsOn(s1, t, u, most);
      var steps :| ValidRun(s1, steps) && GentleRun(s1, steps, most) && Final(s1, steps) == u;
    }
  }

  /** With nothing behind it, a reload is safe if and only if it spares every
      build under way. */
  lemma LoneReloadIsSafeExactlyWhenItSpares(s: System, most: int)
    requires Inv(s, most) && s.engine.fatalError == None && |s.queue| == 1 && s.queue[0].Reloaded?
    ensures ReloadIsSafe(s, most) <==> Spares(s, s.queue[0].dropped, s.queue[0].created)
  {
    ReloadIsSafeExactlyWhen(s, most);
    assert After(s, Reduce).queue[..0] == [];
    assert forall k :: !CompletionQueued(s.queue, k);
  }

  lemma LeadsKeepsInv(s: System, t: System, most: int)
    requires Inv(s, most) && Leads(s, t, most)
    ensures Inv(t, most)
  {
    var steps :| ValidRun(s, steps) && GentleRun(s, steps, most) && Final(s, steps) == t;
    RunKeepsInv(s, steps, most);
  }

  lemma LeadsToRunning(n: Name) returns (s: System)
    ensures Leads(Initial(1), s, 1) && s.queue == [] && s.engine.fatalError == None
    ensures s.count == 1 && s.builds == [Build(n, 1, Registered)] && s.contexts.cancelled == {}
  {
    var made := Initial(1).(engine := ConfigsReloaded(Initial(1).engine, {}, {n}, 1));
    LeadsReduced(Initial(1), Reloaded({}, {n}, 1), 1);
    var decided := After(made, Decide(n));
    LeadsOneStep(made, Decide(n), 1);
    LeadsOn(Initial(1), made, decided, 1);
    LeadsDelivered(decided, 1);
    LeadsOn(Initial(1), decided, Delivered(decided), 1);
    s := After(Delivered(decided), Register(1));
    LeadsOneStep(Delivered(decided), Register(1), 1);
    LeadsOn(Initial(1), Delivered(decided), s, 1);
  }

  /** A reload that makes the manifest of a build under way anew, and yet is
      safe: the build's completion is behind it in the queue. */
  lemma QueuedCompletionIsNoDanger() returns (s: System)
    ensures Leads(Initial(1), s, 1) && s.queue != [] && s.queue[0].Reloaded?
    ensures !Spares(s, s.queue[0].dropped, s.queue[0].created) && ReloadIsSafe(s, 1)
  {
    var n, reload := "a", Reloaded({}, {"a"}, 1);
    var running := LeadsToRunning(n);
    var reloading := After(running, Dispatch(reload));
    LeadsOneStep(running, Dispatch(reload), 1);
    LeadsOn(Initial(1), running, reloading, 1);
    s := After(reloading, Complete(1, NoError));
    LeadsOneStep(reloading, Complete(1, NoError), 1);
    LeadsOn(Initial(1), reloading, s, 1);
    InitialInv(1, 1);
    LeadsKeepsInv(Initial(1), s, 1);
    assert s.queue == [reload, Completed(n, BuildControl, 1, NoError)];
    assert CompletionOf(s.queue[1], 1);
    assert Underway(s, 1) && NameOf(s, 1) == n;
    if Newest(s, 1) {
      NewestHasStart(s, 1);
    }
    assert !Spared(s, 1, {}, {"a"});
    assert SparesUncompleted(s);
    ReloadIsSafeExactlyWhen(s, 1);
  }

  lemma NewestHasStart(s: System, most: int)
    requires Inv(s, most) && s.engine.fatalError == None && Newest(s, s.count)
    ensures s.decided.Some? || exists i :: 0 <= i < |s.queue| && IsStart(s.queue[i])
  {
    if s.decided == None {
      var i := SomeStart(s.queue);
    }
  }
}
