/** While what was queued behind a reload is drained: a build that the reload
    took from its manifest keeps its slot until its completion arrives, as long
    as nothing else in the queue gives the slot away. */
module BuildSettling {
  import opened Shared
  import opened BuildGate
  import opened BuildSlots

  function Drained(e: Engine, q: seq<Action>): Engine
    decreases |q|
  {
    if q == [] then e else Drained(Reduced(e, q[0]), q[1..])
  }

  /** Reducing the first w actions of the queue ends in a fatal error. */
  predicate Doomed(s: System, w: nat)
    requires w <= |s.queue|
  {
    Drained(s.engine, s.queue[..w]).fatalError.Some?
  }

  /** Under way, and its start has been reduced. */
  predicate Older(s: System, k: nat) {
    Underway(s, k) && !Newest(s, k)
  }

  /** Every build but the newest has a slot in its name, and none the same. */
  ghost predicate Slotted(s: System) {
    && (forall k {:trigger Older(s, k)} :: Older(s, k) ==> NameOf(s, k) in s.engine.buildSet)
    && forall j, k {:trigger Older(s, j), Older(s, k)} :: Older(s, j) && Older(s, k) && j != k ==> NameOf(s, j) != NameOf(s, k)
  }

  /** The newest build has no entry yet. */
  predicate Unentered(s: System) {
    Undelivered(s) > 0 && NameOf(s, s.count) in s.engine.manifests ==> BuildControl !in s.engine.manifests[NameOf(s, s.count)]
  }

  /** The action gives away no slot that a build still needs. */
  ghost predicate Harmless(s: System, a: Action) {
    match a
    case Started(n, BuildControl, _) => Awaited(s) && forall k {:trigger Older(s, k)} :: Older(s, k) ==> NameOf(s, k) != n
    case Completed(n, LiveUpdate, _, _) => forall k {:trigger Older(s, k)} :: Older(s, k) && NameOf(s, k) == n ==> Tracked(s, k)
    case _ => true
  }

  /** Of the first w actions none does harm, and after them every build is on
      record again, unless they end in a fatal error. */
  ghost predicate Waiting(s: System, w: nat)
    requires w <= |s.queue|
  {
    && EntriesUnderway(s) && Unentered(s)
    && (forall i {:trigger s.queue[i]} :: 0 <= i < w ==> Harmless(s, s.queue[i]))
    && (Doomed(s, w) ||
        (Awaited(s) && forall k {:trigger Older(s, k)} :: Older(s, k) && !Tracked(s, k) ==> CompletionQueued(s.queue[..w], k)))
  }

  ghost predicate Settling(s: System, w: nat, most: int) {
    && Sane(s, most) && Slotted(s)
    && |UnderwaySet(s)| <= MaxParallelUpdates(most)
    && w <= |s.queue|
    && (s.engine.fatalError == None ==> Waiting(s, w))
  }

  lemma SettledIsInv(s: System, most: int)
    requires Settling(s, 0, most) && s.engine.fatalError == None
    ensures Inv(s, most)
  {
    forall k | Underway(s, k)
      ensures Tracked(s, k) || Newest(s, k)
    {
      assert Older(s, k) || Newest(s, k);
    }
  }

  lemma InvIsSettled(s: System, most: int)
    requires Inv(s, most)
    ensures Settling(s, 0, most)
  {
  }

  // ---- the controller's steps ----

  lemma {:induction false} OldAtMost(s: System, ks: set<nat>, names: set<Name>)
    requires forall k :: k in ks ==> Older(s, k) && NameOf(s, k) in names
    requires Slotted(s)
    ensures |ks| <= |names|
    decreases |ks|
  {
    if ks != {} {
      var k :| k in ks;
      OldAtMost(s, ks - {k}, names - {NameOf(s, k)});
    }
  }

  lemma AsideSettles(s: System, s': System, w: nat, most: int)
    requires Settling(s, w, most) && Sane(s', most) && SameBuilds(s, s')
    ensures Settling(s', w, most)
  {
    forall k
      ensures Older(s', k) <==> Older(s, k)
      ensures Older(s, k) ==> NameOf(s', k) == NameOf(s, k) && (Tracked(s', k) <==> Tracked(s, k))
    {
    }
    SubsetSize(UnderwaySet(s'), UnderwaySet(s));
    assert s'.queue[..w] == s.queue[..w];
    if s.engine.fatalError == None {
      forall i | 0 <= i < w
        ensures Harmless(s', s'.queue[i])
      {
        assert Harmless(s, s.queue[i]);
      }
    }
  }

  lemma NoStart(s: System, i: nat)
    requires Undelivered(s) == 0 && i < |s.queue|
    ensures !IsStart(s.queue[i])
  {
    if IsStart(s.queue[i]) {
      StartIsCounted(s.queue, i);
    }
  }

  lemma DecideSettles(s: System, n: Name, w: nat, most: int)
    requires Settling(s, w, most) && Enabled(s, Decide(n))
    ensures Settling(After(s, Decide(n)), w, most)
  {
    var s' := After(s, Decide(n));
    DecideKeepsSane(s, n, most);
    forall k
      ensures Older(s', k) <==> Older(s, k)
      ensures Older(s, k) ==> NameOf(s', k) == NameOf(s, k) && (Tracked(s', k) <==> Tracked(s, k))
    {
    }
    forall k | k in UnderwaySet(s)
      ensures Older(s, k)
    {
    }
    OldAtMost(s, UnderwaySet(s), s.engine.buildSet);
    if s.engine.fatalError == None {
      forall i | 0 <= i < w
        ensures Harmless(s', s'.queue[i])
      {
        NoStart(s, i);
        assert Harmless(s, s.queue[i]);
      }
    }
  }

  // ---- the reducer's step ----

  lemma ReduceKeepsSlot(s: System, most: int, k: nat)
    requires Sane(s, most) && Slotted(s) && s.queue != [] && s.engine.fatalError == None && Harmless(s, s.queue[0])
    requires Older(s, k) && Underway(After(s, Reduce), k)
    ensures NameOf(s, k) in After(s, Reduce).engine.buildSet
  {
    var s', a, n := After(s, Reduce), s.queue[0], NameOf(s, k);
    HeadTaken(s, s', most);
    if a.Completed? && a.source == BuildControl {
      CompletedIsNotNewest(s, most);
      assert Older(s, a.span) && a.span != k;
    } else if a.Completed? && a.name == n {
      assert Tracked(s, k);
      assert BuildControl in s'.engine.manifests[n];
      assert s'.engine.manifests[n] != map[];
    }
  }

  /** The reducer's step takes no slot away that is still needed. */
  lemma ReduceKeepsSlots(s: System, most: int)
    requires Sane(s, most) && Slotted(s) && s.queue != []
    requires s.engine.fatalError == None ==> Harmless(s, s.queue[0])
    ensures Slotted(After(s, Reduce))
  {
    var s', a := After(s, Reduce), s.queue[0];
    HeadTaken(s, s', most);
    assert ActionFits(s, a, most);
    if IsStart(a) {
      StartIsCounted(s.queue, 0);
    }
    forall k | Older(s', k)
      ensures Older(s, k) || (IsStart(a) && s.engine.fatalError == None && k == s.count && NameOf(s, k) == a.name)
      ensures NameOf(s', k) == NameOf(s, k) && NameOf(s', k) in s'.engine.buildSet
    {
      assert Underway(s, k);
      if s.engine.fatalError == None && Older(s, k) {
        ReduceKeepsSlot(s, most, k);
      }
    }
  }

  lemma ReduceKeepsTracked(s: System, most: int, k: nat)
    requires Sane(s, most) && Slotted(s) && s.queue != [] && s.engine.fatalError == None && Harmless(s, s.queue[0])
    requires Gentle(s, Reduce, most)
    requires Older(s, k) && Tracked(s, k) && Underway(After(s, Reduce), k)
    ensures Tracked(After(s, Reduce), k)
  {
    var s', a := After(s, Reduce), s.queue[0];
    HeadTaken(s, s', most);
    assert ActionFits(s, a, most);
    if IsStart(a) {
      StartIsCounted(s.queue, 0);
    }
    if a.Completed? && a.source == BuildControl {
      CompletedIsNotNewest(s, most);
      assert Older(s, a.span) && a.span != k;
    } else if a.Completed? {
      var n := NameOf(s, k);
      assert BuildControl in s'.engine.manifests[n];
      assert s'.engine.manifests[n] != map[];
    }
  }

  lemma ReduceKeepsAwaited(s: System, most: int)
    requires Sane(s, most) && s.queue != [] && s.engine.fatalError == None && Gentle(s, Reduce, most)
    ensures Unentered(s) ==> Unentered(After(s, Reduce))
    ensures Awaited(s) ==> Awaited(After(s, Reduce))
  {
    var s', a := After(s, Reduce), s.queue[0];
    StepKeepsCounts(s, Reduce);
    assert ActionFits(s, a, most);
    if !IsStart(a) {
      StartsOfRest(s);
    }
    assert NameOf(s', s.count) == NameOf(s, s.count);
  }

  lemma ReduceKeepsHarmless(s: System, most: int, b: Action)
    requires Sane(s, most) && Slotted(s) && s.queue != [] && s.engine.fatalError == None && Harmless(s, s.queue[0])
    requires Gentle(s, Reduce, most) && Harmless(s, b) && b in s.queue[1..]
    ensures Harmless(After(s, Reduce), b)
  {
    var s', a := After(s, Reduce), s.queue[0];
    HeadTaken(s, s', most);
    StepKeepsCounts(s, Reduce);
    assert ActionFits(s, a, most);
    ReduceKeepsAwaited(s, most);
    var i :| 0 <= i < |s.queue[1..]| && s.queue[1..][i] == b;
    if IsStart(b) {
      StartIsCounted(s.queue[1..], i);
    }
    forall k | Older(s', k)
      ensures Older(s, k) || (IsStart(a) && Tracked(s', k))
      ensures NameOf(s', k) == NameOf(s, k)
      ensures Older(s, k) && Tracked(s, k) ==> Tracked(s', k)
    {
      if Older(s, k) && Tracked(s, k) {
        ReduceKeepsTracked(s, most, k);
      }
    }
  }

  lemma ReduceSettles(s: System, w: nat, most: int)
    requires Settling(s, w, most) && w > 0 && s.engine.fatalError == None && Gentle(s, Reduce, most)
    ensures Settling(After(s, Reduce), w - 1, most)
  {
    var s', a := After(s, Reduce), s.queue[0];
    assert Harmless(s, a);
    ReduceKeepsSane(s, most);
    ReduceKeepsSlots(s, most);
    HeadTaken(s, s', most);
    if s'.engine.fatalError == None {
      ReduceKeepsEntries(s, most);
      ReduceKeepsAwaited(s, most);
      forall i | 0 <= i < w - 1
        ensures Harmless(s', s'.queue[i])
      {
        assert s'.queue[i] == s.queue[i + 1];
        ReduceKeepsHarmless(s, most, s.queue[i + 1]);
      }
      assert s.queue[..w][1..] == s'.queue[..w - 1] && s.queue[..w][0] == a;
      forall k | !Doomed(s, w) && Older(s', k) && !Tracked(s', k)
        ensures CompletionQueued(s'.queue[..w - 1], k)
      {
        StillQueued(s, w, most, k);
      }
    }
  }

  lemma StillQueued(s: System, w: nat, most: int, k: nat)
    requires Settling(s, w, most) && w > 0 && s.engine.fatalError == None && Gentle(s, Reduce, most) && !Doomed(s, w)
    requires Older(After(s, Reduce), k) && !Tracked(After(s, Reduce), k)
    ensures CompletionQueued(After(s, Reduce).queue[..w - 1], k)
  {
    var s' := After(s, Reduce);
    HeadTaken(s, s', most);
    assert ActionFits(s, s.queue[0], most);
    assert Harmless(s, s.queue[0]);
    if IsStart(s.queue[0]) {
      StartIsCounted(s.queue, 0);
    }
    assert Older(s, k);
    if Tracked(s, k) {
      ReduceKeepsTracked(s, most, k);
    }
    QueueShrinks(s.queue[..w], k);
    assert s.queue[..w][1..] == s'.queue[..w - 1];
  }

  lemma StepSettles(s: System, step: Step, w: nat, most: int) returns (w': nat)
    requires Settling(s, w, most) && Enabled(s, step) && Gentle(s, step, most)
    ensures Settling(After(s, step), w', most)
  {
    w' := w;
    if step.Decide? {
      DecideSettles(s, step.next, w, most);
    } else if !step.Reduce? {
      StepIsAside(s, step, most);
      AsideSettles(s, After(s, step), w, most);
    } else if s.engine.fatalError.Some? {
      w' := 0;
      ReduceKeepsSane(s, most);
      ReduceKeepsSlots(s, most);
      HeadTaken(s, After(s, step), most);
    } else if w == 0 {
      SettledIsInv(s, most);
      ReduceKeeps(s, most);
      InvIsSettled(After(s, step), most);
    } else {
      w' := w - 1;
      ReduceSettles(s, w, most);
    }
  }

  lemma {:induction false} RunSettles(s: System, steps: seq<Step>, w: nat, most: int)
    requires Settling(s, w, most) && ValidRun(s, steps) && GentleRun(s, steps, most)
    ensures |UnderwaySet(Final(s, steps))| <= MaxParallelUpdates(most)
    decreases |steps|
  {
    if steps != [] {
      var w' := StepSettles(s, steps[0], w, most);
      RunSettles(After(s, steps[0]), steps[1..], w', most);
    }
  }
}
