/** Whose build a cleanup cancels. The controller keeps one cancel function for
    each manifest, so a build that cleans up late may find that of a build that
    registered after it. Here the question is settled by the run's own history. */
module BuildCancels {
  import opened BuildGate
  import opened BuildSlots

  // ---- runs, taken apart ----

  lemma {:induction false} RunPrefix(s: System, steps: seq<Step>, m: nat)
    requires ValidRun(s, steps) && m <= |steps|
    ensures ValidRun(s, steps[..m]) && ValidRun(Final(s, steps[..m]), steps[m..])
    ensures Final(Final(s, steps[..m]), steps[m..]) == Final(s, steps)
    decreases m
  {
    if m == 0 {
      assert steps[0..] == steps;
    } else {
      RunPrefix(After(s, steps[0]), steps[1..], m - 1);
      assert steps[..m][1..] == steps[1..][..m - 1];
      assert steps[m..] == steps[1..][m - 1..];
    }
  }

  lemma {:induction false} GentlePrefix(s: System, steps: seq<Step>, m: nat, most: int)
    requires ValidRun(s, steps) && GentleRun(s, steps, most) && m <= |steps|
    ensures ValidRun(s, steps[..m]) && GentleRun(s, steps[..m], most)
    decreases m
  {
    if m > 0 {
      GentlePrefix(After(s, steps[0]), steps[1..], m - 1, most);
      assert steps[..m][1..] == steps[1..][..m - 1];
    }
  }

  lemma RunLast(s: System, steps: seq<Step>)
    requires ValidRun(s, steps) && steps != []
    ensures var init, last := steps[..|steps| - 1], steps[|steps| - 1];
            ValidRun(s, init) && Enabled(Final(s, init), last) && Final(s, steps) == After(Final(s, init), last)
  {
    var n := |steps| - 1;
    RunPrefix(s, steps, n);
    var rest := steps[n..];
    assert rest == [steps[n]] && rest[1..] == [];
  }

  // ---- what happens to a build ----

  function PhaseRank(p: Phase): nat {
    match p
    case Launched => 0
    case Registered => 1
    case Finished => 2
    case Cleaned => 3
  }

  /** Builds stay, keep their names, and only move on. */
  predicate MovedOn(s: System, t: System) {
    && |s.builds| <= |t.builds|
    && forall i :: 0 <= i < |s.builds| ==>
         t.builds[i].name == s.builds[i].name && PhaseRank(s.builds[i].phase) <= PhaseRank(t.builds[i].phase)
  }

  lemma {:induction false} RunMovesOn(s: System, steps: seq<Step>)
    requires ValidRun(s, steps)
    ensures MovedOn(s, Final(s, steps))
    decreases |steps|
  {
    if steps != [] {
      assert MovedOn(s, After(s, steps[0]));
      RunMovesOn(After(s, steps[0]), steps[1..]);
    }
  }

  predicate Known(t: System, step: Step) {
    (step.Register? || step.Cleanup?) ==> 1 <= step.k <= |t.builds|
  }

  /** A build that registered has left its first phase, and one that has left
      it registered. */
  lemma {:induction false} RegisteredExactlyWhen(max: int, steps: seq<Step>)
    requires ValidRun(Initial(max), steps)
    ensures var t := Final(Initial(max), steps);
            && (forall i :: 0 <= i < |steps| ==> Known(t, steps[i]))
            && forall k :: 1 <= k <= |t.builds| ==> (Register(k) in steps <==> !t.builds[k - 1].phase.Launched?)
    decreases |steps|
  {
    if steps != [] {
      var init, last := steps[..|steps| - 1], steps[|steps| - 1];
      RunLast(Initial(max), steps);
      RegisteredExactlyWhen(max, init);
      assert steps == init + [last];
      var t0, t := Final(Initial(max), init), Final(Initial(max), steps);
      forall k | 1 <= k <= |t.builds|
        ensures Register(k) in steps <==> !t.builds[k - 1].phase.Launched?
      {
        assert Register(k) in steps <==> Register(k) in init || last == Register(k);
        forall i | 0 <= i < |init|
          ensures init[i] == Register(k) ==> k <= |t0.builds|
        {
          assert Known(t0, init[i]);
        }
      }
    }
  }

  // ---- the registration that stands ----

  function NameAt(t: System, k: nat): Name
    requires 1 <= k <= |t.builds|
  {
    t.builds[k - 1].name
  }

  /** The step sets or forgets the cancel function of n. */
  predicate Concerns(t: System, step: Step, n: Name) {
    match step
    case Register(k) => 1 <= k <= |t.builds| && NameAt(t, k) == n
    case Cleanup(k) => 1 <= k <= |t.builds| && NameAt(t, k) == n
    case Sweep(m) => m == n
    case _ => false
  }

  /** Build j registered at step i, and nothing has concerned its manifest since. */
  ghost predicate StandsSince(t: System, steps: seq<Step>, i: nat, j: nat, n: Name) {
    && i < |steps| && steps[i] == Register(j) && 1 <= j <= |t.builds| && NameAt(t, j) == n
    && forall x :: i < x < |steps| ==> !Concerns(t, steps[x], n)
  }

  ghost predicate Stands(t: System, steps: seq<Step>, j: nat, n: Name) {
    exists i: nat :: StandsSince(t, steps, i, j, n)
  }

  lemma StandsOn(t0: System, t: System, init: seq<Step>, last: Step, j: nat, n: Name)
    requires MovedOn(t0, t) && forall i :: 0 <= i < |init| ==> Known(t0, init[i])
    requires !Concerns(t, last, n)
    ensures Stands(t, init + [last], j, n) <==> Stands(t0, init, j, n)
  {
    var steps := init + [last];
    forall x | 0 <= x < |init|
      ensures steps[x] == init[x] && (Concerns(t, init[x], n) <==> Concerns(t0, init[x], n))
    {
      assert Known(t0, init[x]);
    }
    if Stands(t, steps, j, n) {
      var i: nat :| StandsSince(t, steps, i, j, n);
      assert i < |init|;
      assert Known(t0, init[i]);
      assert StandsSince(t0, init, i, j, n) by {
        forall x | i < x < |init|
          ensures !Concerns(t0, init[x], n)
        {
          assert !Concerns(t, steps[x], n);
        }
      }
    }
    if Stands(t0, init, j, n) {
      var i: nat :| StandsSince(t0, init, i, j, n);
      assert StandsSince(t, steps, i, j, n);
    }
  }

  lemma StandsLast(t: System, init: seq<Step>, last: Step, j: nat, n: Name)
    requires Concerns(t, last, n)
    ensures Stands(t, init + [last], j, n) <==> last == Register(j)
  {
    var steps := init + [last];
    assert steps[|init|] == last;
    forall i: nat | i < |init|
      ensures !StandsSince(t, steps, i, j, n)
    {
    }
    if last == Register(j) {
      assert StandsSince(t, steps, |init|, j, n);
    }
  }

  /** The cancel function kept for a manifest is that of the registration that
      stands; there is none if none stands. */
  lemma {:induction false} KeptIsStanding(max: int, steps: seq<Step>, j: nat, n: Name)
    requires ValidRun(Initial(max), steps)
    ensures var t := Final(Initial(max), steps);
            n in t.contexts.stopFns && t.contexts.stopFns[n] == j <==> Stands(t, steps, j, n)
    decreases |steps|
  {
    if steps != [] {
      var init, last := steps[..|steps| - 1], steps[|steps| - 1];
      RunLast(Initial(max), steps);
      var t0, t := Final(Initial(max), init), Final(Initial(max), steps);
      KeptIsStanding(max, init, j, n);
      RegisteredExactlyWhen(max, init);
      assert steps == init + [last];
      assert MovedOn(t0, t);
      KeptAfter(t0, last, j, n);
      if Concerns(t, last, n) {
        StandsLast(t, init, last, j, n);
      } else {
        StandsOn(t0, t, init, last, j, n);
      }
    }
  }

  /** The step that sets the function of n keeps its own, one that forgets it
      keeps none, and others leave it. */
  lemma KeptAfter(s: System, step: Step, j: nat, n: Name)
    requires Enabled(s, step)
    ensures var t := After(s, step);
            n in t.contexts.stopFns && t.contexts.stopFns[n] == j <==>
            if Concerns(t, step, n) then step == Register(j) else n in s.contexts.stopFns && s.contexts.stopFns[n] == j
  {
  }

  // ---- cancelled contexts ----

  /** A kept function has not been called; only builds that registered have had
      their context cancelled. */
  ghost predicate KeptUncalled(s: System) {
    && (forall n {:trigger s.contexts.stopFns[n]} :: n in s.contexts.stopFns ==> s.contexts.stopFns[n] !in s.contexts.cancelled)
    && (forall j :: j in s.contexts.cancelled ==> 1 <= j <= |s.builds| && !s.builds[j - 1].phase.Launched?)
  }

  lemma {:induction false} RunKeepsUncalled(s: System, steps: seq<Step>)
    requires NothingLeaks(s) && KeptUncalled(s) && ValidRun(s, steps)
    ensures KeptUncalled(Final(s, steps))
    decreases |steps|
  {
    if steps != [] {
      StepLeaksNothing(s, steps[0]);
      StepKeepsUncalled(s, steps[0]);
      RunKeepsUncalled(After(s, steps[0]), steps[1..]);
    }
  }

  lemma StepKeepsUncalled(s: System, step: Step)
    requires NothingLeaks(s) && KeptUncalled(s) && Enabled(s, step)
    ensures KeptUncalled(After(s, step))
  {
    var t := After(s, step);
    forall n | n in t.contexts.stopFns
      ensures t.contexts.stopFns[n] !in t.contexts.cancelled
    {
      if n in s.contexts.stopFns {
        assert s.contexts.stopFns[n] !in s.contexts.cancelled;
      }
    }
  }

  predicate CancelledByCleanup(s: System, k: nat, j: nat)
    requires HasPhase(s, k, Finished)
  {
    j in After(s, Cleanup(k)).contexts.cancelled && j !in s.contexts.cancelled
  }

  /** j registered after k, for the same manifest, and its registration stands. */
  ghost predicate OvertookAt(t: System, steps: seq<Step>, k: nat, j: nat, h: nat, i: nat) {
    && h < i < |steps| && steps[h] == Register(k) && 1 <= k <= |t.builds|
    && StandsSince(t, steps, i, j, NameAt(t, k))
  }

  /** In every run, a build's cleanup cancels the context of another build if and
      only if that one registered after it for the same manifest, and nothing
      has set or forgotten the manifest's cancel function since. */
  lemma CleanupCancelsAnotherExactlyWhen(max: int, steps: seq<Step>, k: nat, j: nat)
    requires ValidRun(Initial(max), steps) && HasPhase(Final(Initial(max), steps), k, Finished) && j != k
    ensures var t := Final(Initial(max), steps);
            CancelledByCleanup(t, k, j) <==> exists h: nat, i: nat :: OvertookAt(t, steps, k, j, h, i)
  {
    var t := Final(Initial(max), steps);
    var n := NameAt(t, k);
    RunLeaksNothing(Initial(max), steps);
    RunKeepsUncalled(Initial(max), steps);
    KeptIsStanding(max, steps, j, n);
    RegisteredExactlyWhen(max, steps);
    assert CancelledByCleanup(t, k, j) <==> n in t.contexts.stopFns && t.contexts.stopFns[n] == j;
    if CancelledByCleanup(t, k, j) {
      var i: nat :| StandsSince(t, steps, i, j, n);
      var h: nat :| 0 <= h < |steps| && steps[h] == Register(k);
      assert Concerns(t, steps[h], n);
      assert OvertookAt(t, steps, k, j, h, i);
    }
  }

  // ---- a victim that still runs ----

  /** Since step i nobody swept or cleaned up for n. */
  ghost predicate LeftAlone(t: System, steps: seq<Step>, i: nat, n: Name) {
    forall x :: i < x < |steps| && Concerns(t, steps[x], n) ==> steps[x].Register?
  }

  /** While a build runs, no other of its manifest registers. */
  lemma NoLaterRegistration(max: int, steps: seq<Step>, most: int, i: nat, j: nat, x: nat)
    requires max <= most && ValidRun(Initial(max), steps) && GentleRun(Initial(max), steps, most)
    requires i < x < |steps| && steps[i] == Register(j) && steps[x].Register?
    requires HasPhase(Final(Initial(max), steps), j, Registered)
    ensures !Concerns(Final(Initial(max), steps), steps[x], NameAt(Final(Initial(max), steps), j))
  {
    var t := Final(Initial(max), steps);
    RunPrefix(Initial(max), steps, x);
    var u := Final(Initial(max), steps[..x]);
    GentlePrefix(Initial(max), steps, x, most);
    BuildsStayWithinLimit(max, steps[..x], most);
    RegisteredExactlyWhen(max, steps[..x]);
    assert steps[..x][i] == Register(j) && Known(u, steps[..x][i]);
    RunMovesOn(u, steps[x..]);
    assert steps[x..][0] == steps[x];
    RunKeepsCounts(Initial(max), steps[..x]);
    assert Underway(u, j) && Underway(u, steps[x].k);
    assert NameOf(u, j) != NameOf(u, steps[x].k);
  }

  /** With reloads that spare the builds under way, the manifest's one running
      build is cancelled by an earlier build's cleanup if and only if nobody has
      swept or cleaned up for the manifest since it registered. */
  lemma RunningVictimExactlyWhen(max: int, steps: seq<Step>, most: int, k: nat, j: nat)
    requires max <= most && ValidRun(Initial(max), steps) && GentleRun(Initial(max), steps, most)
    requires var t := Final(Initial(max), steps);
             HasPhase(t, k, Finished) && HasPhase(t, j, Registered) && NameAt(t, j) == NameAt(t, k)
    ensures var t := Final(Initial(max), steps);
            && (CancelledByCleanup(t, k, j) <==> exists i: nat :: i < |steps| && steps[i] == Register(j) && LeftAlone(t, steps, i, NameAt(t, j)))
            && Underway(t, j) && forall x :: Underway(t, x) && x != j ==> NameOf(t, x) != NameAt(t, j)
  {
    var t := Final(Initial(max), steps);
    var n := NameAt(t, j);
    BuildsStayWithinLimit(max, steps, most);
    RunKeepsCounts(Initial(max), steps);
    CleanupCancelsAnotherExactlyWhen(max, steps, k, j);
    RegisteredExactlyWhen(max, steps);
    assert Underway(t, j) && NameOf(t, j) == n;
    forall x | Underway(t, x) && x != j
      ensures NameOf(t, x) != n
    {
      assert NameOf(t, j) != NameOf(t, x);
    }
    if CancelledByCleanup(t, k, j) {
      var h: nat, i: nat :| OvertookAt(t, steps, k, j, h, i);
      assert LeftAlone(t, steps, i, n);
    }
    if i: nat :| i < |steps| && steps[i] == Register(j) && LeftAlone(t, steps, i, n) {
      forall x | i < x < |steps|
        ensures !Concerns(t, steps[x], n)
      {
        if steps[x].Register? {
          NoLaterRegistration(max, steps, most, i, j, x);
        }
      }
      assert StandsSince(t, steps, i, j, n);
      var h: nat :| 0 <= h < |steps| && steps[h] == Register(k);
      assert Concerns(t, steps[h], n);
      assert OvertookAt(t, steps, k, j, h, i);
    }
  }
}
