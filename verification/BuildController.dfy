/** The objects behind the steps of BuildGate: the engine state the reducer
    changes in place, and the controller that counts and cancels builds. */
module BuildControllers {
  import opened Shared
  import opened Decimals
  import opened BuildGate

  class EngineState {
    var BuildControllerStartCount: nat
    var CompletedBuildCount: nat
    var FatalError: Option<string>
    var UserExited: bool
    var ManifestTargets: map<Name, map<Source, nat>>
    var CurrentBuildSet: set<Name>
    var MaxParallel: int
    var BuildHistory: map<Name, seq<Record>>

    ghost function View(): Engine
      reads this
    {
      Engine(BuildControllerStartCount, CompletedBuildCount, FatalError, UserExited,
             ManifestTargets, CurrentBuildSet, MaxParallel, BuildHistory)
    }

    method HandleBuildStarted(name: Name, source: Source, span: nat)
      modifies this
      ensures View() == BuildStarted(old(View()), name, source, span)
    {
      if source == BuildControl {
        BuildControllerStartCount := BuildControllerStartCount + 1;
      }
      if name !in ManifestTargets {
        return;
      }
      var currentBuilds: map<Source, nat> := ManifestTargets[name][source := span];
      ManifestTargets := ManifestTargets[name := currentBuilds];
      CurrentBuildSet := CurrentBuildSet + {name};
    }

    method HandleBuildCompleted(name: Name, source: Source, error: BuildError)
      modifies this
      ensures View() == BuildCompleted(old(View()), name, source, error)
    {
      CompletedBuildCount := CompletedBuildCount + 1;
      if name in ManifestTargets {
        CompleteCurrentBuild(name, source);
        if error.BuildFatal? {
          FatalError := Some(error.message);
        }
      }
      if !IsBuilding(ManifestTargets, name) {
        CurrentBuildSet := CurrentBuildSet - {name};
      }
    }

    method CompleteCurrentBuild(name: Name, source: Source)
      requires name in ManifestTargets
      modifies this`ManifestTargets, this`BuildHistory
      ensures ManifestTargets == old(ManifestTargets)[name := old(ManifestTargets)[name] - {source}]
      ensures BuildHistory == old(BuildHistory)[name :=
                AddCompletedBuild(HistoryOf(old(View()), name), Record(source, SpanOf(old(View()), name, source)))]
    {
      var currentBuilds := ManifestTargets[name];
      var span := if source in currentBuilds then currentBuilds[source] else 0;
      var history := if name in BuildHistory then BuildHistory[name] else [];
      BuildHistory := BuildHistory[name := AddCompletedBuild(history, Record(source, span))];
      ManifestTargets := ManifestTargets[name := currentBuilds - {source}];
    }

    method HandleConfigsReloaded(dropped: set<Name>, created: set<Name>, max: int)
      modifies this
      ensures View() == ConfigsReloaded(old(View()), dropped, created, max)
    {
      ManifestTargets := (ManifestTargets - dropped - created) + (map n | n in created :: map[]);
      BuildHistory := BuildHistory - dropped - created;
      MaxParallel := max;
    }

    method HandleHudExitAction(cause: Option<string>)
      modifies this
      ensures View() == Reduced(old(View()), Exit(cause))
    {
      if cause.Some? {
        FatalError := cause;
      } else {
        UserExited := true;
      }
    }

    /** Exiting is allowed even after a fatal error; nothing else is. */
    method Reduce(action: Action)
      modifies this
      ensures View() == Reduced(old(View()), action)
      ensures old(FatalError).Some? ==> FatalError.Some? && BuildControllerStartCount == old(BuildControllerStartCount)
    {
      if action.Exit? {
        HandleHudExitAction(action.cause);
        return;
      }
      if FatalError.Some? {
        return;
      }
      match action {
        case Started(name, source, span) => HandleBuildStarted(name, source, span);
        case Completed(name, source, span, error) => HandleBuildCompleted(name, source, error);
        case Reloaded(dropped, created, max) => HandleConfigsReloaded(dropped, created, max);
        case Failed(message) => FatalError := Some(message);
        case Unrecognized => FatalError := Some("unrecognized action");
        case Irrelevant =>
      }
    }
  }

  datatype BuildEntry = BuildEntry(name: Name, span: nat, spanId: string)

  /** All the names' functions are called and forgotten, and only those. */
  function Swept(c: Contexts, names: set<Name>): Contexts {
    Contexts(map n | n in c.stopFns && n !in names :: c.stopFns[n],
             c.cancelled + set n | n in c.stopFns && n in names :: c.stopFns[n])
  }

  lemma SweptOneMore(c: Contexts, names: set<Name>, n: Name)
    ensures CleaningUp(Swept(c, names), n) == Swept(c, names + {n})
  {
    var one, more := Swept(c, names), Swept(c, names + {n});
    assert (one.stopFns - {n}) == more.stopFns;
    if n in one.stopFns {
      assert more.cancelled == one.cancelled + {c.stopFns[n]};
    } else {
      assert one.stopFns == more.stopFns && one.cancelled == more.cancelled;
    }
  }

  /** A sweep over any list of names is a run of the step system. */
  lemma {:induction false} SweepsAreSteps(s: System, names: seq<Name>) returns (steps: seq<Step>)
    ensures ValidRun(s, steps) && forall i :: 0 <= i < |steps| ==> steps[i].Sweep?
    ensures Final(s, steps) == s.(contexts := Swept(s.contexts, set n | n in names))
    decreases |names|
  {
    if names == [] {
      steps := [];
      assert Swept(s.contexts, {}) == s.contexts;
    } else {
      var init, last := names[..|names| - 1], names[|names| - 1];
      steps := SweepsAreSteps(s, init);
      RunThen(s, steps, Sweep(last));
      steps := steps + [Sweep(last)];
      SweptOneMore(s.contexts, (set n | n in init), last);
      assert names == init + [last];
      assert (set n | n in names) == (set n | n in init) + {last};
    }
  }

  /** What the controller decides on, given what would be built next. */
  function DecisionOf(count: nat, e: Engine, next: Option<Name>): Option<BuildEntry> {
    if NeedsBuild(count, e) && next.Some? then Some(BuildEntry(next.value, count + 1, SpanId(count + 1))) else None
  }

  /** A decision is the Decide step, which is enabled exactly when there is one;
      announcing it launches that build and puts its start last in the queue. */
  lemma DecisionIsStep(s: System, next: Option<Name>)
    requires s.decided == None
    requires next.Some? ==> next.value in s.engine.manifests && !IsBuilding(s.engine.manifests, next.value)
    ensures var entry := DecisionOf(s.count, s.engine, next);
            && (entry.Some? <==> next.Some? && Enabled(s, Decide(next.value)))
            && (entry.Some? ==>
                  var e, t := entry.value, After(After(s, Decide(next.value)), Announce);
                  && t.count == e.span == s.count + 1 && e.spanId == "build:" + Decimal(s.count + 1)
                  && t.builds == s.builds + [Build(e.name, e.span, Launched)]
                  && t.queue == s.queue + [Started(e.name, BuildControl, e.span)]
                  && (SpansInOrder(s) ==> forall b :: b in s.builds ==> SpanId(b.span) != e.spanId))
  {
    var entry := DecisionOf(s.count, s.engine, next);
    if entry.Some? && SpansInOrder(s) {
      forall b | b in s.builds
        ensures SpanId(b.span) != entry.value.spanId
      {
        assert b.span <= s.count;
        if SpanId(b.span) == SpanId(s.count + 1) {
          assert SpanId(b.span)[6..] == Decimal(b.span) && SpanId(s.count + 1)[6..] == Decimal(s.count + 1);
          DecimalInjective(b.span, s.count + 1);
        }
      }
    }
  }

  /** A build's cleanup step is the controller's cleanup for its manifest: it
      forgets that manifest's function and no other, and cancels what it kept. */
  lemma CleanupIsStep(s: System, k: nat)
    requires HasPhase(s, k, Finished)
    ensures After(s, Cleanup(k)).contexts == Swept(s.contexts, {s.builds[k - 1].name})
    ensures After(s, Cleanup(k)).engine == s.engine && After(s, Cleanup(k)).queue == s.queue
  {
    assert Swept(s.contexts, {}) == s.contexts;
    SweptOneMore(s.contexts, {}, s.builds[k - 1].name);
  }

  class BuildController {
    var buildsStartedCount: nat
    var stopBuildFns: map<Name, nat>
    var cancelled: set<nat>

    ghost function Held(): Contexts
      reads this
    {
      Contexts(stopBuildFns, cancelled)
    }

    constructor ()
      ensures buildsStartedCount == 0 && Held() == Contexts(map[], {})
    {
      buildsStartedCount := 0;
      stopBuildFns := map[];
      cancelled := {};
    }

    /** next is the manifest that would be built next, if there is one. */
    method NeedsBuildNow(state: EngineState, next: Option<Name>) returns (entry: Option<BuildEntry>)
      requires next.Some? ==> next.value in state.ManifestTargets && !IsBuilding(state.ManifestTargets, next.value)
      modifies this`buildsStartedCount
      ensures entry == DecisionOf(old(buildsStartedCount), state.View(), next)
      ensures buildsStartedCount == old(buildsStartedCount) + if entry.Some? then 1 else 0
    {
      entry := None;
      // The previous start has not been recorded yet.
      if buildsStartedCount > state.BuildControllerStartCount {
        return;
      }
      var max := if state.MaxParallel < 1 then 1 else state.MaxParallel;
      var slots := if |state.CurrentBuildSet| >= max then 0 else max - |state.CurrentBuildSet|;
      if slots < 1 {
        return;
      }
      if next == None {
        return;
      }
      buildsStartedCount := buildsStartedCount + 1;
      entry := Some(BuildEntry(next.value, buildsStartedCount, SpanId(buildsStartedCount)));
    }

    method BuildContext(name: Name, span: nat)
      modifies this`stopBuildFns
      ensures Held() == Registering(old(Held()), name, span)
    {
      stopBuildFns := stopBuildFns[name := span];
    }

    method CleanupBuildContext(name: Name)
      modifies this`stopBuildFns, this`cancelled
      ensures Held() == CleaningUp(old(Held()), name)
    {
      if name in stopBuildFns {
        cancelled := cancelled + {stopBuildFns[name]};
        stopBuildFns := stopBuildFns - {name};
      }
    }

    /** names are those of the manifests, in order; a name in unwanted is
        disabled, or its stop button was clicked since the build began. Of what
        is registered, exactly the builds of building, unwanted manifests are
        cancelled and forgotten. */
    method CleanUpCanceledBuilds(state: EngineState, names: seq<Name>, unwanted: set<Name>)
      modifies this`stopBuildFns, this`cancelled
      ensures forall n :: n in stopBuildFns <==> n in old(stopBuildFns) && !Unwanted(n, names, unwanted, state.ManifestTargets)
      ensures forall n :: n in stopBuildFns ==> stopBuildFns[n] == old(stopBuildFns)[n]
      ensures forall k :: k in cancelled <==>
                k in old(cancelled) ||
                exists n :: n in old(stopBuildFns) && old(stopBuildFns)[n] == k && Unwanted(n, names, unwanted, state.ManifestTargets)
      ensures Held() == Swept(old(Held()), set n | n in names && Unwanted(n, names, unwanted, state.ManifestTargets))
    {
      ghost var manifests := state.ManifestTargets;
      assert Swept(Held(), {}) == Held();
      for i := 0 to |names|
        invariant Held() == Swept(old(Held()), set n | n in names[..i] && Unwanted(n, names, unwanted, manifests))
      {
        var n := names[i];
        assert names[..i + 1] == names[..i] + [n];
        ghost var before := set m | m in names[..i] && Unwanted(m, names, unwanted, manifests);
        ghost var after := set m | m in names[..i + 1] && Unwanted(m, names, unwanted, manifests);
        SweptOneMore(old(Held()), before, n);
        if IsBuilding(state.ManifestTargets, n) && n in unwanted {
          assert after == before + {n};
          CleanupBuildContext(n);
        } else {
          assert after == before;
        }
      }
      assert names[..|names|] == names;
    }
  }

  predicate Unwanted(n: Name, names: seq<Name>, unwanted: set<Name>, manifests: map<Name, map<Source, nat>>) {
    n in names && IsBuilding(manifests, n) && n in unwanted
  }
}
