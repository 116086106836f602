/** What the reducer makes of the actions it takes, said about the fields of the
    engine state and about whole runs: when Tilt ends with a fatal error, and
    what a start, a completion and a reload leave alone. */
module BuildReductions {
  import opened Shared
  import opened BuildGate
  import opened BuildCancels

  // ---- fatal errors ----

  /** An action taken off the queue, and the manifests known at that moment. */
  datatype Taken = Taken(action: Action, known: set<Name>)

  /** The message with which Tilt ends on taking the action, if it does. */
  function Verdict(t: Taken): Option<string> {
    match t.action
    case Completed(n, _, _, BuildFatal(message)) => if n in t.known then Some(message) else None
    case Failed(message) => Some(message)
    case Unrecognized => Some("unrecognized action")
    case Exit(cause) => cause
    case _ => None
  }

  /** An exit with a cause replaces even a fatal error that is there. */
  predicate Overrules(t: Taken) {
    t.action.Exit? && Verdict(t).Some?
  }

  function Next(s: System): Taken
    requires s.queue != []
  {
    Taken(s.queue[0], s.engine.manifests.Keys)
  }

  /** Which completions are fatal: those of known manifests whose error is. */
  lemma CompletionIsFatalExactlyWhen(s: System, message: string)
    requires s.queue != [] && s.queue[0].Completed? && s.engine.fatalError == None
    ensures After(s, Reduce).engine.fatalError == Some(message) <==>
              s.queue[0].name in s.engine.manifests && s.queue[0].error == BuildFatal(message)
  {
  }

  lemma ReduceDecides(s: System)
    requires s.queue != []
    ensures After(s, Reduce).engine.fatalError ==
              if Overrules(Next(s)) || s.engine.fatalError == None then Verdict(Next(s)) else s.engine.fatalError
  {
    match s.queue[0] {
      case Completed(n, _, _, error) =>
        if s.engine.fatalError == None {
          match error {
            case BuildFatal(message) => CompletionIsFatalExactlyWhen(s, message);
            case _ =>
          }
        }
      case _ =>
    }
  }

  /** The actions a run takes off the queue, in order. */
  function Takings(s: System, steps: seq<Step>): seq<Taken>
    requires ValidRun(s, steps)
    decreases |steps|
  {
    if steps == [] then []
    else (if steps[0].Reduce? then [Next(s)] else []) + Takings(After(s, steps[0]), steps[1..])
  }

  lemma {:induction false} TakingsSnoc(s: System, steps: seq<Step>)
    requires ValidRun(s, steps) && steps != []
    ensures var init, last := steps[..|steps| - 1], steps[|steps| - 1];
            && ValidRun(s, init) && Enabled(Final(s, init), last)
            && Takings(s, steps) == Takings(s, init) + if last.Reduce? then [Next(Final(s, init))] else []
    decreases |steps|
  {
    RunLast(s, steps);
    var init, last := steps[..|steps| - 1], steps[|steps| - 1];
    if |steps| == 1 {
      assert init == [] && steps[1..] == [];
    } else {
      TakingsSnoc(After(s, steps[0]), steps[1..]);
      assert steps[1..][..|steps[1..]| - 1] == init[1..];
      Associative(if steps[0].Reduce? then [Next(s)] else [], Takings(After(s, steps[0]), init[1..]),
                  if last.Reduce? then [Next(Final(s, init))] else []);
    }
  }

  predicate SomeFatal(ts: seq<Taken>) {
    exists i :: 0 <= i < |ts| && Verdict(ts[i]).Some?
  }

  predicate UserLeaves(ts: seq<Taken>) {
    exists i :: 0 <= i < |ts| && ts[i].action == Exit(None)
  }

  lemma OneMoreTaken(ts: seq<Taken>, t: Taken)
    ensures SomeFatal(ts + [t]) <==> SomeFatal(ts) || Verdict(t).Some?
    ensures UserLeaves(ts + [t]) <==> UserLeaves(ts) || t.action == Exit(None)
  {
    var all := ts + [t];
    assert all[|ts|] == t && forall i :: 0 <= i < |ts| ==> all[i] == ts[i];
  }

  /** The last exit with a cause has the last word; without any, the first fatal action. */
  predicate HasTheWord(ts: seq<Taken>, i: nat) {
    && i < |ts| && Verdict(ts[i]).Some?
    && (Overrules(ts[i]) || forall j :: 0 <= j < i ==> Verdict(ts[j]).None?)
    && forall j :: i < j < |ts| ==> !Overrules(ts[j])
  }

  /** In every run there is a fatal error if and only if some action taken was a
      fatal completion of a manifest known then, a failure, an unrecognized
      action or an exit with a cause; and the user has exited if and only if one
      was an exit without. */
  lemma {:induction false} FatalExactlyWhen(max: int, steps: seq<Step>)
    requires ValidRun(Initial(max), steps)
    ensures Final(Initial(max), steps).engine.fatalError.Some? <==> SomeFatal(Takings(Initial(max), steps))
    ensures Final(Initial(max), steps).engine.userExited <==> UserLeaves(Takings(Initial(max), steps))
    decreases |steps|
  {
    if steps != [] {
      var init, last := steps[..|steps| - 1], steps[|steps| - 1];
      TakingsSnoc(Initial(max), steps);
      RunLast(Initial(max), steps);
      FatalExactlyWhen(max, init);
      if last.Reduce? {
        ReduceDecides(Final(Initial(max), init));
        OneMoreTaken(Takings(Initial(max), init), Next(Final(Initial(max), init)));
      } else {
        assert Takings(Initial(max), steps) == Takings(Initial(max), init);
      }
    }
  }

  /** And the error is that of the action which has the word. */
  lemma {:induction false} FatalErrorIsTheWord(max: int, steps: seq<Step>, i: nat)
    requires ValidRun(Initial(max), steps) && HasTheWord(Takings(Initial(max), steps), i)
    ensures Final(Initial(max), steps).engine.fatalError == Verdict(Takings(Initial(max), steps)[i])
    decreases |steps|
  {
    if steps != [] {
      var init, last := steps[..|steps| - 1], steps[|steps| - 1];
      TakingsSnoc(Initial(max), steps);
      RunLast(Initial(max), steps);
      var before, all := Takings(Initial(max), init), Takings(Initial(max), steps);
      if last.Reduce? {
        ReduceDecides(Final(Initial(max), init));
        FatalExactlyWhen(max, init);
        if i < |before| {
          assert before == all[..|before|];
          FatalErrorIsTheWord(max, init, i);
          assert !Overrules(all[|before|]);
        } else if !Overrules(all[i]) {
          assert forall j :: 0 <= j < |before| ==> before[j] == all[j];
        }
      } else {
        assert all == before;
        FatalErrorIsTheWord(max, init, i);
      }
    }
  }

  /** As soon as one action is fatal, some action has the word. */
  lemma {:induction false} SomeoneHasTheWord(ts: seq<Taken>) returns (i: nat)
    requires SomeFatal(ts)
    ensures HasTheWord(ts, i)
    decreases |ts|
  {
    var init := ts[..|ts| - 1];
    if !Overrules(ts[|ts| - 1]) && SomeFatal(init) {
      i := SomeoneHasTheWord(init);
      assert forall j :: 0 <= j < |init| ==> init[j] == ts[j];
    } else {
      i := |ts| - 1;
      assert forall j :: 0 <= j < i ==> init[j] == ts[j];
    }
  }

  // ---- builds ----

  /** A build is decided on if and only if every start so far has been counted,
      a slot is free, and the manifest is known and not being built. */
  lemma DecidesExactlyWhen(s: System, n: Name)
    ensures Enabled(s, Decide(n)) <==>
              && s.decided == None && s.count <= s.engine.startCount
              && |s.engine.buildSet| < (if s.engine.maxParallel < 1 then 1 else s.engine.maxParallel)
              && n in s.engine.manifests && s.engine.manifests[n] == map[]
  {
  }

  /** Some build of n is recorded, by another source than the given one. */
  predicate BuiltOtherwise(e: Engine, n: Name, source: Source) {
    n in e.manifests && exists other :: other in e.manifests[n] && other != source
  }

  ghost predicate SameCounters(e: Engine, f: Engine) {
    f.userExited == e.userExited && f.maxParallel == e.maxParallel
  }

  /** What is recorded of the builds of m is the same in both. */
  ghost predicate SameRecords(e: Engine, f: Engine, m: Name) {
    && (m in e.manifests <==> m in f.manifests)
    && (m in e.manifests ==> f.manifests[m] == e.manifests[m])
    && HistoryOf(f, m) == HistoryOf(e, m)
  }

  /** A start is counted if it is the controller's; a known manifest then has
      that build, with its span, beside those of other sources, and a slot. */
  lemma StartIsRecorded(s: System, n: Name, source: Source, span: nat)
    requires s.queue != [] && s.queue[0] == Started(n, source, span) && s.engine.fatalError == None
    ensures var e, f := s.engine, After(s, Reduce).engine;
            && f.startCount == e.startCount + (if source == BuildControl then 1 else 0)
            && f.completedCount == e.completedCount && SameCounters(e, f)
            && (forall m :: m != n || n !in e.manifests ==> SameRecords(e, f, m))
            && (n in e.manifests ==>
                  && n in f.manifests && source in f.manifests[n] && f.manifests[n][source] == span
                  && f.manifests[n] - {source} == e.manifests[n] - {source}
                  && HistoryOf(f, n) == HistoryOf(e, n))
            && (forall m :: m in f.buildSet <==> m in e.buildSet || (m == n && n in e.manifests))
  {
  }

  /** A completion is counted; of a known manifest the build by that source is no
      longer recorded, but first in the history, which keeps two; the slot is free
      unless another source is building; no other manifest is touched. */
  lemma CompletionIsRecorded(s: System, n: Name, source: Source, span: nat, error: BuildError)
    requires s.queue != [] && s.queue[0] == Completed(n, source, span, error) && s.engine.fatalError == None
    ensures var e, f := s.engine, After(s, Reduce).engine;
            && f.completedCount == e.completedCount + 1
            && f.startCount == e.startCount && SameCounters(e, f)
            && (forall m :: m != n || n !in e.manifests ==> SameRecords(e, f, m))
            && (n in e.manifests ==>
                  && n in f.manifests && source !in f.manifests[n]
                  && f.manifests[n] == e.manifests[n] - {source}
                  && 1 <= |HistoryOf(f, n)| == (if HistoryOf(e, n) == [] then 1 else 2)
                  && HistoryOf(f, n)[0] == Record(source, if source in e.manifests[n] then e.manifests[n][source] else 0)
                  && (HistoryOf(e, n) != [] ==> HistoryOf(f, n)[1] == HistoryOf(e, n)[0]))
            && (forall m :: m in f.buildSet <==> m in e.buildSet && (m != n || BuiltOtherwise(e, n, source)))
  {
    var e, f := s.engine, After(s, Reduce).engine;
    if n in e.manifests {
      forall other | other in e.manifests[n] && other != source
        ensures other in f.manifests[n]
      {
      }
      if IsBuilding(f.manifests, n) {
        var other :| other in f.manifests[n];
        assert other in e.manifests[n] && other != source;
      }
    }
  }

  /** A reload takes what it drops and makes what it creates afresh; it touches no
      other manifest, no slot and no count. */
  lemma ReloadIsRecorded(s: System, dropped: set<Name>, created: set<Name>, max: int)
    requires s.queue != [] && s.queue[0] == Reloaded(dropped, created, max) && s.engine.fatalError == None
    ensures var e, f := s.engine, After(s, Reduce).engine;
            && f.maxParallel == max && f.buildSet == e.buildSet && f.userExited == e.userExited
            && f.startCount == e.startCount && f.completedCount == e.completedCount
            && (forall m :: m !in dropped && m !in created ==> SameRecords(e, f, m))
            && (forall m :: m in dropped && m !in created ==> m !in f.manifests && HistoryOf(f, m) == [])
            && (forall m :: m in created ==> m in f.manifests && f.manifests[m] == map[] && HistoryOf(f, m) == [])
  {
  }

  /** A build that the controller cancelled reports that, whatever came of it, so
      its completion is never fatal; any other reports its own error. */
  lemma CanceledBuildIsNotFatal(s: System, k: nat, error: BuildError, known: set<Name>)
    requires HasPhase(s, k, Registered)
    ensures var t := After(s, Complete(k, error));
            && t.queue[..|s.queue|] == s.queue && |t.queue| == |s.queue| + 1
            && t.queue[|s.queue|].Completed? && t.queue[|s.queue|].name == s.builds[k - 1].name
            && t.queue[|s.queue|].source == BuildControl && t.queue[|s.queue|].span == s.builds[k - 1].span
            && (k in s.contexts.cancelled ==>
                  t.queue[|s.queue|].error == BuildFailed("build canceled") && Verdict(Taken(t.queue[|s.queue|], known)) == None)
            && (k !in s.contexts.cancelled ==>
                  t.queue[|s.queue|].error == error
                  && (Verdict(Taken(t.queue[|s.queue|], known)).Some? <==> s.builds[k - 1].name in known && error.BuildFatal?))
            && t.engine == s.engine && t.contexts == s.contexts
  {
  }
}
