/** What the trees of the owner fetcher hold on any owner graph, in every
    interleaving of its callers. */
module RunShapes {
  import opened Graphs
  import opened OwnerTrees
  import opened OwnerProtocol
  import opened OwnerLiveness
  import opened OwnerSharing

  /** The loop has the settled trees of the owners it has gone past, but for
      strict ancestors. */
  ghost predicate VisitShaped(cache: map<Uid, Promise>, v: Visit) {
    v.next <= |v.meta.owners| && AreSettled(cache, Uncut(v.meta.owners[..v.next], v.path), v.trees)
  }

  /** What the callers of the settling activation list as its ancestors. */
  ghost predicate ResultShaped(w: World, cache: map<Uid, Promise>, u: Uid, path: seq<Uid>, r: Result) {
    r.Ok? ==>
      match LookupOf(w, u)
      case Found(m) => TreeBelow(cache, u, m, path, r.tree)
      case NotFound => r.tree == Leaf(u)
      case Failed(_) => false
  }

  ghost predicate ThreadShaped(w: World, cache: map<Uid, Promise>, th: Thread) {
    match th
    case Finished(root, r) => r.Ok? ==> IsSettledTo(cache, root, r.tree)
    case Running(_, callers, top) =>
      && (forall v :: v in callers ==> VisitShaped(cache, v))
      && (top.Looping? ==> VisitShaped(cache, top.visit))
      && (top.Settling? ==> ResultShaped(w, cache, top.uid, Uids(callers), top.result))
  }

  ghost predicate ShapedState(w: World, s: State) {
    && AllShaped(w, s.cache)
    && forall t :: 0 <= t < |s.threads| ==> ThreadShaped(w, s.cache, s.threads[t])
  }

  /** Settled promises stay. */
  ghost predicate Onward(cache: map<Uid, Promise>, cache': map<Uid, Promise>) {
    forall v :: v in cache && cache[v].Settled? ==> v in cache' && cache'[v] == cache[v]
  }

  lemma VisitOnward(cache: map<Uid, Promise>, cache': map<Uid, Promise>, v: Visit)
    requires VisitShaped(cache, v) && Onward(cache, cache')
    ensures VisitShaped(cache', v)
  {
    SettledOnward(cache, cache', Uncut(v.meta.owners[..v.next], v.path), v.trees);
  }

  lemma ResultOnward(w: World, cache: map<Uid, Promise>, cache': map<Uid, Promise>, u: Uid, path: seq<Uid>, r: Result)
    requires ResultShaped(w, cache, u, path, r) && Onward(cache, cache')
    ensures ResultShaped(w, cache', u, path, r)
  {
    if r.Ok? && LookupOf(w, u).Found? {
      SettledOnward(cache, cache', Uncut(LookupOf(w, u).meta.owners, path), r.tree.owners);
    }
  }

  lemma ThreadOnward(w: World, cache: map<Uid, Promise>, cache': map<Uid, Promise>, th: Thread)
    requires ThreadShaped(w, cache, th) && Onward(cache, cache')
    ensures ThreadShaped(w, cache', th)
  {
    if th.Running? {
      forall v | v in th.callers
        ensures VisitShaped(cache', v)
      {
        VisitOnward(cache, cache', v);
      }
      if th.top.Looping? {
        VisitOnward(cache, cache', th.top.visit);
      }
      if th.top.Settling? {
        ResultOnward(w, cache, cache', th.top.uid, Uids(th.callers), th.top.result);
      }
    }
  }

  // ---- the steps of one goroutine ----

  /** An answer for u is taken in by the loop that asked for it. */
  lemma DeliverShaped(w: World, cache: map<Uid, Promise>, root: Uid, callers: seq<Visit>, u: Uid, r: Result)
    requires forall v :: v in callers ==> VisitShaped(cache, v)
    requires CallersOk(callers, u) && (r.Ok? ==> IsSettledTo(cache, u, r.tree) && r.tree.uid == u)
    requires root == if callers == [] then u else callers[0].uid
    requires callers != [] ==> u !in callers[|callers| - 1].path
    ensures ThreadShaped(w, cache, Deliver(root, callers, r))
  {
    if callers != [] {
      var n := |callers| - 1;
      var v := callers[n];
      assert v in callers && CallerOk(callers, u, n);
      if r.Ok? {
        UncutNext(v.meta.owners, v.path, v.next);
        SettledNext(cache, Uncut(v.meta.owners[..v.next], v.path), v.trees, u, r.tree);
      }
    }
  }

  lemma LoopShaped(w: World, cache: map<Uid, Promise>, root: Uid, callers: seq<Visit>, v: Visit)
    requires forall c :: c in callers ==> VisitShaped(cache, c)
    requires VisitShaped(cache, v) && VisitReads(w, v) && v.path == Uids(callers)
    ensures ThreadShaped(w, cache, Loop(root, callers, v))
  {
    if v.next == |v.meta.owners| {
      assert v.meta.owners[..v.next] == v.meta.owners;
    } else {
      UncutNext(v.meta.owners, v.path, v.next);
    }
  }

  lemma BeginShaped(cache: map<Uid, Promise>, u: Uid, path: seq<Uid>, m: Meta)
    ensures VisitShaped(cache, Visit(u, path, m, 0, []))
  {
    assert m.owners[..0] == [];
  }

  /** Whoever is answered was not asked for by one of its ancestors. */
  lemma AnsweredIsNoAncestor(cache: map<Uid, Promise>, th: Thread)
    requires th.Running? && Chained(th) && OwnsPending(cache, th) && EntersNoAncestor(th) && th.callers != []
    requires th.top.Waiting? || th.top.Settling?
    ensures th.top.uid !in th.callers[|th.callers| - 1].path
  {
    var n := |th.callers| - 1;
    assert CallerOk(th.callers, TopUid(th.top), n);
    if th.top.Settling? {
      forall k | 0 <= k < n
        ensures th.callers[n].path[k] != th.top.uid
      {
        assert Owned(th)[k] == th.callers[k].uid && Owned(th)[|th.callers|] == th.top.uid;
      }
    }
  }

  lemma ResultHasUid(w: World, cache: map<Uid, Promise>, u: Uid, path: seq<Uid>, r: Result)
    requires ResultShaped(w, cache, u, path, r) && r.Ok?
    ensures r.tree.uid == u
  {
  }

  lemma EntryHasUid(w: World, cache: map<Uid, Promise>, u: Uid)
    requires AllShaped(w, cache) && u in cache && cache[u].Settled? && cache[u].result.Ok?
    ensures IsSettledTo(cache, u, cache[u].result.tree) && cache[u].result.tree.uid == u
  {
    assert IsSettledTo(cache, u, cache[u].result.tree);
  }

  lemma PendingOnward(w: World, cache: map<Uid, Promise>, u: Uid)
    requires AllShaped(w, cache) && u !in cache
    ensures AllShaped(w, cache[u := Pending]) && Onward(cache, cache[u := Pending])
  {
    var cache' := cache[u := Pending];
    forall v, t | IsSettledTo(cache', v, t)
      ensures Shaped(w, cache', v, t)
    {
      assert IsSettledTo(cache, v, t);
      ShapedOnward(w, cache, cache', v, t);
    }
  }

  /** A goroutine about to settle u has a walk from each ancestor to it. */
  lemma SettlingLeads(w: World, th: Thread)
    requires th.Running? && Chained(th) && Reads(w, th) && th.top.Settling?
    ensures PathLeads(w, Uids(th.callers), th.top.uid)
  {
    forall p | p in Uids(th.callers)
      ensures Reaches(OwnerGraph(w), p, th.top.uid)
    {
      var k :| 0 <= k < |th.callers| && Uids(th.callers)[k] == p;
      StackLeads(w, th, k);
      LeadsReaches(w, p, th.top.uid);
    }
  }

  lemma ResultIsShaped(w: World, cache: map<Uid, Promise>, u: Uid, path: seq<Uid>, r: Result)
    requires ResultShaped(w, cache, u, path, r) && PathLeads(w, path, u) && r.Ok?
    ensures Shaped(w, cache, u, r.tree)
  {
  }

  lemma SettlingShaped(w: World, cache: map<Uid, Promise>, th: Thread)
    requires th.Running? && th.top.Settling? && Reads(w, th) && Chained(th) && OwnsPending(cache, th) && EntersNoAncestor(th)
    requires AllShaped(w, cache) && ThreadShaped(w, cache, th)
    ensures var (cache', th') := StepThread(w, cache, th);
            AllShaped(w, cache') && Onward(cache, cache') && ThreadShaped(w, cache', th')
  {
    var u, r := th.top.uid, th.top.result;
    var cache' := cache[u := Settled(r)];
    assert Owned(th)[|th.callers|] == u && u in Owned(th);
    if r.Ok? {
      SettlingLeads(w, th);
      ResultIsShaped(w, cache, u, Uids(th.callers), r);
      ResultHasUid(w, cache, u, Uids(th.callers), r);
    }
    AllShapedSettle(w, cache, u, r);
    forall v | v in th.callers
      ensures VisitShaped(cache', v)
    {
      VisitOnward(cache, cache', v);
    }
    if th.callers != [] {
      AnsweredIsNoAncestor(cache, th);
    }
    DeliverShaped(w, cache', th.root, th.callers, u, r);
  }

  lemma WaitingShaped(w: World, cache: map<Uid, Promise>, th: Thread)
    requires th.Running? && th.top.Waiting? && Chained(th) && OwnsPending(cache, th) && EntersNoAncestor(th)
    requires th.top.uid in cache && cache[th.top.uid].Settled?
    requires AllShaped(w, cache) && ThreadShaped(w, cache, th)
    ensures ThreadShaped(w, cache, Deliver(th.root, th.callers, cache[th.top.uid].result))
  {
    var u := th.top.uid;
    if cache[u].result.Ok? {
      EntryHasUid(w, cache, u);
    }
    if th.callers != [] {
      AnsweredIsNoAncestor(cache, th);
    }
    DeliverShaped(w, cache, th.root, th.callers, u, cache[u].result);
  }

  lemma EnteringShaped(w: World, cache: map<Uid, Promise>, th: Thread)
    requires th.Running? && th.top.Entering? && AllShaped(w, cache) && ThreadShaped(w, cache, th)
    ensures var (cache', th') := StepThread(w, cache, th);
            AllShaped(w, cache') && Onward(cache, cache') && ThreadShaped(w, cache', th')
  {
    var u := th.top.uid;
    if u == "" {
      ErrorShaped(w, cache, th.root, th.callers, NotDeployed);
    } else if u !in cache {
      PendingOnward(w, cache, u);
      ThreadOnward(w, cache, cache[u := Pending], th);
      if th.top.known.Given? {
        BeginShaped(cache[u := Pending], u, th.top.path, th.top.known.meta);
      }
    }
  }

  lemma ErrorShaped(w: World, cache: map<Uid, Promise>, root: Uid, callers: seq<Visit>, e: FetchError)
    requires forall v :: v in callers ==> VisitShaped(cache, v)
    ensures ThreadShaped(w, cache, Deliver(root, callers, Err(e)))
  {
  }

  lemma FetchingShaped(w: World, cache: map<Uid, Promise>, th: Thread)
    requires th.Running? && th.top.Fetching? && ThreadShaped(w, cache, th)
    ensures ThreadShaped(w, cache, StepThread(w, cache, th).1)
  {
    if LookupOf(w, th.top.uid).Found? {
      BeginShaped(cache, th.top.uid, th.top.path, LookupOf(w, th.top.uid).meta);
    }
  }

  lemma StepThreadShaped(w: World, cache: map<Uid, Promise>, th: Thread)
    requires th.Running? && Reads(w, th) && Chained(th) && OwnsPending(cache, th) && EntersNoAncestor(th)
    requires th.top.Waiting? ==> th.top.uid in cache && cache[th.top.uid].Settled?
    requires AllShaped(w, cache) && ThreadShaped(w, cache, th)
    ensures var (cache', th') := StepThread(w, cache, th);
            AllShaped(w, cache') && Onward(cache, cache') && ThreadShaped(w, cache', th')
  {
    match th.top
    case Entering(_, _, _) => EnteringShaped(w, cache, th);
    case Waiting(_) => WaitingShaped(w, cache, th);
    case Fetching(_, _) => FetchingShaped(w, cache, th);
    case Looping(v) => LoopShaped(w, cache, th.root, th.callers, v);
    case Settling(_, _) => SettlingShaped(w, cache, th);
  }

  // ---- runs ----

  lemma StepKeepsShape(w: World, s: State, t: nat)
    requires Faithful(w, s) && Guarded(s) && ShapedState(w, s) && Enabled(s, t)
    ensures ShapedState(w, Step(w, s, t))
  {
    var s' := Step(w, s, t);
    StepThreadShaped(w, s.cache, s.threads[t]);
    forall i | 0 <= i < |s'.threads|
      ensures ThreadShaped(w, s'.cache, s'.threads[i])
    {
      if i != t {
        ThreadOnward(w, s.cache, s'.cache, s.threads[i]);
      }
    }
  }

  lemma {:induction false} RunKeepsShape(w: World, s: State, sched: seq<nat>)
    requires Faithful(w, s) && Guarded(s) && ShapedState(w, s) && ValidRun(w, s, sched)
    ensures ShapedState(w, After(w, s, sched))
    decreases |sched|
  {
    if sched != [] {
      StepKeepsShape(w, s, sched[0]);
      StepKeepsFaithful(w, s, sched[0]);
      StepKeepsGuarded(w, s, sched[0]);
      RunKeepsShape(w, Step(w, s, sched[0]), sched[1..]);
    }
  }

  /** Whoever settles its object has the shape for the ancestors on its stack, and
      whoever is done has an answer for u that is settled and of that shape. */
  ghost predicate AnswerShaped(w: World, cache: map<Uid, Promise>, th: Thread, u: Uid) {
    && (th.Running? && th.top.Settling? ==> ResultShaped(w, cache, th.top.uid, Uids(th.callers), th.top.result))
    && (th.Finished? && th.result.Ok? ==> IsSettledTo(cache, u, th.result.tree) && Shaped(w, cache, u, th.result.tree))
  }

  lemma OneAnswer(w: World, cache: map<Uid, Promise>, th: Thread, u: Uid)
    requires AllShaped(w, cache) && ThreadShaped(w, cache, th) && th.root == u
    ensures AnswerShaped(w, cache, th, u)
  {
  }

  /** Each goroutine works for the caller it was spawned for. */
  ghost predicate RootedAt(s: State, calls: seq<Call>) {
    |s.threads| == |calls| && forall t :: 0 <= t < |calls| ==> s.threads[t].root == calls[t].uid
  }

  lemma RunIsShaped(w: World, calls: seq<Call>, sched: seq<nat>)
    requires Agrees(w, calls) && ValidRun(w, Start(calls), sched)
    ensures ShapedState(w, After(w, Start(calls), sched))
  {
    StartIsFaithful(w, calls);
    StartIsShaped(w, calls);
    RunKeepsShape(w, Start(calls), sched);
  }

  lemma StartIsShaped(w: World, calls: seq<Call>)
    ensures ShapedState(w, Start(calls))
  {
  }

  /** Any owner graph, any metadata, any interleaving: whoever settles u does so
      with its creation time and, in order, the settled tree of each of its owners
      but for the ancestors on its stack; so every settled tree has this shape
      for some path that leads to it, and every answer is settled in the memo. */
  lemma AnswersAreShaped(w: World, calls: seq<Call>, sched: seq<nat>)
    requires Agrees(w, calls) && ValidRun(w, Start(calls), sched)
    ensures var s := After(w, Start(calls), sched);
            && AllShaped(w, s.cache) && |s.threads| == |calls|
            && forall t :: 0 <= t < |calls| ==> AnswerShaped(w, s.cache, s.threads[t], calls[t].uid)
  {
    RunIsShaped(w, calls, sched);
    RunRoots(w, calls, sched);
    AllAnswers(w, After(w, Start(calls), sched), calls);
  }

  lemma RunRoots(w: World, calls: seq<Call>, sched: seq<nat>)
    requires ValidRun(w, Start(calls), sched)
    ensures RootedAt(After(w, Start(calls), sched), calls)
  {
    StartIsSound(calls);
    assert RootedAt(Start(calls), calls);
    RunKeepsRoots(w, Start(calls), sched);
  }

  lemma AllAnswers(w: World, s: State, calls: seq<Call>)
    requires ShapedState(w, s) && RootedAt(s, calls)
    ensures forall t :: 0 <= t < |calls| ==> AnswerShaped(w, s.cache, s.threads[t], calls[t].uid)
  {
    forall t | 0 <= t < |calls|
      ensures AnswerShaped(w, s.cache, s.threads[t], calls[t].uid)
    {
      OneAnswer(w, s.cache, s.threads[t], calls[t].uid);
    }
  }
}
