/** Cycles that no caller can get to do no harm: what the fetcher does depends
    only on the part of the owner graph that its callers reach. */
module OwnerReach {
  import opened Graphs
  import opened OwnerTrees
  import opened OwnerProtocol
  import opened OwnerLiveness

  ghost predicate InReach(w: World, calls: seq<Call>, u: Uid) {
    exists i :: 0 <= i < |calls| && Reaches(OwnerGraph(w), calls[i].uid, u)
  }

  /** No cycle passes through anything the callers reach. */
  ghost predicate AcyclicFrom(w: World, calls: seq<Call>) {
    forall p: seq<Uid> :: Closed(OwnerGraph(w), p) ==> !InReach(w, calls, p[0])
  }

  /** The part of the world that the callers reach. */
  ghost function Reached(w: World, calls: seq<Call>): World {
    map u | u in w && InReach(w, calls, u) :: w[u]
  }

  lemma ReachOnward(w: World, calls: seq<Call>, u: Uid, o: Uid)
    requires InReach(w, calls, u) && o in Out(OwnerGraph(w), u)
    ensures InReach(w, calls, o)
  {
    var i :| 0 <= i < |calls| && Reaches(OwnerGraph(w), calls[i].uid, u);
    ReachesOnward(OwnerGraph(w), calls[i].uid, u, o);
  }

  lemma ReachedIsAcyclic(w: World, calls: seq<Call>)
    requires AcyclicFrom(w, calls)
    ensures Acyclic(OwnerGraph(Reached(w, calls)))
  {
    forall p: seq<Uid>
      ensures !Closed(OwnerGraph(Reached(w, calls)), p)
    {
      if Closed(OwnerGraph(Reached(w, calls)), p) {
        CycleIsReached(w, calls, p);
      }
    }
  }

  lemma CycleIsReached(w: World, calls: seq<Call>, p: seq<Uid>)
    requires Closed(OwnerGraph(Reached(w, calls)), p)
    ensures Closed(OwnerGraph(w), p) && InReach(w, calls, p[0])
  {
    var g, h := OwnerGraph(w), OwnerGraph(Reached(w, calls));
    assert p[0 + 1] in Out(h, p[0]);
    forall i | 0 <= i < |p| - 1
      ensures p[i + 1] in Out(g, p[i])
    {
      assert p[i + 1] in Out(h, p[i]);
    }
  }

  // ---- goroutines stay within reach ----

  ghost predicate OwnersInReach(w: World, calls: seq<Call>, m: Meta) {
    forall k :: 0 <= k < |m.owners| ==> InReach(w, calls, m.owners[k])
  }

  ghost predicate TopInReach(w: World, calls: seq<Call>, top: Top) {
    match top
    case Entering(u, _, known) => InReach(w, calls, u) && (u != "" && known.Given? ==> OwnersInReach(w, calls, known.meta))
    case Waiting(_) => true
    case Fetching(u, _) => u != "" && InReach(w, calls, u)
    case Looping(v) => OwnersInReach(w, calls, v.meta)
    case Settling(_, _) => true
  }

  ghost predicate WithinReach(w: World, calls: seq<Call>, th: Thread) {
    th.Running? ==>
      && (forall k :: 0 <= k < |th.callers| ==> OwnersInReach(w, calls, th.callers[k].meta))
      && TopInReach(w, calls, th.top)
  }

  lemma FoundOwnersInReach(w: World, calls: seq<Call>, u: Uid)
    requires InReach(w, calls, u) && u != "" && LookupOf(w, u).Found?
    ensures OwnersInReach(w, calls, LookupOf(w, u).meta)
  {
    var m := LookupOf(w, u).meta;
    forall k | 0 <= k < |m.owners|
      ensures InReach(w, calls, m.owners[k])
    {
      ReachOnward(w, calls, u, m.owners[k]);
    }
  }

  lemma StartWithinReach(w: World, calls: seq<Call>, i: nat)
    requires Agrees(w, calls) && i < |calls|
    ensures WithinReach(w, calls, Spawn(calls[i]))
  {
    var c := calls[i];
    ReachesSelf(OwnerGraph(w), c.uid);
    assert InReach(w, calls, c.uid);
    if c.ByEntity? && c.uid != "" {
      assert c in calls;
      FoundOwnersInReach(w, calls, c.uid);
    }
  }

  lemma DeliverWithinReach(w: World, calls: seq<Call>, root: Uid, callers: seq<Visit>, r: Result)
    requires forall k :: 0 <= k < |callers| ==> OwnersInReach(w, calls, callers[k].meta)
    ensures WithinReach(w, calls, Deliver(root, callers, r))
  {
  }

  lemma LoopWithinReach(w: World, calls: seq<Call>, root: Uid, callers: seq<Visit>, v: Visit)
    requires (forall k :: 0 <= k < |callers| ==> OwnersInReach(w, calls, callers[k].meta)) && OwnersInReach(w, calls, v.meta)
    ensures WithinReach(w, calls, Loop(root, callers, v))
  {
  }

  /** A step takes a goroutine nowhere else, and is the same step in the world
      that is cut down to what is reached. */
  lemma StepWithinReach(w: World, calls: seq<Call>, cache: map<Uid, Promise>, th: Thread)
    requires th.Running? && WithinReach(w, calls, th)
    requires th.top.Waiting? ==> th.top.uid in cache && cache[th.top.uid].Settled?
    ensures StepThread(Reached(w, calls), cache, th) == StepThread(w, cache, th)
    ensures WithinReach(w, calls, StepThread(w, cache, th).1)
  {
    match th.top {
      case Fetching(u, path) =>
        assert LookupOf(Reached(w, calls), u) == LookupOf(w, u);
        if LookupOf(w, u).Found? {
          FoundOwnersInReach(w, calls, u);
        }
      case Entering(_, _, _) => DeliverWithinReach(w, calls, th.root, th.callers, Err(NotDeployed));
      case Waiting(u) => DeliverWithinReach(w, calls, th.root, th.callers, cache[u].result);
      case Looping(v) => LoopWithinReach(w, calls, th.root, th.callers, v);
      case Settling(_, r) => DeliverWithinReach(w, calls, th.root, th.callers, r);
    }
  }

  ghost predicate AllWithinReach(w: World, calls: seq<Call>, s: State) {
    forall t :: 0 <= t < |s.threads| ==> WithinReach(w, calls, s.threads[t])
  }

  lemma {:induction false} SameRun(w: World, calls: seq<Call>, s: State, sched: seq<nat>)
    requires AllWithinReach(w, calls, s)
    requires ValidRun(w, s, sched) || ValidRun(Reached(w, calls), s, sched)
    ensures ValidRun(w, s, sched) && ValidRun(Reached(w, calls), s, sched)
    ensures After(w, s, sched) == After(Reached(w, calls), s, sched) && AllWithinReach(w, calls, After(w, s, sched))
    decreases |sched|
  {
    if sched != [] {
      var t := sched[0];
      StepWithinReach(w, calls, s.cache, s.threads[t]);
      assert Step(w, s, t) == Step(Reached(w, calls), s, t);
      SameRun(w, calls, Step(w, s, t), sched[1..]);
    }
  }

  lemma StartReached(w: World, calls: seq<Call>)
    requires Agrees(w, calls)
    ensures AllWithinReach(w, calls, Start(calls)) && Agrees(Reached(w, calls), calls)
  {
    forall i | 0 <= i < |calls|
      ensures WithinReach(w, calls, Start(calls).threads[i])
    {
      StartWithinReach(w, calls, i);
    }
    forall c | c in calls && c.ByEntity? && c.uid != ""
      ensures LookupOf(Reached(w, calls), c.uid) == Found(c.meta)
    {
      var i :| 0 <= i < |calls| && calls[i] == c;
      ReachesSelf(OwnerGraph(w), c.uid);
      assert InReach(w, calls, c.uid);
    }
  }

  // ---- main results ----

  /** Whatever cycles lie elsewhere: where what the callers reach is acyclic, they
      can all still be answered from every reachable state. */
  lemma ReachedAcyclicCanFinish(w: World, calls: seq<Call>, sched: seq<nat>)
    requires Agrees(w, calls) && AcyclicFrom(w, calls) && ValidRun(w, Start(calls), sched)
    ensures CanFinish(w, After(w, Start(calls), sched))
  {
    var cut := Reached(w, calls);
    ReachedIsAcyclic(w, calls);
    StartReached(w, calls);
    SameRun(w, calls, Start(calls), sched);
    AcyclicCanAlwaysFinish(cut);
    var s := After(w, Start(calls), sched);
    assert CanFinish(cut, s);
    var rest :| ValidRun(cut, s, rest) && AllFinished(After(cut, s, rest));
    SameRun(w, calls, s, rest);
    assert ValidRun(w, s, rest) && AllFinished(After(w, s, rest));
  }

  /** And every answer is that of plain recursion over what the callers reach. */
  lemma ReachedAnswersAreRight(w: World, calls: seq<Call>, sched: seq<nat>, t: nat)
    requires Agrees(w, calls) && AcyclicFrom(w, calls) && ValidRun(w, Start(calls), sched) && t < |calls|
    ensures Acyclic(OwnerGraph(Reached(w, calls)))
    ensures var s := After(w, Start(calls), sched);
            |s.threads| == |calls| && (s.threads[t].Finished? ==> s.threads[t].result == Uncached(Reached(w, calls), calls[t].uid))
  {
    ReachedIsAcyclic(w, calls);
    StartReached(w, calls);
    SameRun(w, calls, Start(calls), sched);
    MemoAgreesWithPlainRecursion(Reached(w, calls), calls, sched);
  }
}
