/** What concurrent callers get when the owner graph is acyclic: they never
    deadlock, every run is bounded, and every answer is the one plain recursion
    would give. The last part shows acyclicity is also needed. */
module OwnerLiveness {
  import opened Graphs
  import opened OwnerTrees
  import opened OwnerProtocol

  // ---- frames hold what the server answers ----

  ghost predicate VisitReads(w: World, v: Visit) {
    v.uid != "" && LookupOf(w, v.uid) == Found(v.meta) && v.next <= |v.meta.owners|
  }

  ghost predicate TopReads(w: World, top: Top) {
    match top
    case Entering(u, _, Given(m)) => u != "" ==> LookupOf(w, u) == Found(m)
    case Looping(v) => VisitReads(w, v)
    case Fetching(u, _) => u != ""
    case _ => true
  }

  ghost predicate Reads(w: World, th: Thread) {
    th.Running? ==>
      && (forall v :: v in th.callers ==> VisitReads(w, v) && v.next < |v.meta.owners|)
      && TopReads(w, th.top)
  }

  /** An entity handed to OwnerTreeOf carries the metadata the server has. */
  ghost predicate Agrees(w: World, calls: seq<Call>) {
    forall c :: c in calls && c.ByEntity? && c.uid != "" ==> LookupOf(w, c.uid) == Found(c.meta)
  }

  ghost predicate Faithful(w: World, s: State) {
    Sound(s) && forall t :: 0 <= t < |s.threads| ==> Reads(w, s.threads[t])
  }

  lemma StartIsFaithful(w: World, calls: seq<Call>)
    requires Agrees(w, calls)
    ensures Faithful(w, Start(calls))
  {
    StartIsSound(calls);
    var s := Start(calls);
    forall t | 0 <= t < |s.threads|
      ensures Reads(w, s.threads[t])
    {
      assert s.threads[t] == Spawn(calls[t]) && calls[t] in calls;
    }
  }

  lemma DeliverReads(w: World, root: Uid, callers: seq<Visit>, r: Result)
    requires forall v :: v in callers ==> VisitReads(w, v) && v.next < |v.meta.owners|
    ensures Reads(w, Deliver(root, callers, r))
  {
    if callers != [] {
      assert callers[|callers| - 1] in callers;
    }
  }

  lemma StepKeepsReads(w: World, cache: map<Uid, Promise>, th: Thread)
    requires th.Running? && Reads(w, th)
    requires th.top.Waiting? ==> th.top.uid in cache && cache[th.top.uid].Settled?
    ensures Reads(w, StepThread(w, cache, th).1)
  {
    match th.top
    case Entering(u, _, _) => DeliverReads(w, th.root, th.callers, Err(NotDeployed));
    case Waiting(u) => DeliverReads(w, th.root, th.callers, cache[u].result);
    case Fetching(u, path) =>
    case Looping(v) =>
    case Settling(u, r) => DeliverReads(w, th.root, th.callers, r);
  }

  lemma StepKeepsFaithful(w: World, s: State, t: nat)
    requires Faithful(w, s) && Enabled(s, t)
    ensures Faithful(w, Step(w, s, t))
  {
    StepKeepsSound(w, s, t);
    StepKeepsReads(w, s.cache, s.threads[t]);
  }

  lemma {:induction false} RunKeepsFaithful(w: World, s: State, sched: seq<nat>)
    requires Faithful(w, s) && ValidRun(w, s, sched)
    ensures Faithful(w, After(w, s, sched))
    decreases |sched|
  {
    if sched != [] {
      StepKeepsFaithful(w, s, sched[0]);
      RunKeepsFaithful(w, Step(w, s, sched[0]), sched[1..]);
    }
  }

  // ---- no deadlock ----

  /** Owner ranks fall from each activation to the one it called. */
  lemma {:induction false} RankFallsUpStack(w: World, rank: map<Uid, nat>, th: Thread, k: nat)
    requires Ranks(OwnerGraph(w), rank)
    requires th.Running? && Chained(th) && Reads(w, th) && k < |th.callers|
    ensures RankOf(rank, TopUid(th.top)) < RankOf(rank, th.callers[k].uid)
    decreases |th.callers| - k
  {
    assert CallerOk(th.callers, TopUid(th.top), k);
    var v := th.callers[k];
    assert v in th.callers;
    assert v.uid in OwnerGraph(w) && v.meta.owners[v.next] in OwnerGraph(w)[v.uid];
    if k + 1 < |th.callers| {
      RankFallsUpStack(w, rank, th, k + 1);
    }
  }

  /** Whoever owns the promise a thread waits on is nearer to the end. */
  lemma NextWaiter(w: World, rank: map<Uid, nat>, s: State, t: nat) returns (owner: nat)
    requires Ranks(OwnerGraph(w), rank)
    requires Faithful(w, s) && t < |s.threads| && s.threads[t].Running? && !Enabled(s, t)
    ensures owner < |s.threads|
    ensures Enabled(s, owner) ||
            (s.threads[owner].Running? && RankOf(rank, TopUid(s.threads[owner].top)) < RankOf(rank, TopUid(s.threads[t].top)))
  {
    var u := s.threads[t].top.uid;
    assert SomeoneOwns(s, u);
    owner :| owner < |s.threads| && u in Owned(s.threads[owner]);
    if !Enabled(s, owner) {
      WaiterRanksBelow(w, rank, s.threads[owner], u);
    }
  }

  /** What a waiting thread waits on ranks below what it owns. */
  lemma WaiterRanksBelow(w: World, rank: map<Uid, nat>, th: Thread, u: Uid)
    requires Ranks(OwnerGraph(w), rank)
    requires th.Running? && th.top.Waiting? && Chained(th) && Reads(w, th) && u in Owned(th)
    ensures RankOf(rank, TopUid(th.top)) < RankOf(rank, u)
  {
    var k :| 0 <= k < |Owned(th)| && Owned(th)[k] == u;
    RankFallsUpStack(w, rank, th, k);
  }

  /** Follow the chain of waiting goroutines from t: it ends at one that can run. */
  lemma {:induction false} ChainOfWaitersEnds(w: World, rank: map<Uid, nat>, s: State, t: nat) returns (e: nat)
    requires Ranks(OwnerGraph(w), rank)
    requires Faithful(w, s) && t < |s.threads| && s.threads[t].Running?
    ensures Enabled(s, e)
    decreases RankOf(rank, TopUid(s.threads[t].top))
  {
    if Enabled(s, t) {
      e := t;
    } else {
      var owner := NextWaiter(w, rank, s, t);
      e := owner;
      if !Enabled(s, owner) {
        e := ChainOfWaitersEnds(w, rank, s, owner);
      }
    }
  }

  /** Whatever the interleaving, while a call is unfinished some goroutine can
      take a step. */
  lemma DeadlockFree(w: World, calls: seq<Call>, sched: seq<nat>)
    requires Acyclic(OwnerGraph(w)) && Agrees(w, calls)
    requires ValidRun(w, Start(calls), sched)
    ensures var s := After(w, Start(calls), sched);
            AllFinished(s) || exists t: nat :: Enabled(s, t)
  {
    StartIsFaithful(w, calls);
    RunKeepsFaithful(w, Start(calls), sched);
    var s := After(w, Start(calls), sched);
    if !AllFinished(s) {
      var t :| 0 <= t < |s.threads| && s.threads[t].Running?;
      var e := ChainOfWaitersEnds(w, SomeRank(w), s, t);
    }
  }

  // ---- every run is bounded ----

  /** Steps one activation for u can account for, with everything it unfolds. */
  ghost function Cost(w: World, rank: map<Uid, nat>, u: Uid): nat
    requires Ranks(OwnerGraph(w), rank)
    decreases RankOf(rank, u), 1, 0
  {
    5 + if u != "" && LookupOf(w, u).Found? then OwnersCost(w, rank, u, LookupOf(w, u).meta, 0) else 0
  }

  ghost function OwnersCost(w: World, rank: map<Uid, nat>, u: Uid, m: Meta, i: nat): nat
    requires Ranks(OwnerGraph(w), rank)
    requires u != "" && LookupOf(w, u) == Found(m) && i <= |m.owners|
    decreases RankOf(rank, u), 0, |m.owners| - i
  {
    if i == |m.owners| then 0
    else
      assert u in OwnerGraph(w) && m.owners[i] in OwnerGraph(w)[u];
      1 + Cost(w, rank, m.owners[i]) + OwnersCost(w, rank, u, m, i + 1)
  }

  ghost function TopCost(w: World, rank: map<Uid, nat>, top: Top): nat
    requires Ranks(OwnerGraph(w), rank) && TopReads(w, top)
  {
    match top
    case Entering(u, _, _) => Cost(w, rank, u)
    case Waiting(_) => 1
    case Fetching(u, _) => Cost(w, rank, u) - 1
    case Looping(v) => 3 + OwnersCost(w, rank, v.uid, v.meta, v.next)
    case Settling(_, _) => 1
  }

  /** A caller still has to go through the owners after the one in progress. */
  ghost function CallersCost(w: World, rank: map<Uid, nat>, callers: seq<Visit>): nat
    requires Ranks(OwnerGraph(w), rank)
    requires forall v :: v in callers ==> VisitReads(w, v) && v.next < |v.meta.owners|
  {
    if callers == [] then 0
    else
      var v := callers[|callers| - 1];
      assert v in callers && VisitReads(w, v);
      CallersCost(w, rank, callers[..|callers| - 1]) + 3 + OwnersCost(w, rank, v.uid, v.meta, v.next + 1)
  }

  ghost function ThreadCost(w: World, rank: map<Uid, nat>, th: Thread): nat
    requires Ranks(OwnerGraph(w), rank) && Reads(w, th)
  {
    if th.Finished? then 0 else CallersCost(w, rank, th.callers) + TopCost(w, rank, th.top)
  }

  ghost function TotalCost(w: World, rank: map<Uid, nat>, threads: seq<Thread>): nat
    requires Ranks(OwnerGraph(w), rank)
    requires forall t :: 0 <= t < |threads| ==> Reads(w, threads[t])
  {
    if threads == [] then 0
    else TotalCost(w, rank, threads[..|threads| - 1]) + ThreadCost(w, rank, threads[|threads| - 1])
  }

  lemma DeliverCost(w: World, rank: map<Uid, nat>, root: Uid, callers: seq<Visit>, r: Result)
    requires Ranks(OwnerGraph(w), rank)
    requires forall v :: v in callers ==> VisitReads(w, v) && v.next < |v.meta.owners|
    ensures Reads(w, Deliver(root, callers, r))
    ensures ThreadCost(w, rank, Deliver(root, callers, r)) <= CallersCost(w, rank, callers)
  {
    DeliverReads(w, root, callers, r);
  }

  lemma LoopCost(w: World, rank: map<Uid, nat>, root: Uid, callers: seq<Visit>, v: Visit)
    requires Ranks(OwnerGraph(w), rank) && VisitReads(w, v)
    requires forall c :: c in callers ==> VisitReads(w, c) && c.next < |c.meta.owners|
    requires Reads(w, Loop(root, callers, v))
    ensures ThreadCost(w, rank, Loop(root, callers, v)) < ThreadCost(w, rank, Running(root, callers, Looping(v)))
  {
    assert (callers + [v])[..|callers|] == callers;
  }

  lemma StepCosts(w: World, rank: map<Uid, nat>, cache: map<Uid, Promise>, th: Thread)
    requires Ranks(OwnerGraph(w), rank)
    requires th.Running? && Reads(w, th)
    requires th.top.Waiting? ==> th.top.uid in cache && cache[th.top.uid].Settled?
    ensures Reads(w, StepThread(w, cache, th).1)
    ensures ThreadCost(w, rank, StepThread(w, cache, th).1) < ThreadCost(w, rank, th)
  {
    StepKeepsReads(w, cache, th);
    match th.top
    case Entering(u, _, _) => DeliverCost(w, rank, th.root, th.callers, Err(NotDeployed));
    case Waiting(u) => DeliverCost(w, rank, th.root, th.callers, cache[u].result);
    case Fetching(u, path) =>
    case Looping(v) => LoopCost(w, rank, th.root, th.callers, v);
    case Settling(u, r) => DeliverCost(w, rank, th.root, th.callers, r);
  }

  lemma {:induction false} TotalCostUpdate(w: World, rank: map<Uid, nat>, threads: seq<Thread>, t: nat, th: Thread)
    requires Ranks(OwnerGraph(w), rank)
    requires forall i :: 0 <= i < |threads| ==> Reads(w, threads[i])
    requires t < |threads| && Reads(w, th)
    ensures TotalCost(w, rank, threads[t := th]) - ThreadCost(w, rank, th)
         == TotalCost(w, rank, threads) - ThreadCost(w, rank, threads[t])
    decreases |threads|
  {
    var n := |threads| - 1;
    if t < n {
      TotalCostUpdate(w, rank, threads[..n], t, th);
      assert threads[t := th][..n] == threads[..n][t := th];
    } else {
      assert threads[t := th][..n] == threads[..n];
    }
  }

  /** No schedule is longer than the calls' total cost: every run ends. */
  lemma {:induction false} RunBounded(w: World, rank: map<Uid, nat>, s: State, sched: seq<nat>)
    requires Ranks(OwnerGraph(w), rank)
    requires Faithful(w, s) && ValidRun(w, s, sched)
    ensures Faithful(w, After(w, s, sched))
    ensures |sched| + TotalCost(w, rank, After(w, s, sched).threads) <= TotalCost(w, rank, s.threads)
    decreases |sched|
  {
    if sched != [] {
      var t := sched[0];
      StepIsCheaper(w, rank, s, t);
      RunBounded(w, rank, Step(w, s, t), sched[1..]);
    }
  }

  /** From any reachable state the callers can all still be answered. */
  ghost predicate CanFinish(w: World, s: State) {
    exists sched: seq<nat> :: ValidRun(w, s, sched) && AllFinished(After(w, s, sched))
  }

  lemma StepIsCheaper(w: World, rank: map<Uid, nat>, s: State, t: nat)
    requires Ranks(OwnerGraph(w), rank) && Faithful(w, s) && Enabled(s, t)
    ensures Faithful(w, Step(w, s, t))
    ensures TotalCost(w, rank, Step(w, s, t).threads) < TotalCost(w, rank, s.threads)
  {
    StepKeepsFaithful(w, s, t);
    StepCosts(w, rank, s.cache, s.threads[t]);
    TotalCostUpdate(w, rank, s.threads, t, Step(w, s, t).threads[t]);
  }

  lemma OneStepFromFinishing(w: World, s: State, t: nat)
    requires Enabled(s, t) && CanFinish(w, Step(w, s, t))
    ensures CanFinish(w, s)
  {
    var rest :| ValidRun(w, Step(w, s, t), rest) && AllFinished(After(w, Step(w, s, t), rest));
    assert ([t] + rest)[1..] == rest;
    assert ValidRun(w, s, [t] + rest) && AllFinished(After(w, s, [t] + rest));
  }

  lemma {:induction false} KeepGoing(w: World, rank: map<Uid, nat>, s: State)
    requires Ranks(OwnerGraph(w), rank) && Faithful(w, s)
    ensures CanFinish(w, s)
    decreases TotalCost(w, rank, s.threads)
  {
    if AllFinished(s) {
      assert ValidRun(w, s, []) && AllFinished(After(w, s, []));
    } else {
      var t :| 0 <= t < |s.threads| && s.threads[t].Running?;
      var e := ChainOfWaitersEnds(w, rank, s, t);
      StepIsCheaper(w, rank, s, e);
      KeepGoing(w, rank, Step(w, s, e));
      OneStepFromFinishing(w, s, e);
    }
  }

  ghost predicate CanAlwaysFinish(w: World) {
    forall calls: seq<Call>, sched: seq<nat> ::
      Agrees(w, calls) && ValidRun(w, Start(calls), sched) ==> CanFinish(w, After(w, Start(calls), sched))
  }

  lemma AcyclicCanAlwaysFinish(w: World)
    requires Acyclic(OwnerGraph(w))
    ensures CanAlwaysFinish(w)
  {
    forall calls: seq<Call>, sched: seq<nat> | Agrees(w, calls) && ValidRun(w, Start(calls), sched)
      ensures CanFinish(w, After(w, Start(calls), sched))
    {
      StartIsFaithful(w, calls);
      RunKeepsFaithful(w, Start(calls), sched);
      KeepGoing(w, SomeRank(w), After(w, Start(calls), sched));
    }
  }

  // ---- every answer is the one plain recursion gives ----

  ghost predicate VisitRight(w: World, v: Visit)
    requires Acyclic(OwnerGraph(w)) && VisitReads(w, v)
  {
    UncachedFrom(w, v.uid, v.meta, v.next, v.trees) == Uncached(w, v.uid)
  }

  ghost predicate ThreadRight(w: World, th: Thread)
    requires Acyclic(OwnerGraph(w)) && Reads(w, th)
  {
    match th
    case Finished(root, r) => r == Uncached(w, root)
    case Running(_, callers, top) =>
      && (forall v :: v in callers ==> VisitRight(w, v))
      && (top.Looping? ==> VisitRight(w, top.visit))
      && (top.Settling? ==> top.result == Uncached(w, top.uid))
  }

  ghost predicate CacheRight(w: World, cache: map<Uid, Promise>)
    requires Acyclic(OwnerGraph(w))
  {
    forall u :: u in cache && cache[u].Settled? ==> cache[u].result == Uncached(w, u)
  }

  lemma DeliverRight(w: World, root: Uid, callers: seq<Visit>, u: Uid, r: Result)
    requires Acyclic(OwnerGraph(w))
    requires forall v :: v in callers ==> VisitReads(w, v) && v.next < |v.meta.owners| && VisitRight(w, v)
    requires CallersOk(callers, u) && r == Uncached(w, u)
    requires root == if callers == [] then u else callers[0].uid
    ensures Reads(w, Deliver(root, callers, r)) && ThreadRight(w, Deliver(root, callers, r))
  {
    DeliverReads(w, root, callers, r);
    if callers != [] {
      var v := callers[|callers| - 1];
      assert v in callers && CallerOk(callers, u, |callers| - 1);
    }
  }

  lemma LoopRight(w: World, th: Thread)
    requires Acyclic(OwnerGraph(w))
    requires Reads(w, th) && ThreadRight(w, th) && Chained(th)
    requires th.Running? && th.top.Looping?
    ensures var th' := Loop(th.root, th.callers, th.top.visit); Reads(w, th') && ThreadRight(w, th')
  {
    var v := th.top.visit;
    if v.next < |v.meta.owners| && v.meta.owners[v.next] in v.path {
      // an owner cannot be an ancestor: ranks fall from the ancestor down to it
      var owner := v.meta.owners[v.next];
      var k :| 0 <= k < |v.path| && v.path[k] == owner;
      assert v.uid in OwnerGraph(w) && owner in OwnerGraph(w)[v.uid];
      RankFallsUpStack(w, SomeRank(w), th, k);
      assert false;
    }
  }

  lemma StepThreadRight(w: World, cache: map<Uid, Promise>, th: Thread)
    requires Acyclic(OwnerGraph(w))
    requires th.Running? && Reads(w, th) && ThreadRight(w, th) && Chained(th)
    requires CacheRight(w, cache)
    requires th.top.Waiting? ==> th.top.uid in cache && cache[th.top.uid].Settled?
    ensures var (cache', th') := StepThread(w, cache, th);
            Reads(w, th') && ThreadRight(w, th') && CacheRight(w, cache')
  {
    StepKeepsReads(w, cache, th);
    match th.top
    case Entering(u, _, _) =>
      if u == "" {
        DeliverRight(w, th.root, th.callers, u, Err(NotDeployed));
      }
    case Waiting(u) => DeliverRight(w, th.root, th.callers, u, cache[u].result);
    case Fetching(u, path) =>
    case Looping(v) => LoopRight(w, th);
    case Settling(u, r) => DeliverRight(w, th.root, th.callers, u, r);
  }

  ghost predicate Right(w: World, s: State)
    requires Acyclic(OwnerGraph(w))
  {
    Faithful(w, s) && CacheRight(w, s.cache) && forall t :: 0 <= t < |s.threads| ==> ThreadRight(w, s.threads[t])
  }

  lemma {:induction false} RunKeepsRight(w: World, s: State, sched: seq<nat>)
    requires Acyclic(OwnerGraph(w)) && Right(w, s) && ValidRun(w, s, sched)
    ensures Right(w, After(w, s, sched))
    decreases |sched|
  {
    if sched != [] {
      var t := sched[0];
      StepKeepsFaithful(w, s, t);
      StepThreadRight(w, s.cache, s.threads[t]);
      RunKeepsRight(w, Step(w, s, t), sched[1..]);
    }
  }

  /** The memo agrees with plain recursion, in every interleaving: for the
      answers returned so far and for every promise settled so far. */
  lemma MemoAgreesWithPlainRecursion(w: World, calls: seq<Call>, sched: seq<nat>)
    requires Acyclic(OwnerGraph(w)) && Agrees(w, calls)
    requires ValidRun(w, Start(calls), sched)
    ensures var s := After(w, Start(calls), sched);
            && |s.threads| == |calls|
            && (forall t :: 0 <= t < |calls| && s.threads[t].Finished? ==>
                  s.threads[t].result == Uncached(w, calls[t].uid))
            && (forall u :: u in s.cache && s.cache[u].Settled? ==> s.cache[u].result == Uncached(w, u))
  {
    var s := Start(calls);
    StartIsFaithful(w, calls);
    assert Right(w, s) by {
      forall t | 0 <= t < |s.threads|
        ensures ThreadRight(w, s.threads[t])
      {
        assert s.threads[t] == Spawn(calls[t]);
      }
    }
    RunKeepsRight(w, s, sched);
    RunKeepsRoots(w, s, sched);
  }

  lemma {:induction false} RunKeepsRoots(w: World, s: State, sched: seq<nat>)
    requires Sound(s) && ValidRun(w, s, sched)
    ensures var s' := After(w, s, sched);
            |s'.threads| == |s.threads| && forall t :: 0 <= t < |s.threads| ==> s'.threads[t].root == s.threads[t].root
    decreases |sched|
  {
    if sched != [] {
      StepThreadChange(w, s.cache, s.threads[sched[0]]);
      StepKeepsSound(w, s, sched[0]);
      RunKeepsRoots(w, Step(w, s, sched[0]), sched[1..]);
    }
  }

  // ---- and on a cyclic graph they can hang ----

  /** The call for c holds its promise at the bottom of its own stack, and has
      not got past its owners in the trap. */
  ghost predicate StuckOn(trap: set<Uid>, c: Uid, th: Thread) {
    && th.Running? && th.root == c
    && (th.callers == [] ==>
          || (th.top.Fetching? && th.top.uid == c)
          || (th.top.Looping? && StuckIn(trap, th.top.visit)))
    && (th.callers != [] ==> StuckIn(trap, th.callers[0]))
  }

  ghost predicate StuckIn(trap: set<Uid>, v: Visit) {
    exists k :: v.next <= k < |v.meta.owners| && v.meta.owners[k] in trap
  }

  /** The thread is not about to settle an error or to ask for nothing. */
  predicate Errorless(th: Thread) {
    th.Running? ==>
      (th.top.Settling? ==> th.top.result.Ok?) && (th.top.Entering? ==> th.top.uid != "")
  }

  ghost predicate NoErrors(s: State) {
    && (forall u :: u in s.cache && s.cache[u].Settled? ==> s.cache[u].result.Ok?)
    && (forall t :: 0 <= t < |s.threads| ==> Errorless(s.threads[t]))
  }

  ghost predicate SomeoneStuckOn(s: State, trap: set<Uid>, c: Uid) {
    exists t :: 0 <= t < |s.threads| && StuckOn(trap, c, s.threads[t])
  }

  /** Every object of the trap has a caller stuck on it. */
  ghost predicate Hung(w: World, s: State, trap: set<Uid>) {
    && Faithful(w, s) && NoErrors(s)
    && Trap(OwnerGraph(w), trap)
    && forall c {:trigger SomeoneStuckOn(s, trap, c)} :: c in trap ==> SomeoneStuckOn(s, trap, c)
  }

  lemma StuckOwns(trap: set<Uid>, c: Uid, th: Thread)
    requires StuckOn(trap, c, th) && Chained(th)
    ensures |Owned(th)| > 0 && Owned(th)[0] == c
  {
  }

  /** A promise of the trap is unsettled, and whoever is about to settle a
      promise is settling another. */
  lemma TrapStaysPending(w: World, s: State, trap: set<Uid>, c: Uid)
    requires Hung(w, s, trap) && c in trap
    ensures c in s.cache && s.cache[c] == Pending
    ensures forall t :: 0 <= t < |s.threads| && s.threads[t].Running? && s.threads[t].top.Settling? ==>
              s.threads[t].top.uid != c
  {
    assert SomeoneStuckOn(s, trap, c);
    var i :| 0 <= i < |s.threads| && StuckOn(trap, c, s.threads[i]);
    StuckOwns(trap, c, s.threads[i]);
    assert c in Owned(s.threads[i]);
    forall t | 0 <= t < |s.threads| && s.threads[t].Running? && s.threads[t].top.Settling?
      ensures s.threads[t].top.uid != c
    {
      SettlesAnother(s, trap, c, i, t);
    }
  }

  lemma SettlesAnother(s: State, trap: set<Uid>, c: Uid, i: nat, t: nat)
    requires Sound(s) && i < |s.threads| && t < |s.threads|
    requires StuckOn(trap, c, s.threads[i]) && c in Owned(s.threads[i])
    requires s.threads[t].Running? && s.threads[t].top.Settling?
    ensures s.threads[t].top.uid != c
  {
    var th := s.threads[t];
    assert Owned(th)[|th.callers|] == th.top.uid && th.top.uid in Owned(th);
    if t == i {
      StuckOwns(trap, c, th);
      assert Owned(th)[0] == c && |th.callers| > 0;
    } else {
      assert Disjoint(s.threads[if i < t then i else t], s.threads[if i < t then t else i]);
    }
  }

  lemma DeliverKeepsStuck(trap: set<Uid>, c: Uid, callers: seq<Visit>, u: Uid, r: Result)
    requires callers != [] && StuckIn(trap, callers[0])
    requires CallerOk(callers, u, |callers| - 1) && u !in trap && r.Ok?
    ensures StuckOn(trap, c, Deliver(c, callers, r))
  {
    if |callers| == 1 {
      var v := callers[0];
      var k :| v.next <= k < |v.meta.owners| && v.meta.owners[k] in trap;
      assert v.meta.owners[v.next] == u;
      var th := Deliver(c, callers, r);
      assert v.next + 1 <= k < |th.top.visit.meta.owners|;
    }
  }

  lemma StuckAtTop(w: World, s: State, trap: set<Uid>, t: nat, c: Uid)
    requires Hung(w, s, trap) && Enabled(s, t)
    requires c in trap && StuckOn(trap, c, s.threads[t]) && s.threads[t].callers == []
    ensures StuckOn(trap, c, Step(w, s, t).threads[t])
  {
    var th := s.threads[t];
    if th.top.Fetching? {
      assert StaysIn(OwnerGraph(w), trap, c);
      var o :| o in trap && o in Out(OwnerGraph(w), c);
      var m := LookupOf(w, c).meta;
      var k :| 0 <= k < |m.owners| && m.owners[k] == o;
      assert StuckIn(trap, Visit(c, th.top.path, m, 0, []));
    } else {
      assert th.top.visit.path == Uids([]) == [];
    }
  }

  lemma StuckStaysStuck(w: World, s: State, trap: set<Uid>, t: nat, c: Uid)
    requires Hung(w, s, trap) && Enabled(s, t)
    requires c in trap && StuckOn(trap, c, s.threads[t])
    ensures StuckOn(trap, c, Step(w, s, t).threads[t])
  {
    var th := s.threads[t];
    if th.callers == [] {
      StuckAtTop(w, s, trap, t, c);
    } else if th.top.Waiting? || th.top.Settling? {
      StuckDelivers(w, s, trap, t, c);
    }
  }

  lemma StuckDelivers(w: World, s: State, trap: set<Uid>, t: nat, c: Uid)
    requires Hung(w, s, trap) && Enabled(s, t)
    requires c in trap && StuckOn(trap, c, s.threads[t]) && s.threads[t].callers != []
    requires s.threads[t].top.Waiting? || s.threads[t].top.Settling?
    ensures StuckOn(trap, c, Step(w, s, t).threads[t])
  {
    var th := s.threads[t];
    var u := th.top.uid;
    assert CallerOk(th.callers, TopUid(th.top), |th.callers| - 1);
    if u in trap {
      TrapStaysPending(w, s, trap, u);
    }
    DeliverKeepsStuck(trap, c, th.callers, u, if th.top.Waiting? then s.cache[u].result else th.top.result);
  }

  lemma DeliverIsErrorless(root: Uid, callers: seq<Visit>, r: Result)
    requires r.Ok?
    ensures Errorless(Deliver(root, callers, r))
  {
  }

  lemma LoopIsErrorless(w: World, root: Uid, callers: seq<Visit>, v: Visit)
    requires "" !in v.meta.owners
    ensures Errorless(Loop(root, callers, v))
  {
    if v.next < |v.meta.owners| {
      assert v.meta.owners[v.next] in v.meta.owners;
    }
  }

  lemma ThreadStaysErrorless(w: World, cache: map<Uid, Promise>, th: Thread)
    requires Readable(w) && Reads(w, th) && Errorless(th) && th.Running?
    requires th.top.Waiting? ==> th.top.uid in cache && cache[th.top.uid].Settled? && cache[th.top.uid].result.Ok?
    ensures Errorless(StepThread(w, cache, th).1)
  {
    match th.top
    case Entering(u, _, _) =>
    case Waiting(u) => DeliverIsErrorless(th.root, th.callers, cache[u].result);
    case Fetching(u, path) =>
    case Looping(v) =>
      assert v.uid in w;
      LoopIsErrorless(w, th.root, th.callers, v);
    case Settling(u, r) => DeliverIsErrorless(th.root, th.callers, r);
  }

  lemma StepKeepsNoErrors(w: World, s: State, t: nat)
    requires Readable(w) && Faithful(w, s) && NoErrors(s) && Enabled(s, t)
    ensures NoErrors(Step(w, s, t))
  {
    ThreadStaysErrorless(w, s.cache, s.threads[t]);
    var s' := Step(w, s, t);
    forall i | 0 <= i < |s'.threads|
      ensures Errorless(s'.threads[i])
    {
      assert Errorless(s.threads[i]);
    }
  }

  lemma StepKeepsHung(w: World, s: State, trap: set<Uid>, t: nat)
    requires Readable(w) && Hung(w, s, trap) && Enabled(s, t)
    ensures Hung(w, Step(w, s, t), trap)
  {
    var s' := Step(w, s, t);
    StepKeepsFaithful(w, s, t);
    StepKeepsNoErrors(w, s, t);
    forall c | c in trap
      ensures SomeoneStuckOn(s', trap, c)
    {
      assert SomeoneStuckOn(s, trap, c);
      var i :| 0 <= i < |s.threads| && StuckOn(trap, c, s.threads[i]);
      if i == t {
        StuckStaysStuck(w, s, trap, t, c);
      }
      assert StuckOn(trap, c, s'.threads[i]);
    }
  }

  lemma {:induction false} HungForever(w: World, s: State, trap: set<Uid>, sched: seq<nat>)
    requires Readable(w) && Hung(w, s, trap) && ValidRun(w, s, sched)
    ensures !AllFinished(After(w, s, sched))
    decreases |sched|
  {
    if sched == [] {
      var c :| c in trap;
      assert SomeoneStuckOn(s, trap, c);
    } else {
      StepKeepsHung(w, s, trap, sched[0]);
      HungForever(w, Step(w, s, sched[0]), trap, sched[1..]);
    }
  }

  // one caller per object of the trap, each of which creates its own promise
  // before any of them looks at an owner

  function RefCalls(cs: seq<Uid>): seq<Call> {
    seq(|cs|, i requires 0 <= i < |cs| => ByRef(cs[i]))
  }

  ghost function Entered(cs: seq<Uid>, k: nat): State
    requires k <= |cs|
  {
    State(
      map u | u in cs[..k] :: Pending,
      seq(|cs|, i requires 0 <= i < |cs| =>
        if i < k then Running(cs[i], [], Fetching(cs[i], [])) else Spawn(ByRef(cs[i]))))
  }

  function From(k: nat, n: nat): seq<nat>
    requires k <= n
    decreases n - k
  {
    if k == n then [] else [k] + From(k + 1, n)
  }

  lemma {:induction false} EnterOneByOne(w: World, cs: seq<Uid>, k: nat)
    requires Distinct(cs) && "" !in cs && k <= |cs|
    ensures ValidRun(w, Entered(cs, k), From(k, |cs|))
    ensures After(w, Entered(cs, k), From(k, |cs|)) == Entered(cs, |cs|)
    decreases |cs| - k
  {
    if k < |cs| {
      var s, s' := Entered(cs, k), Entered(cs, k + 1);
      assert cs[..k + 1] == cs[..k] + [cs[k]];
      assert cs[k] !in cs[..k];
      assert Step(w, s, k).cache == s'.cache;
      assert Step(w, s, k).threads == s'.threads;
      EnterOneByOne(w, cs, k + 1);
      assert From(k, |cs|)[1..] == From(k + 1, |cs|);
    } else {
      assert cs[..k] == cs;
    }
  }

  lemma {:induction false} Enumerate(s: set<Uid>) returns (cs: seq<Uid>)
    ensures Distinct(cs) && forall u :: u in cs <==> u in s
    decreases |s|
  {
    if s == {} {
      cs := [];
    } else {
      var u :| u in s;
      var rest := Enumerate(s - {u});
      cs := [u] + rest;
    }
  }

  lemma EnteredStuck(trap: set<Uid>, cs: seq<Uid>)
    requires forall u :: u in trap ==> u in cs
    ensures NoErrors(Entered(cs, |cs|))
    ensures forall c {:trigger SomeoneStuckOn(Entered(cs, |cs|), trap, c)} :: c in trap ==> SomeoneStuckOn(Entered(cs, |cs|), trap, c)
  {
    var s := Entered(cs, |cs|);
    forall c | c in trap
      ensures SomeoneStuckOn(s, trap, c)
    {
      var i :| 0 <= i < |cs| && cs[i] == c;
      assert StuckOn(trap, c, s.threads[i]);
    }
  }

  lemma AllEnter(w: World, cs: seq<Uid>)
    requires Distinct(cs) && "" !in cs
    ensures ValidRun(w, Start(RefCalls(cs)), From(0, |cs|))
    ensures After(w, Start(RefCalls(cs)), From(0, |cs|)) == Entered(cs, |cs|)
    ensures Faithful(w, Entered(cs, |cs|))
  {
    var s := Start(RefCalls(cs));
    assert s.cache == Entered(cs, 0).cache;
    assert s.threads == Entered(cs, 0).threads;
    EnterOneByOne(w, cs, 0);
    StartIsFaithful(w, RefCalls(cs));
    RunKeepsFaithful(w, s, From(0, |cs|));
  }

  lemma AllEnteredIsHung(w: World, trap: set<Uid>, cs: seq<Uid>)
    requires Trap(OwnerGraph(w), trap)
    requires Distinct(cs) && forall u :: u in cs <==> u in trap
    ensures ValidRun(w, Start(RefCalls(cs)), From(0, |cs|))
    ensures Hung(w, After(w, Start(RefCalls(cs)), From(0, |cs|)), trap)
  {
    assert Out(OwnerGraph(w), "") == [];
    assert !StaysIn(OwnerGraph(w), trap, "");
    AllEnter(w, cs);
    EnteredStuck(trap, cs);
  }

  /** The objects on a cycle: everyone's owner list names another of them. */
  lemma CycleIsTrap(w: World) returns (trap: set<Uid>)
    requires !Acyclic(OwnerGraph(w))
    ensures Trap(OwnerGraph(w), trap)
  {
    var g := OwnerGraph(w);
    var p: seq<Uid> :| Closed(g, p);
    trap := set u | u in p;
    assert p[0] in trap;
    forall u | u in trap
      ensures StaysIn(g, trap, u)
    {
      var i :| 0 <= i < |p| && p[i] == u;
      var j := if i == |p| - 1 then 0 else i;
      assert p[j] == u && p[j + 1] in Out(g, p[j]) && p[j + 1] in trap;
    }
  }

  /** With readable metadata, concurrent callers are certain to be answered
      exactly when no object owns itself, directly or through others. */
  lemma CanAlwaysFinishExactlyWhenAcyclic(w: World)
    requires Readable(w)
    ensures CanAlwaysFinish(w) <==> Acyclic(OwnerGraph(w))
  {
    if Acyclic(OwnerGraph(w)) {
      AcyclicCanAlwaysFinish(w);
    } else {
      var trap := CycleIsTrap(w);
      var cs := Enumerate(trap);
      AllEnteredIsHung(w, trap, cs);
      var calls, sched := RefCalls(cs), From(0, |cs|);
      var s := After(w, Start(calls), sched);
      if CanFinish(w, s) {
        var more :| ValidRun(w, s, more) && AllFinished(After(w, s, more));
        HungForever(w, s, trap, more);
      }
      assert Agrees(w, calls) && ValidRun(w, Start(calls), sched) && !CanFinish(w, s);
    }
  }
}
