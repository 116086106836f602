/** Cycles that callers do reach. On any owner graph every run ends, so callers
    can fail to be answered only by waiting for each other. They do not, as long
    as no two of them ask for different objects that lead to the same cycle, and
    none leads to an object that owns itself. */
module OwnerSharing {
  import opened Graphs
  import opened OwnerTrees
  import opened OwnerProtocol
  import opened OwnerLiveness
  import opened OwnerReach

  // ---- every run ends, on any owner graph ----

  /** Steps that whoever creates u's promise can need for u itself. */
  function Budget(w: World, u: Uid): nat {
    3 + 4 * |Out(OwnerGraph(w), u)|
  }

  ghost function Pick(us: set<Uid>): (u: Uid)
    requires us != {}
    ensures u in us
  {
    var u :| u in us; u
  }

  ghost function Budgets(w: World, us: set<Uid>): nat
    decreases |us|
  {
    if us == {} then 0 else Budget(w, Pick(us)) + Budgets(w, us - {Pick(us)})
  }

  lemma {:induction false} BudgetsWithout(w: World, us: set<Uid>, x: Uid)
    requires x in us
    ensures Budgets(w, us) == Budget(w, x) + Budgets(w, us - {x})
    decreases |us|
  {
    var u := Pick(us);
    if u != x {
      BudgetsWithout(w, us - {u}, x);
      BudgetsWithout(w, us - {x}, u);
      assert us - {u} - {x} == us - {x} - {u};
    }
  }

  function TopLeft(w: World, top: Top): int {
    match top
    case Entering(_, _, _) => 2
    case Waiting(_) => 1
    case Fetching(u, _) => Budget(w, u)
    case Looping(v) => 2 + 4 * (|v.meta.owners| - v.next)
    case Settling(_, _) => 1
  }

  function CallersLeft(callers: seq<Visit>): int {
    if callers == [] then 0
    else
      var v := callers[|callers| - 1];
      CallersLeft(callers[..|callers| - 1]) + 2 + 4 * (|v.meta.owners| - v.next - 1)
  }

  function ThreadLeft(w: World, th: Thread): int {
    if th.Finished? then 0 else CallersLeft(th.callers) + TopLeft(w, th.top)
  }

  function TotalLeft(w: World, threads: seq<Thread>): int {
    if threads == [] then 0
    else TotalLeft(w, threads[..|threads| - 1]) + ThreadLeft(w, threads[|threads| - 1])
  }

  /** Steps that can still be taken, at most. */
  ghost function Left(w: World, s: State, all: set<Uid>): int {
    Budgets(w, all - s.cache.Keys) + TotalLeft(w, s.threads)
  }

  lemma {:induction false} CallersLeftIsNat(w: World, callers: seq<Visit>)
    requires forall v :: v in callers ==> VisitReads(w, v) && v.next < |v.meta.owners|
    ensures CallersLeft(callers) >= 0
    decreases |callers|
  {
    if callers != [] {
      assert callers[|callers| - 1] in callers;
      CallersLeftIsNat(w, callers[..|callers| - 1]);
    }
  }

  lemma {:induction false} TotalLeftIsNat(w: World, threads: seq<Thread>)
    requires forall t :: 0 <= t < |threads| ==> Reads(w, threads[t])
    ensures TotalLeft(w, threads) >= 0
    decreases |threads|
  {
    if threads != [] {
      var th := threads[|threads| - 1];
      TotalLeftIsNat(w, threads[..|threads| - 1]);
      if th.Running? {
        CallersLeftIsNat(w, th.callers);
      }
    }
  }

  lemma {:induction false} TotalLeftUpdate(w: World, threads: seq<Thread>, t: nat, th: Thread)
    requires t < |threads|
    ensures TotalLeft(w, threads[t := th]) == TotalLeft(w, threads) - ThreadLeft(w, threads[t]) + ThreadLeft(w, th)
    decreases |threads|
  {
    var n := |threads| - 1;
    if t < n {
      TotalLeftUpdate(w, threads[..n], t, th);
      assert threads[t := th][..n] == threads[..n][t := th];
    } else {
      assert threads[t := th][..n] == threads[..n];
    }
  }

  lemma DeliverLeft(w: World, root: Uid, callers: seq<Visit>, r: Result)
    requires forall v :: v in callers ==> VisitReads(w, v) && v.next < |v.meta.owners|
    ensures ThreadLeft(w, Deliver(root, callers, r)) <= CallersLeft(callers)
  {
    if callers != [] {
      assert callers[|callers| - 1] in callers;
    }
  }

  lemma LoopLeft(w: World, root: Uid, callers: seq<Visit>, v: Visit)
    requires v.next <= |v.meta.owners|
    ensures ThreadLeft(w, Loop(root, callers, v)) < ThreadLeft(w, Running(root, callers, Looping(v)))
  {
    assert (callers + [v])[..|callers|] == callers;
  }

  /** A step uses something up; a new promise brings its budget. */
  lemma ThreadUsesUp(w: World, cache: map<Uid, Promise>, th: Thread)
    requires th.Running? && Reads(w, th)
    requires th.top.Waiting? ==> th.top.uid in cache && cache[th.top.uid].Settled?
    ensures var c := ChangeOf(cache, th);
            ThreadLeft(w, StepThread(w, cache, th).1) < ThreadLeft(w, th) + if c.Took? then Budget(w, c.uid) else 0
  {
    match th.top
    case Entering(u, _, _) => DeliverLeft(w, th.root, th.callers, Err(NotDeployed));
    case Waiting(u) => DeliverLeft(w, th.root, th.callers, cache[u].result);
    case Fetching(u, path) =>
    case Looping(v) => LoopLeft(w, th.root, th.callers, v);
    case Settling(u, r) => DeliverLeft(w, th.root, th.callers, r);
  }

  /** Everything a goroutine can look for. */
  ghost predicate Covers(w: World, s: State, all: set<Uid>) {
    Nodes(OwnerGraph(w)) <= all && forall t :: 0 <= t < |s.threads| ==> s.threads[t].root in all
  }

  lemma EnteredIsCovered(w: World, th: Thread)
    requires th.Running? && Chained(th) && Reads(w, th) && th.top.Entering? && th.callers != []
    ensures th.top.uid in Nodes(OwnerGraph(w))
  {
    var n := |th.callers| - 1;
    var v := th.callers[n];
    assert CallerOk(th.callers, TopUid(th.top), n);
    assert v in th.callers;
    assert v.uid in OwnerGraph(w) && th.top.uid in OwnerGraph(w)[v.uid];
  }

  lemma TakesCovered(w: World, s: State, all: set<Uid>, t: nat)
    requires Faithful(w, s) && Enabled(s, t) && Covers(w, s, all) && ChangeOf(s.cache, s.threads[t]).Took?
    ensures ChangeOf(s.cache, s.threads[t]).uid in all
  {
    var th := s.threads[t];
    assert Chained(th) && Reads(w, th);
    if th.callers != [] {
      EnteredIsCovered(w, th);
    }
  }

  /** A promise that is taken uses up its budget. */
  lemma BudgetsFall(w: World, s: State, all: set<Uid>, t: nat)
    requires Faithful(w, s) && Enabled(s, t) && Covers(w, s, all)
    ensures var c := ChangeOf(s.cache, s.threads[t]);
            Budgets(w, all - Step(w, s, t).cache.Keys) == Budgets(w, all - s.cache.Keys) - if c.Took? then Budget(w, c.uid) else 0
  {
    var s', th := Step(w, s, t), s.threads[t];
    assert Chained(th) && OwnsPending(s.cache, th);
    StepThreadChange(w, s.cache, th);
    match ChangeOf(s.cache, th) {
      case Took(u) =>
        TakesCovered(w, s, all, t);
        assert all - s'.cache.Keys == (all - s.cache.Keys) - {u};
        BudgetsWithout(w, all - s.cache.Keys, u);
      case Gave(u, r) =>
        assert Owned(th)[|th.callers|] == u && u in Owned(th);
        assert s'.cache.Keys == s.cache.Keys;
      case Same =>
    }
  }

  lemma StepUsesUp(w: World, s: State, all: set<Uid>, t: nat)
    requires Faithful(w, s) && Enabled(s, t) && Covers(w, s, all)
    ensures Faithful(w, Step(w, s, t)) && Covers(w, Step(w, s, t), all)
    ensures Left(w, Step(w, s, t), all) < Left(w, s, all)
  {
    var s', th := Step(w, s, t), s.threads[t];
    StepKeepsFaithful(w, s, t);
    StepThreadChange(w, s.cache, th);
    ThreadUsesUp(w, s.cache, th);
    TotalLeftUpdate(w, s.threads, t, s'.threads[t]);
    BudgetsFall(w, s, all, t);
  }

  lemma {:induction false} RunUsesUp(w: World, s: State, all: set<Uid>, sched: seq<nat>)
    requires Faithful(w, s) && Covers(w, s, all) && ValidRun(w, s, sched)
    ensures |sched| <= Left(w, s, all)
    decreases |sched|
  {
    TotalLeftIsNat(w, s.threads);
    if sched != [] {
      StepUsesUp(w, s, all, sched[0]);
      RunUsesUp(w, Step(w, s, sched[0]), all, sched[1..]);
    }
  }

  function CallUids(calls: seq<Call>): set<Uid> {
    set c | c in calls :: c.uid
  }

  ghost function AllUids(w: World, calls: seq<Call>): set<Uid> {
    Nodes(OwnerGraph(w)) + CallUids(calls)
  }

  lemma StartIsCovered(w: World, calls: seq<Call>)
    ensures Covers(w, Start(calls), AllUids(w, calls))
  {
    forall t | 0 <= t < |calls|
      ensures Start(calls).threads[t].root in CallUids(calls)
    {
      assert calls[t] in calls;
    }
  }

  lemma {:induction false} StartLeft(w: World, calls: seq<Call>)
    ensures TotalLeft(w, Start(calls).threads) == 2 * |calls|
    decreases |calls|
  {
    if calls != [] {
      var init := calls[..|calls| - 1];
      StartLeft(w, init);
      assert Start(calls).threads[..|calls| - 1] == Start(init).threads;
      assert Start(calls).threads[|calls| - 1] == Spawn(calls[|calls| - 1]);
    }
  }

  /** On any owner graph, with any metadata: no run is longer than two steps a
      call and the budgets of all objects, each of which is looked up once. */
  lemma EveryRunEnds(w: World, calls: seq<Call>, sched: seq<nat>)
    requires Agrees(w, calls) && ValidRun(w, Start(calls), sched)
    ensures |sched| <= 2 * |calls| + Budgets(w, AllUids(w, calls))
  {
    StartIsFaithful(w, calls);
    StartIsCovered(w, calls);
    StartLeft(w, calls);
    RunUsesUp(w, Start(calls), AllUids(w, calls), sched);
    assert AllUids(w, calls) - Start(calls).cache.Keys == AllUids(w, calls);
  }

  // ---- walks of at least one edge ----

  ghost predicate LeadsTo(w: World, a: Uid, b: Uid) {
    exists p: seq<Uid> :: IsWalk(OwnerGraph(w), p) && |p| >= 2 && p[0] == a && p[|p| - 1] == b
  }

  lemma EdgeLeads(w: World, a: Uid, b: Uid)
    requires b in Out(OwnerGraph(w), a)
    ensures LeadsTo(w, a, b)
  {
    assert IsWalk(OwnerGraph(w), [a, b]);
  }

  lemma LeadsOn(w: World, a: Uid, b: Uid, c: Uid)
    requires LeadsTo(w, a, b) && LeadsTo(w, b, c)
    ensures LeadsTo(w, a, c)
  {
    var g := OwnerGraph(w);
    var p :| IsWalk(g, p) && |p| >= 2 && p[0] == a && p[|p| - 1] == b;
    var q :| IsWalk(g, q) && |q| >= 2 && q[0] == b && q[|q| - 1] == c;
    var r := p + q[1..];
    forall i | 0 <= i < |r| - 1
      ensures r[i + 1] in Out(g, r[i])
    {
      if i < |p| - 1 {
        assert p[i + 1] in Out(g, p[i]);
      } else {
        assert q[i - (|p| - 1) + 1] in Out(g, q[i - (|p| - 1)]);
      }
    }
    assert IsWalk(g, r) && r[0] == a && r[|r| - 1] == c;
  }

  lemma LeadsReaches(w: World, a: Uid, b: Uid)
    requires LeadsTo(w, a, b)
    ensures Reaches(OwnerGraph(w), a, b)
  {
  }

  /** A stack leads from each of its objects to the innermost. */
  lemma {:induction false} StackLeads(w: World, th: Thread, k: nat)
    requires th.Running? && Chained(th) && Reads(w, th) && k < |th.callers|
    ensures LeadsTo(w, th.callers[k].uid, TopUid(th.top))
    decreases |th.callers| - k
  {
    var v := th.callers[k];
    assert CallerOk(th.callers, TopUid(th.top), k);
    assert v in th.callers;
    assert v.uid in OwnerGraph(w) && v.meta.owners[v.next] in OwnerGraph(w)[v.uid];
    EdgeLeads(w, v.uid, v.meta.owners[v.next]);
    if k + 1 < |th.callers| {
      StackLeads(w, th, k + 1);
      LeadsOn(w, v.uid, th.callers[k + 1].uid, TopUid(th.top));
    }
  }

  // ---- a goroutine enters no strict ancestor ----

  predicate EntersNoAncestor(th: Thread) {
    th.Running? && (th.top.Entering? || th.top.Waiting?) && th.callers != [] ==>
      th.top.uid !in th.callers[|th.callers| - 1].path
  }

  ghost predicate Guarded(s: State) {
    forall t :: 0 <= t < |s.threads| ==> EntersNoAncestor(s.threads[t])
  }

  lemma StepKeepsGuarded(w: World, s: State, t: nat)
    requires Guarded(s) && Enabled(s, t)
    ensures Guarded(Step(w, s, t))
  {
    assert EntersNoAncestor(s.threads[t]);
    assert EntersNoAncestor(StepThread(w, s.cache, s.threads[t]).1);
  }

  lemma {:induction false} RunKeepsGuarded(w: World, s: State, sched: seq<nat>)
    requires Guarded(s) && ValidRun(w, s, sched)
    ensures Guarded(After(w, s, sched))
    decreases |sched|
  {
    if sched != [] {
      StepKeepsGuarded(w, s, sched[0]);
      RunKeepsGuarded(w, Step(w, s, sched[0]), sched[1..]);
    }
  }

  // ---- who waits for whom ----

  /** t waits on a promise that u has yet to settle. */
  ghost predicate WaitsFor(s: State, t: nat, u: nat) {
    && t < |s.threads| && u < |s.threads|
    && s.threads[t].Running? && s.threads[t].top.Waiting?
    && s.threads[t].top.uid in Owned(s.threads[u])
  }

  ghost predicate Stuck(s: State) {
    forall t: nat :: !Enabled(s, t)
  }

  lemma StuckWaits(s: State, t: nat) returns (u: nat)
    requires Sound(s) && Stuck(s) && t < |s.threads| && s.threads[t].Running?
    ensures WaitsFor(s, t, u) && s.threads[u].Running?
  {
    assert !Enabled(s, t);
    assert OwnsPending(s.cache, s.threads[t]);
    assert SomeoneOwns(s, s.threads[t].top.uid);
    u :| u < |s.threads| && s.threads[t].top.uid in Owned(s.threads[u]);
  }

  /** What the other waits on is led to by what this one waits on, and by what
      the other was asked for. */
  lemma WaiterLeads(w: World, s: State, t: nat, u: nat)
    requires Faithful(w, s) && WaitsFor(s, t, u) && s.threads[u].Running? && s.threads[u].top.Waiting?
    ensures s.threads[u].callers != [] && s.threads[u].root in Owned(s.threads[u])
    ensures LeadsTo(w, s.threads[t].top.uid, s.threads[u].top.uid) && LeadsTo(w, s.threads[u].root, s.threads[u].top.uid)
  {
    var th := s.threads[u];
    assert Chained(th) && Reads(w, th);
    var k :| 0 <= k < |Owned(th)| && Owned(th)[k] == s.threads[t].top.uid;
    StackLeads(w, th, k);
    StackLeads(w, th, 0);
    assert Owned(th)[0] == th.callers[0].uid == th.root;
  }

  /** Only an object that owns itself can make a goroutine wait for itself. */
  lemma SelfWaitOwnsItself(w: World, s: State, t: nat)
    requires Faithful(w, s) && Guarded(s) && WaitsFor(s, t, t)
    ensures s.threads[t].top.uid in Out(OwnerGraph(w), s.threads[t].top.uid)
  {
    var th := s.threads[t];
    var u, n := th.top.uid, |th.callers| - 1;
    var k :| 0 <= k < |Owned(th)| && Owned(th)[k] == u;
    assert Chained(th) && Reads(w, th) && EntersNoAncestor(th);
    assert CallerOk(th.callers, u, n) && th.callers[n] in th.callers;
    assert forall i :: 0 <= i < n ==> th.callers[n].path[i] == th.callers[i].uid && th.callers[n].path[i] in th.callers[n].path;
    assert k == n && th.callers[n].uid == u;
  }

  // ---- calls that share no cycle ----

  /** No two calls for different objects lead to the same cycle. */
  ghost predicate ShareNoCycle(w: World, calls: seq<Call>) {
    forall i, j, c {:trigger Reaches(OwnerGraph(w), calls[i].uid, c), Reaches(OwnerGraph(w), calls[j].uid, c)} ::
      0 <= i < |calls| && 0 <= j < |calls| && LeadsTo(w, c, c)
      && Reaches(OwnerGraph(w), calls[i].uid, c) && Reaches(OwnerGraph(w), calls[j].uid, c)
      ==> calls[i].uid == calls[j].uid
  }

  ghost predicate LeadToSelfOwner(w: World, calls: seq<Call>) {
    exists u :: InReach(w, calls, u) && u in Out(OwnerGraph(w), u)
  }

  ghost predicate Asked(s: State, calls: seq<Call>) {
    |s.threads| == |calls| && forall t :: 0 <= t < |calls| ==> s.threads[t].root == calls[t].uid
  }

  /** Two goroutines that own what they were asked for were asked for different
      objects. */
  lemma RootsDiffer(s: State, t: nat, u: nat)
    requires Sound(s) && t < |s.threads| && u < |s.threads| && t != u
    requires s.threads[t].root in Owned(s.threads[t]) && s.threads[u].root in Owned(s.threads[u])
    ensures s.threads[t].root != s.threads[u].root
  {
    assert Disjoint(s.threads[if t < u then t else u], s.threads[if t < u then u else t]);
  }

  /** A goroutine in a circle of waiters: it owns its root, which leads to what
      it waits on, and that leads back to itself. */
  ghost predicate InCircle(w: World, s: State, t: nat, c: Uid) {
    && t < |s.threads| && s.threads[t].root in Owned(s.threads[t])
    && LeadsTo(w, s.threads[t].root, c) && LeadsTo(w, c, c)
  }

  lemma OneInCircle(w: World, calls: seq<Call>, s: State, t: nat, u: nat, c: Uid)
    requires Sound(s) && Asked(s, calls) && ShareNoCycle(w, calls)
    requires InCircle(w, s, t, c) && InCircle(w, s, u, c)
    ensures t == u
  {
    LeadsReaches(w, calls[t].uid, c);
    LeadsReaches(w, calls[u].uid, c);
    if t != u {
      RootsDiffer(s, t, u);
    }
  }

  /** The goroutine owns what it was asked for, and that leads to c. */
  ghost predicate Rooted(w: World, s: State, t: nat, c: Uid) {
    t < |s.threads| && s.threads[t].root in Owned(s.threads[t]) && LeadsTo(w, s.threads[t].root, c)
  }

  ghost predicate WaitsOn(s: State, t: nat, c: Uid) {
    t < |s.threads| && s.threads[t].Running? && s.threads[t].top.Waiting? && s.threads[t].top.uid == c
  }

  /** The k-th of some goroutines waits on cs[k] and for the next one. */
  ghost predicate Link(w: World, s: State, ts: seq<nat>, cs: seq<Uid>, k: nat)
    requires |ts| == |cs|
  {
    && (k < |ts| ==> WaitsOn(s, ts[k], cs[k]))
    && (k + 1 < |ts| ==> WaitsFor(s, ts[k], ts[k + 1]) && LeadsTo(w, cs[k], cs[k + 1]) && Rooted(w, s, ts[k + 1], cs[k + 1]))
  }

  ghost predicate Chain(w: World, s: State, ts: seq<nat>, cs: seq<Uid>) {
    |ts| == |cs| && forall k: nat {:trigger Link(w, s, ts, cs, k)} :: Link(w, s, ts, cs, k)
  }

  lemma ChainSnoc(w: World, s: State, ts: seq<nat>, cs: seq<Uid>, u: nat, c: Uid)
    requires Chain(w, s, ts, cs) && ts != []
    requires WaitsFor(s, ts[|ts| - 1], u) && WaitsOn(s, u, c) && LeadsTo(w, cs[|ts| - 1], c) && Rooted(w, s, u, c)
    ensures Chain(w, s, ts + [u], cs + [c])
  {
    forall k: nat
      ensures Link(w, s, ts + [u], cs + [c], k)
    {
      assert Link(w, s, ts, cs, k);
    }
  }

  /** u is the next after t, which waits on a. */
  ghost predicate NextIs(w: World, s: State, t: nat, a: Uid, u: nat, c: Uid) {
    WaitsFor(s, t, u) && WaitsOn(s, u, c) && LeadsTo(w, a, c) && Rooted(w, s, u, c)
  }

  /** Everyone who waits waits for one who waits. */
  ghost predicate Continues(w: World, s: State) {
    forall t: nat, a {:trigger HasNext(w, s, t, a)} :: WaitsOn(s, t, a) ==> HasNext(w, s, t, a)
  }

  ghost predicate HasNext(w: World, s: State, t: nat, a: Uid) {
    exists u: nat, c :: NextIs(w, s, t, a, u, c)
  }

  lemma StuckContinues(w: World, s: State)
    requires Faithful(w, s) && Stuck(s)
    ensures Continues(w, s)
  {
    forall t: nat, a | WaitsOn(s, t, a)
      ensures HasNext(w, s, t, a)
    {
      var u := StuckWaits(s, t);
      assert !Enabled(s, u);
      WaiterLeads(w, s, t, u);
      assert NextIs(w, s, t, a, u, s.threads[u].top.uid);
    }
  }

  lemma {:induction false} LongChain(w: World, s: State, t: nat, c: Uid, n: nat) returns (ts: seq<nat>, cs: seq<Uid>)
    requires Continues(w, s) && WaitsOn(s, t, c)
    ensures |ts| == n + 1 && Chain(w, s, ts, cs)
    decreases n
  {
    if n == 0 {
      ts, cs := [t], [c];
    } else {
      ts, cs := LongChain(w, s, t, c, n - 1);
      assert Link(w, s, ts, cs, n - 1);
      assert HasNext(w, s, ts[n - 1], cs[n - 1]);
      var u, d :| NextIs(w, s, ts[n - 1], cs[n - 1], u, d);
      ChainSnoc(w, s, ts, cs, u, d);
      ts, cs := ts + [u], cs + [d];
    }
  }

  lemma {:induction false} ChainLeads(w: World, s: State, ts: seq<nat>, cs: seq<Uid>, i: nat, j: nat)
    requires Chain(w, s, ts, cs) && i < j < |ts|
    ensures LeadsTo(w, cs[i], cs[j])
    decreases j - i
  {
    var k: nat := j - 1;
    assert Link(w, s, ts, cs, k);
    if i < k {
      ChainLeads(w, s, ts, cs, i, k);
      LeadsOn(w, cs[i], cs[k], cs[j]);
    }
  }

  /** Both ends of a link of a chain that comes back are in a circle. */
  lemma ChainInCircle(w: World, s: State, ts: seq<nat>, cs: seq<Uid>, i: nat, j: nat)
    requires Chain(w, s, ts, cs) && i < j < |ts| && ts[i] == ts[j]
    ensures WaitsFor(s, ts[i], ts[i + 1]) && WaitsOn(s, ts[i], cs[i])
    ensures InCircle(w, s, ts[i], cs[i]) && InCircle(w, s, ts[i + 1], cs[i])
  {
    assert Link(w, s, ts, cs, i) && Link(w, s, ts, cs, j - 1) && Link(w, s, ts, cs, j);
    ChainLeads(w, s, ts, cs, i, j);
    if i + 1 < j {
      ChainLeads(w, s, ts, cs, i + 1, j);
      LeadsOn(w, s.threads[ts[i + 1]].root, cs[i + 1], cs[j]);
    }
  }

  /** A chain of waiters comes back to where it was only if some goroutine waits
      for itself. */
  lemma CircleIsSelfOwner(w: World, calls: seq<Call>, s: State, ts: seq<nat>, cs: seq<Uid>, i: nat, j: nat)
    requires Faithful(w, s) && Guarded(s) && Asked(s, calls) && ShareNoCycle(w, calls)
    requires Chain(w, s, ts, cs) && i < j < |ts| && ts[i] == ts[j]
    ensures LeadToSelfOwner(w, calls)
  {
    var t, c := ts[i], cs[i];
    ChainInCircle(w, s, ts, cs, i, j);
    OneInCircle(w, calls, s, t, ts[i + 1], c);
    SelfWaitOwnsItself(w, s, t);
    LeadsReaches(w, calls[t].uid, c);
    assert InReach(w, calls, c);
  }

  function Below(n: nat): (ks: set<nat>)
    ensures |ks| == n && forall k: nat :: k in ks <==> k < n
  {
    if n == 0 then {} else Below(n - 1) + {n - 1}
  }

  /** While a call is unfinished some goroutine can take a step. */
  lemma SomeoneCanStep(w: World, calls: seq<Call>, s: State) returns (e: nat)
    requires Faithful(w, s) && Guarded(s) && Asked(s, calls) && ShareNoCycle(w, calls) && !LeadToSelfOwner(w, calls)
    requires !AllFinished(s)
    ensures Enabled(s, e)
  {
    if Stuck(s) {
      var t :| 0 <= t < |s.threads| && s.threads[t].Running?;
      assert !Enabled(s, t);
      StuckContinues(w, s);
      var ts, cs := LongChain(w, s, t, s.threads[t].top.uid, |s.threads|);
      forall k | 0 <= k < |ts|
        ensures ts[k] in Below(|s.threads|)
      {
        assert Link(w, s, ts, cs, k);
      }
      var i, j := Pigeonhole(ts, Below(|s.threads|));
      CircleIsSelfOwner(w, calls, s, ts, cs, i, j);
    }
    e :| Enabled(s, e);
  }

  lemma StepKeepsAsked(w: World, calls: seq<Call>, s: State, t: nat)
    requires Sound(s) && Asked(s, calls) && Enabled(s, t)
    ensures Asked(Step(w, s, t), calls)
  {
    StepThreadChange(w, s.cache, s.threads[t]);
  }

  lemma {:induction false} KeepsAnswering(w: World, calls: seq<Call>, s: State, all: set<Uid>)
    requires Faithful(w, s) && Guarded(s) && Asked(s, calls) && Covers(w, s, all)
    requires ShareNoCycle(w, calls) && !LeadToSelfOwner(w, calls)
    ensures CanFinish(w, s)
    decreases Left(w, s, all)
  {
    if AllFinished(s) {
      assert ValidRun(w, s, []) && AllFinished(After(w, s, []));
    } else {
      TotalLeftIsNat(w, s.threads);
      var e := SomeoneCanStep(w, calls, s);
      StepUsesUp(w, s, all, e);
      StepKeepsGuarded(w, s, e);
      StepKeepsAsked(w, calls, s, e);
      KeepsAnswering(w, calls, Step(w, s, e), all);
      OneStepFromFinishing(w, s, e);
    }
  }

  lemma RunIsAsked(w: World, calls: seq<Call>, sched: seq<nat>)
    requires Agrees(w, calls) && ValidRun(w, Start(calls), sched)
    ensures var s := After(w, Start(calls), sched);
            Faithful(w, s) && Guarded(s) && Asked(s, calls) && Covers(w, s, AllUids(w, calls))
  {
    var s, s' := Start(calls), After(w, Start(calls), sched);
    StartIsFaithful(w, calls);
    RunKeepsFaithful(w, s, sched);
    RunKeepsGuarded(w, s, sched);
    RunKeepsRoots(w, s, sched);
    StartIsCovered(w, calls);
    forall t | 0 <= t < |s'.threads|
      ensures s'.threads[t].root in AllUids(w, calls)
    {
      assert s'.threads[t].root == s.threads[t].root;
    }
  }

  // ---- an object that owns itself ----

  /** The owners that the loop has gone past are in the memo, and none is the
      object itself. */
  ghost predicate VisitLooked(cache: map<Uid, Promise>, v: Visit) {
    forall k :: 0 <= k < v.next && k < |v.meta.owners| ==> v.meta.owners[k] in cache && v.meta.owners[k] != v.uid
  }

  ghost predicate OwnersLooked(w: World, cache: map<Uid, Promise>, u: Uid) {
    forall o :: o in Out(OwnerGraph(w), u) ==> o in cache && o != u
  }

  ghost predicate CacheLooked(w: World, cache: map<Uid, Promise>) {
    forall u :: u in cache && cache[u].Settled? ==> cache[u].result.Ok? && OwnersLooked(w, cache, u)
  }

  ghost predicate ThreadLooked(w: World, cache: map<Uid, Promise>, th: Thread) {
    match th
    case Finished(root, _) => root == "" || root in cache
    case Running(_, callers, top) =>
      && (forall v :: v in callers ==> VisitLooked(cache, v))
      && (top.Looping? ==> VisitLooked(cache, top.visit))
      && (top.Settling? ==> OwnersLooked(w, cache, top.uid))
  }

  /** A call for nothing fails at once; no other meets an error. */
  predicate Clean(th: Thread) {
    if th.root == "" then th.Finished? || (th.callers == [] && th.top.Entering?) else Errorless(th)
  }

  ghost predicate Looked(w: World, s: State) {
    && CacheLooked(w, s.cache)
    && forall t :: 0 <= t < |s.threads| ==> ThreadLooked(w, s.cache, s.threads[t]) && Clean(s.threads[t])
  }

  lemma LookedOnward(w: World, cache: map<Uid, Promise>, cache': map<Uid, Promise>, th: Thread)
    requires cache.Keys <= cache'.Keys && ThreadLooked(w, cache, th)
    ensures ThreadLooked(w, cache', th)
  {
  }

  lemma DeliverLooked(w: World, cache: map<Uid, Promise>, root: Uid, callers: seq<Visit>, u: Uid, r: Result)
    requires r.Ok? && u in cache && CallersOk(callers, u)
    requires root == if callers == [] then u else callers[0].uid
    requires (forall v :: v in callers ==> VisitLooked(cache, v)) && (callers != [] ==> u != callers[|callers| - 1].uid)
    ensures ThreadLooked(w, cache, Deliver(root, callers, r))
  {
    if callers != [] {
      var n := |callers| - 1;
      assert callers[n] in callers && CallerOk(callers, u, n);
    }
  }

  lemma LoopLooked(w: World, cache: map<Uid, Promise>, th: Thread)
    requires th.Running? && th.top.Looping? && Reads(w, th) && Chained(th) && OwnsPending(cache, th)
    requires ThreadLooked(w, cache, th)
    ensures ThreadLooked(w, cache, Loop(th.root, th.callers, th.top.visit))
  {
    var v := th.top.visit;
    if v.next >= |v.meta.owners| {
      assert Out(OwnerGraph(w), v.uid) == v.meta.owners;
    } else if v.meta.owners[v.next] in v.path {
      AncestorIsLooked(cache, th, v.meta.owners[v.next]);
    }
  }

  /** A strict ancestor is in the memo, and not the object itself. */
  lemma AncestorIsLooked(cache: map<Uid, Promise>, th: Thread, u: Uid)
    requires th.Running? && th.top.Looping? && Chained(th) && OwnsPending(cache, th) && u in th.top.visit.path
    ensures u in cache && u != th.top.visit.uid
  {
    var v := th.top.visit;
    var k :| 0 <= k < |v.path| && v.path[k] == u;
    assert Owned(th)[k] == u && Owned(th)[|th.callers|] == v.uid;
    assert Owned(th)[k] in Owned(th);
  }

  lemma InnermostDiffers(cache: map<Uid, Promise>, th: Thread)
    requires th.Running? && OwnsPending(cache, th) && th.callers != []
    requires th.top.Settling? || (th.top.Waiting? && th.top.uid in cache && cache[th.top.uid].Settled?)
    ensures th.top.uid != th.callers[|th.callers| - 1].uid
  {
    var n := |th.callers| - 1;
    assert Owned(th)[n] == th.callers[n].uid && Owned(th)[n] in Owned(th);
    if th.top.Settling? {
      assert Owned(th)[n + 1] == th.top.uid;
    }
  }

  lemma ThreadStaysLooked(w: World, cache: map<Uid, Promise>, th: Thread)
    requires Readable(w) && th.Running? && Reads(w, th) && Chained(th) && OwnsPending(cache, th)
    requires CacheLooked(w, cache) && ThreadLooked(w, cache, th) && Errorless(th)
    requires th.top.Waiting? ==> th.top.uid in cache && cache[th.top.uid].Settled?
    ensures ThreadLooked(w, StepThread(w, cache, th).0, StepThread(w, cache, th).1)
  {
    match th.top
    case Entering(u, _, _) =>
    case Waiting(u) =>
      if th.callers != [] {
        InnermostDiffers(cache, th);
      }
      DeliverLooked(w, cache, th.root, th.callers, u, cache[u].result);
    case Fetching(u, path) =>
    case Looping(v) => LoopLooked(w, cache, th);
    case Settling(u, r) =>
      if th.callers != [] {
        InnermostDiffers(cache, th);
      }
      DeliverLooked(w, cache[u := Settled(r)], th.root, th.callers, u, r);
  }

  lemma StepKeepsCacheLooked(w: World, cache: map<Uid, Promise>, th: Thread)
    requires th.Running? && CacheLooked(w, cache) && ThreadLooked(w, cache, th) && Errorless(th)
    requires th.top.Waiting? ==> th.top.uid in cache && cache[th.top.uid].Settled?
    ensures var cache' := StepThread(w, cache, th).0;
            CacheLooked(w, cache') && cache.Keys <= cache'.Keys
  {
  }

  lemma StepKeepsLooked(w: World, s: State, t: nat)
    requires Readable(w) && Faithful(w, s) && Looked(w, s) && Enabled(s, t)
    ensures Looked(w, Step(w, s, t))
  {
    var s', th := Step(w, s, t), s.threads[t];
    assert Clean(th) && ThreadLooked(w, s.cache, th);
    StepThreadChange(w, s.cache, th);
    if th.root != "" {
      ThreadStaysErrorless(w, s.cache, th);
      ThreadStaysLooked(w, s.cache, th);
      StepKeepsCacheLooked(w, s.cache, th);
    }
    forall i | 0 <= i < |s'.threads|
      ensures ThreadLooked(w, s'.cache, s'.threads[i]) && Clean(s'.threads[i])
    {
      if i != t {
        LookedOnward(w, s.cache, s'.cache, s.threads[i]);
      }
    }
  }

  lemma {:induction false} RunKeepsLooked(w: World, s: State, sched: seq<nat>)
    requires Readable(w) && Faithful(w, s) && Looked(w, s) && ValidRun(w, s, sched)
    ensures Looked(w, After(w, s, sched)) && Sound(After(w, s, sched))
    decreases |sched|
  {
    if sched != [] {
      StepKeepsFaithful(w, s, sched[0]);
      StepKeepsLooked(w, s, sched[0]);
      RunKeepsLooked(w, Step(w, s, sched[0]), sched[1..]);
    }
  }

  lemma NothingOwnsItself(w: World, u: Uid)
    requires Reaches(OwnerGraph(w), "", u)
    ensures u !in Out(OwnerGraph(w), u)
  {
    ClosedSetHoldsReachable(OwnerGraph(w), {""}, "", u);
  }

  /** Once all have returned the memo is closed under owners, and nothing in it
      owns itself. */
  lemma FinishedReachesNoSelfOwner(w: World, calls: seq<Call>, s: State, i: nat, u: Uid)
    requires Sound(s) && Looked(w, s) && AllFinished(s) && Asked(s, calls) && i < |calls|
    requires Reaches(OwnerGraph(w), calls[i].uid, u)
    ensures u !in Out(OwnerGraph(w), u)
  {
    forall v | v in s.cache
      ensures s.cache[v].Settled?
    {
      assert forall t :: 0 <= t < |s.threads| ==> Owned(s.threads[t]) == [];
      assert !SomeoneOwns(s, v);
    }
    if calls[i].uid == "" {
      NothingOwnsItself(w, u);
    } else {
      assert ThreadLooked(w, s.cache, s.threads[i]);
      forall v, o | v in s.cache.Keys && o in Out(OwnerGraph(w), v)
        ensures o in s.cache.Keys
      {
        assert OwnersLooked(w, s.cache, v);
      }
      ClosedSetHoldsReachable(OwnerGraph(w), s.cache.Keys, calls[i].uid, u);
      assert OwnersLooked(w, s.cache, u);
    }
  }

  lemma StartIsLooked(w: World, calls: seq<Call>)
    ensures Looked(w, Start(calls))
  {
    forall t | 0 <= t < |calls|
      ensures ThreadLooked(w, map[], Start(calls).threads[t]) && Clean(Start(calls).threads[t])
    {
      assert Start(calls).threads[t] == Spawn(calls[t]);
    }
  }

  lemma LookedNeverFinishes(w: World, calls: seq<Call>, s: State, rest: seq<nat>)
    requires Readable(w) && Faithful(w, s) && Looked(w, s) && Asked(s, calls) && LeadToSelfOwner(w, calls)
    requires ValidRun(w, s, rest)
    ensures !AllFinished(After(w, s, rest))
  {
    var s' := After(w, s, rest);
    RunKeepsLooked(w, s, rest);
    RunKeepsRoots(w, s, rest);
    var u :| InReach(w, calls, u) && u in Out(OwnerGraph(w), u);
    var i :| 0 <= i < |calls| && Reaches(OwnerGraph(w), calls[i].uid, u);
    if AllFinished(s') {
      FinishedReachesNoSelfOwner(w, calls, s', i, u);
    }
  }

  /** With readable metadata: if some call leads to an object that owns itself,
      the calls are never all answered, whatever the schedule. */
  lemma SelfOwnerIsNeverAnswered(w: World, calls: seq<Call>, sched: seq<nat>)
    requires Readable(w) && Agrees(w, calls) && ValidRun(w, Start(calls), sched) && LeadToSelfOwner(w, calls)
    ensures !CanFinish(w, After(w, Start(calls), sched))
  {
    var s := After(w, Start(calls), sched);
    RunIsAsked(w, calls, sched);
    StartIsFaithful(w, calls);
    StartIsLooked(w, calls);
    RunKeepsLooked(w, Start(calls), sched);
    forall rest | ValidRun(w, s, rest)
      ensures !AllFinished(After(w, s, rest))
    {
      LookedNeverFinishes(w, calls, s, rest);
    }
  }

  // ---- main results ----

  /** Any metadata: callers that share no cycle, and of which none leads to an
      object that owns itself, can all still be answered from every reachable
      state. */
  lemma UnsharedCanFinish(w: World, calls: seq<Call>, sched: seq<nat>)
    requires Agrees(w, calls) && ValidRun(w, Start(calls), sched)
    requires ShareNoCycle(w, calls) && !LeadToSelfOwner(w, calls)
    ensures CanFinish(w, After(w, Start(calls), sched))
  {
    RunIsAsked(w, calls, sched);
    KeepsAnswering(w, calls, After(w, Start(calls), sched), AllUids(w, calls));
  }

  /** With readable metadata, callers that share no cycle can be answered, from
      any reachable state, if and only if none leads to an object that owns
      itself. */
  lemma UnsharedCanFinishExactlyWhen(w: World, calls: seq<Call>, sched: seq<nat>)
    requires Readable(w) && Agrees(w, calls) && ValidRun(w, Start(calls), sched) && ShareNoCycle(w, calls)
    ensures CanFinish(w, After(w, Start(calls), sched)) <==> !LeadToSelfOwner(w, calls)
  {
    if LeadToSelfOwner(w, calls) {
      SelfOwnerIsNeverAnswered(w, calls, sched);
    } else {
      UnsharedCanFinish(w, calls, sched);
    }
  }
}
