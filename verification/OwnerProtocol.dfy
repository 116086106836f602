/** The owner fetcher under concurrency: any number of callers share one memo of
    promises. Each step is what one goroutine does between two points at which
    others can observe it, so a run is any sequence of goroutine choices. */
module OwnerProtocol {
  import opened Graphs
  import opened OwnerTrees

  /** One activation of ownerTreeOfHelper, between two iterations of its loop. */
  datatype Visit = Visit(uid: Uid, path: seq<Uid>, meta: Meta, next: nat, trees: seq<Tree>)

  datatype Known = Unknown | Given(meta: Meta)

  /** The innermost activation of a goroutine. */
  datatype Top =
    | Entering(uid: Uid, path: seq<Uid>, known: Known) // before getOrCreatePromise
    | Waiting(uid: Uid)                                // in promise.wait
    | Fetching(uid: Uid, path: seq<Uid>)               // responsible, before getMetaByReference
    | Looping(visit: Visit)                            // in the loop over owner references
    | Settling(uid: Uid, result: Result)               // in the deferred resolve or reject

  datatype Thread =
    | Running(root: Uid, callers: seq<Visit>, top: Top)
    | Finished(root: Uid, result: Result)

  datatype State = State(cache: map<Uid, Promise>, threads: seq<Thread>)

  datatype Call = ByRef(uid: Uid) | ByEntity(uid: Uid, meta: Meta)

  function Spawn(c: Call): Thread {
    match c
    case ByRef(u) => Running(u, [], Entering(u, [], Unknown))
    case ByEntity(u, m) => Running(u, [], Entering(u, [], Given(m)))
  }

  function Start(calls: seq<Call>): State {
    State(map[], seq(|calls|, i requires 0 <= i < |calls| => Spawn(calls[i])))
  }

  function Uids(callers: seq<Visit>): (uids: seq<Uid>)
    ensures |uids| == |callers|
    ensures forall k :: 0 <= k < |callers| ==> uids[k] == callers[k].uid
  {
    seq(|callers|, k requires 0 <= k < |callers| => callers[k].uid)
  }

  // ---- steps ----

  predicate Enabled(s: State, t: nat) {
    && t < |s.threads|
    && s.threads[t].Running?
    && (s.threads[t].top.Waiting? ==>
          var u := s.threads[t].top.uid;
          u in s.cache && s.cache[u].Settled?)
  }

  /** Return r from the innermost activation to the loop that called it. */
  function Deliver(root: Uid, callers: seq<Visit>, r: Result): Thread {
    if callers == [] then
      Finished(root, r)
    else
      var v, rest := callers[|callers| - 1], callers[..|callers| - 1];
      match r
      case Err(_) => Running(root, rest, Settling(v.uid, r))
      case Ok(tree) => Running(root, rest, Looping(v.(next := v.next + 1, trees := v.trees + [tree])))
  }

  function Loop(root: Uid, callers: seq<Visit>, v: Visit): Thread {
    if v.next >= |v.meta.owners| then
      Running(root, callers, Settling(v.uid, Ok(Tree(v.uid, v.meta.created, v.trees))))
    else
      var owner := v.meta.owners[v.next];
      if owner in v.path then
        Running(root, callers, Looping(v.(next := v.next + 1)))
      else
        Running(root, callers + [v], Entering(owner, v.path + [v.uid], Unknown))
  }

  function Begin(root: Uid, callers: seq<Visit>, u: Uid, path: seq<Uid>, m: Meta): Thread {
    Running(root, callers, Looping(Visit(u, path, m, 0, [])))
  }

  function StepThread(w: World, cache: map<Uid, Promise>, th: Thread): (map<Uid, Promise>, Thread)
    requires th.Running?
    requires th.top.Waiting? ==> th.top.uid in cache && cache[th.top.uid].Settled?
  {
    match th.top
    case Entering(u, path, known) =>
      if u == "" then
        (cache, Deliver(th.root, th.callers, Err(NotDeployed)))
      else if u in cache then
        (cache, th.(top := Waiting(u)))
      else
        (cache[u := Pending],
         match known
         case Unknown => th.(top := Fetching(u, path))
         case Given(m) => Begin(th.root, th.callers, u, path, m))
    case Waiting(u) =>
      (cache, Deliver(th.root, th.callers, cache[u].result))
    case Fetching(u, path) =>
      (cache,
       match LookupOf(w, u)
       case NotFound => th.(top := Settling(u, Ok(Leaf(u))))
       case Failed(message) => th.(top := Settling(u, Err(LookupFailed(message))))
       case Found(m) => Begin(th.root, th.callers, u, path, m))
    case Looping(v) =>
      (cache, Loop(th.root, th.callers, v))
    case Settling(u, r) =>
      (cache[u := Settled(r)], Deliver(th.root, th.callers, r))
  }

  function Step(w: World, s: State, t: nat): State
    requires Enabled(s, t)
  {
    var (cache, th) := StepThread(w, s.cache, s.threads[t]);
    State(cache, s.threads[t := th])
  }

  ghost predicate ValidRun(w: World, s: State, sched: seq<nat>)
    decreases |sched|
  {
    sched == [] || (Enabled(s, sched[0]) && ValidRun(w, Step(w, s, sched[0]), sched[1..]))
  }

  ghost function After(w: World, s: State, sched: seq<nat>): State
    requires ValidRun(w, s, sched)
    decreases |sched|
  {
    if sched == [] then s else After(w, Step(w, s, sched[0]), sched[1..])
  }

  predicate AllFinished(s: State) {
    forall t :: 0 <= t < |s.threads| ==> s.threads[t].Finished?
  }

  // ---- who is responsible for which promise, on any owner graph ----

  function TopOwns(top: Top): seq<Uid> {
    match top
    case Entering(_, _, _) => []
    case Waiting(_) => []
    case Fetching(u, _) => [u]
    case Looping(v) => [v.uid]
    case Settling(u, _) => [u]
  }

  /** The UIDs whose promise this goroutine has yet to settle, outermost first. */
  function Owned(th: Thread): seq<Uid> {
    if th.Finished? then [] else Uids(th.callers) + TopOwns(th.top)
  }

  function TopUid(top: Top): Uid {
    if top.Looping? then top.visit.uid else top.uid
  }

  /** The UID of the activation called from callers[k]. */
  function CalleeUid(callers: seq<Visit>, innermost: Uid, k: nat): Uid
    requires k < |callers|
  {
    if k + 1 < |callers| then callers[k + 1].uid else innermost
  }

  /** callers[k] is in its loop at the owner whose activation is next on the
      stack, and its path parameter lists the activations below it. */
  ghost predicate CallerOk(callers: seq<Visit>, innermost: Uid, k: nat)
    requires k < |callers|
  {
    var v := callers[k];
    && v.next < |v.meta.owners|
    && v.meta.owners[v.next] == CalleeUid(callers, innermost, k)
    && v.path == Uids(callers[..k])
  }

  function TopPath(top: Top): seq<Uid>
    requires top.Entering? || top.Fetching? || top.Looping?
  {
    if top.Looping? then top.visit.path else top.path
  }

  ghost predicate CallersOk(callers: seq<Visit>, innermost: Uid) {
    forall k :: 0 <= k < |callers| ==> CallerOk(callers, innermost, k)
  }

  /** A stack is a chain of owner references, and every path parameter is the
      list of strict ancestors on that stack. */
  ghost predicate Chained(th: Thread) {
    th.Running? ==>
      && CallersOk(th.callers, TopUid(th.top))
      && (th.top.Entering? || th.top.Fetching? || th.top.Looping? ==> TopPath(th.top) == Uids(th.callers))
      && (th.root == if th.callers == [] then TopUid(th.top) else th.callers[0].uid)
  }

  ghost predicate OwnsPending(cache: map<Uid, Promise>, th: Thread) {
    && Distinct(Owned(th))
    && (forall u :: u in Owned(th) ==> u in cache && cache[u].Pending? && u != "")
    && (th.Running? && th.top.Waiting? ==> th.top.uid in cache)
  }

  ghost predicate Disjoint(a: Thread, b: Thread) {
    forall u :: !(u in Owned(a) && u in Owned(b))
  }

  ghost predicate SomeoneOwns(s: State, u: Uid) {
    exists t :: 0 <= t < |s.threads| && u in Owned(s.threads[t])
  }

  ghost predicate Sound(s: State) {
    && (forall t :: 0 <= t < |s.threads| ==> Chained(s.threads[t]) && OwnsPending(s.cache, s.threads[t]))
    && (forall t, t' :: 0 <= t < t' < |s.threads| ==> Disjoint(s.threads[t], s.threads[t']))
    && (forall u :: u in s.cache && s.cache[u].Pending? ==> SomeoneOwns(s, u))
  }

  lemma StartIsSound(calls: seq<Call>)
    ensures Sound(Start(calls))
  {
    var s := Start(calls);
    forall t | 0 <= t < |s.threads|
      ensures Chained(s.threads[t]) && Owned(s.threads[t]) == []
    {
      assert s.threads[t] == Spawn(calls[t]);
    }
  }

  /** How one step changes responsibilities: not at all, by taking one free UID,
      or by settling the innermost one. */
  datatype Change = Same | Took(uid: Uid) | Gave(uid: Uid, result: Result)

  function ChangeOf(cache: map<Uid, Promise>, th: Thread): Change
    requires th.Running?
  {
    match th.top
    case Entering(u, _, _) => if u == "" || u in cache then Same else Took(u)
    case Settling(u, r) => Gave(u, r)
    case _ => Same
  }

  lemma DeliverChained(root: Uid, callers: seq<Visit>, innermost: Uid, r: Result)
    requires CallersOk(callers, innermost)
    requires root == if callers == [] then innermost else callers[0].uid
    ensures var th := Deliver(root, callers, r);
            Chained(th) && th.root == root && Owned(th) == Uids(callers) && (th.Running? ==> !th.top.Waiting?)
  {
    var n := |callers|;
    if n > 0 {
      var v, rest := callers[n - 1], callers[..n - 1];
      assert CallerOk(callers, innermost, n - 1);
      forall k | 0 <= k < n - 1
        ensures CallerOk(rest, v.uid, k)
      {
        assert CallerOk(callers, innermost, k);
        assert rest[..k] == callers[..k];
      }
      assert Uids(callers) == Uids(rest) + [v.uid];
    }
  }

  lemma LoopChained(root: Uid, callers: seq<Visit>, v: Visit)
    requires CallersOk(callers, v.uid)
    requires v.path == Uids(callers)
    requires root == if callers == [] then v.uid else callers[0].uid
    ensures var th := Loop(root, callers, v);
            Chained(th) && th.root == root && Owned(th) == Uids(callers) + [v.uid] && th.Running? && !th.top.Waiting?
  {
    if v.next < |v.meta.owners| {
      var owner, more := v.meta.owners[v.next], callers + [v];
      forall k | 0 <= k < |more|
        ensures CallerOk(more, owner, k)
      {
        assert more[..k] == callers[..k];
        if k < |callers| {
          assert CallerOk(callers, v.uid, k);
        }
      }
      assert Uids(more) == Uids(callers) + [v.uid];
    }
  }

  /** What one step of a thread does to the memo and to what the thread owns. */
  ghost predicate Changed(cache: map<Uid, Promise>, th: Thread, cache': map<Uid, Promise>, th': Thread)
    requires th.Running?
  {
    && Chained(th') && th'.root == th.root
    && (th'.Running? && th'.top.Waiting? ==> th'.top.uid in cache')
    && match ChangeOf(cache, th)
       case Same => cache' == cache && Owned(th') == Owned(th)
       case Took(u) => u != "" && u !in cache && cache' == cache[u := Pending] && Owned(th') == Owned(th) + [u]
       case Gave(u, r) => cache' == cache[u := Settled(r)] && Owned(th) == Owned(th') + [u]
  }

  lemma EnteringChange(w: World, cache: map<Uid, Promise>, th: Thread)
    requires th.Running? && th.top.Entering? && Chained(th)
    ensures Changed(cache, th, StepThread(w, cache, th).0, StepThread(w, cache, th).1)
  {
    assert CallersOk(th.callers, TopUid(th.top));
    if th.top.uid == "" {
      DeliverChained(th.root, th.callers, th.top.uid, Err(NotDeployed));
    }
  }

  lemma FetchingChange(w: World, cache: map<Uid, Promise>, th: Thread)
    requires th.Running? && th.top.Fetching? && Chained(th)
    ensures Changed(cache, th, StepThread(w, cache, th).0, StepThread(w, cache, th).1)
  {
    assert CallersOk(th.callers, TopUid(th.top));
  }

  lemma StepThreadChange(w: World, cache: map<Uid, Promise>, th: Thread)
    requires th.Running?
    requires th.top.Waiting? ==> th.top.uid in cache && cache[th.top.uid].Settled?
    requires Chained(th)
    ensures Changed(cache, th, StepThread(w, cache, th).0, StepThread(w, cache, th).1)
  {
    assert CallersOk(th.callers, TopUid(th.top));
    match th.top
    case Entering(_, _, _) => EnteringChange(w, cache, th);
    case Waiting(u) => DeliverChained(th.root, th.callers, u, cache[u].result);
    case Fetching(_, _) => FetchingChange(w, cache, th);
    case Looping(v) => LoopChained(th.root, th.callers, v);
    case Settling(u, r) => DeliverChained(th.root, th.callers, u, r);
  }

  lemma StepKeepsOwner(w: World, s: State, t: nat)
    requires Sound(s) && Enabled(s, t)
    ensures OwnsPending(Step(w, s, t).cache, Step(w, s, t).threads[t])
  {
    var s' := Step(w, s, t);
    var th, th' := s.threads[t], s'.threads[t];
    StepThreadChange(w, s.cache, th);
    OwnedIsPending(s.cache, th);
    match ChangeOf(s.cache, th) {
      case Same =>
      case Took(u) => OneMoreOwned(s.cache, Owned(th), u);
      case Gave(u, r) => OneFewerOwned(s.cache, Owned(th'), u, r);
    }
    PendingIsOwned(s'.cache, th');
  }

  lemma OwnedIsPending(cache: map<Uid, Promise>, th: Thread)
    requires OwnsPending(cache, th)
    ensures PendingAndDistinct(cache, Owned(th))
  {
    forall i | 0 <= i < |Owned(th)|
      ensures Owned(th)[i] in cache && cache[Owned(th)[i]].Pending? && Owned(th)[i] != ""
    {
      assert Owned(th)[i] in Owned(th);
    }
  }

  lemma PendingIsOwned(cache: map<Uid, Promise>, th: Thread)
    requires PendingAndDistinct(cache, Owned(th)) && (th.Running? && th.top.Waiting? ==> th.top.uid in cache)
    ensures OwnsPending(cache, th)
  {
  }

  ghost predicate PendingAndDistinct(cache: map<Uid, Promise>, owned: seq<Uid>) {
    Distinct(owned) && forall i :: 0 <= i < |owned| ==> owned[i] in cache && cache[owned[i]].Pending? && owned[i] != ""
  }

  lemma OneMoreOwned(cache: map<Uid, Promise>, owned: seq<Uid>, u: Uid)
    requires PendingAndDistinct(cache, owned) && u !in cache && u != ""
    ensures PendingAndDistinct(cache[u := Pending], owned + [u])
  {
    var more := owned + [u];
    forall i | 0 <= i < |more|
      ensures more[i] == if i < |owned| then owned[i] else u
    {
    }
  }

  lemma OneFewerOwned(cache: map<Uid, Promise>, owned: seq<Uid>, u: Uid, r: Result)
    requires PendingAndDistinct(cache, owned + [u])
    ensures PendingAndDistinct(cache[u := Settled(r)], owned)
  {
    var more := owned + [u];
    assert more[|owned|] == u;
    forall i | 0 <= i < |owned|
      ensures more[i] == owned[i] != u
    {
    }
  }

  lemma StepKeepsOther(w: World, s: State, t: nat, i: nat)
    requires Sound(s) && Enabled(s, t) && i < |s.threads| && i != t
    ensures var s' := Step(w, s, t);
            Disjoint(s'.threads[t], s.threads[i]) && OwnsPending(s'.cache, s.threads[i])
  {
    var s' := Step(w, s, t);
    var th, th' := s.threads[t], s'.threads[t];
    StepThreadChange(w, s.cache, th);
    assert Disjoint(s.threads[if i < t then i else t], s.threads[if i < t then t else i]);
    assert OwnsPending(s.cache, s.threads[i]);
    var c := ChangeOf(s.cache, th);
    if c.Gave? {
      assert Owned(th)[|Owned(th')|] == c.uid;
    }
  }

  lemma StepKeepsPendingOwned(w: World, s: State, t: nat)
    requires Sound(s) && Enabled(s, t)
    ensures var s' := Step(w, s, t); forall u :: u in s'.cache && s'.cache[u].Pending? ==> SomeoneOwns(s', u)
  {
    var s' := Step(w, s, t);
    var th, th' := s.threads[t], s'.threads[t];
    StepThreadChange(w, s.cache, th);
    var c := ChangeOf(s.cache, th);
    forall u | u in s'.cache && s'.cache[u].Pending?
      ensures SomeoneOwns(s', u)
    {
      if c == Took(u) {
        assert Owned(th')[|Owned(th)|] == u;
      } else {
        assert u in s.cache && s.cache[u].Pending?;
        assert SomeoneOwns(s, u);
        var i :| 0 <= i < |s.threads| && u in Owned(s.threads[i]);
        assert u in Owned(s'.threads[i]);
      }
    }
  }

  lemma StepKeepsSound(w: World, s: State, t: nat)
    requires Sound(s) && Enabled(s, t)
    ensures Sound(Step(w, s, t))
  {
    var s' := Step(w, s, t);
    StepThreadChange(w, s.cache, s.threads[t]);
    StepKeepsOwner(w, s, t);
    StepKeepsPendingOwned(w, s, t);
    forall i, j | 0 <= i < j < |s'.threads|
      ensures Disjoint(s'.threads[i], s'.threads[j])
    {
      if i != t && j != t {
        assert Disjoint(s.threads[i], s.threads[j]);
      } else {
        StepKeepsOther(w, s, t, if i == t then j else i);
      }
    }
    forall i | 0 <= i < |s'.threads|
      ensures Chained(s'.threads[i]) && OwnsPending(s'.cache, s'.threads[i])
    {
      if i != t {
        StepKeepsOther(w, s, t, i);
      }
    }
  }

  lemma {:induction false} RunKeepsSound(w: World, s: State, sched: seq<nat>)
    requires Sound(s) && ValidRun(w, s, sched)
    ensures Sound(After(w, s, sched))
    decreases |sched|
  {
    if sched != [] {
      StepKeepsSound(w, s, sched[0]);
      RunKeepsSound(w, Step(w, s, sched[0]), sched[1..]);
    }
  }

  // ---- promises are settled at most once, and for good, on any owner graph ----

  /** Closing a promise's channel twice would panic: no run gets there. */
  lemma SettlesOnlyPending(w: World, calls: seq<Call>, sched: seq<nat>, t: nat)
    requires ValidRun(w, Start(calls), sched)
    requires var s := After(w, Start(calls), sched);
             t < |s.threads| && s.threads[t].Running? && s.threads[t].top.Settling?
    ensures var s := After(w, Start(calls), sched);
            var u := s.threads[t].top.uid;
            && u in s.cache && s.cache[u] == Pending
            && forall i :: 0 <= i < |s.threads| && i != t ==> u !in Owned(s.threads[i])
  {
    StartIsSound(calls);
    RunKeepsSound(w, Start(calls), sched);
    var s := After(w, Start(calls), sched);
    var th := s.threads[t];
    var u := th.top.uid;
    assert Owned(th)[|th.callers|] == u;
    assert u in Owned(th);
    forall i | 0 <= i < |s.threads| && i != t
      ensures u !in Owned(s.threads[i])
    {
      assert Disjoint(s.threads[if i < t then i else t], s.threads[if i < t then t else i]);
    }
  }

  lemma {:induction false} SettledForGood(w: World, s: State, sched: seq<nat>, u: Uid)
    requires Sound(s) && ValidRun(w, s, sched)
    requires u in s.cache && s.cache[u].Settled?
    ensures u in After(w, s, sched).cache && After(w, s, sched).cache[u] == s.cache[u]
    decreases |sched|
  {
    if sched != [] {
      var t := sched[0];
      StepThreadChange(w, s.cache, s.threads[t]);
      StepKeepsSound(w, s, t);
      var c := ChangeOf(s.cache, s.threads[t]);
      if c.Gave? {
        var th := s.threads[t];
        assert Owned(th)[|Owned(th)| - 1] == c.uid;
        assert c.uid in Owned(th);
      }
      SettledForGood(w, Step(w, s, t), sched[1..], u);
    }
  }

  /** Once every caller has returned, no promise is left unsettled. */
  lemma FinishedLeavesNothingPending(w: World, calls: seq<Call>, sched: seq<nat>)
    requires ValidRun(w, Start(calls), sched) && AllFinished(After(w, Start(calls), sched))
    ensures forall u :: u in After(w, Start(calls), sched).cache ==> After(w, Start(calls), sched).cache[u].Settled?
  {
    StartIsSound(calls);
    RunKeepsSound(w, Start(calls), sched);
    var s := After(w, Start(calls), sched);
    forall u | u in s.cache
      ensures s.cache[u].Settled?
    {
      assert forall t :: 0 <= t < |s.threads| ==> Owned(s.threads[t]) == [];
      assert !SomeoneOwns(s, u);
    }
  }
}
