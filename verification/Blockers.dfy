/** The dependency tree of the resources, and what in it blocks what. */
module Blockers {
  import opened Shared
  import opened Graphs

  const TiltfileResource := "(Tiltfile)"

  datatype Status = Status(update: string, runtime: string)

  type Resources = map<string, Status>

  /** What each resource depends on. */
  type Dependencies = map<string, seq<string>>

  predicate IsBad(status: string) {
    status != "ok" && status != "not_applicable" && status != "none" && status != ""
  }

  predicate IsNotOK(r: Status) {
    IsBad(r.update) || IsBad(r.runtime)
  }

  function NotOK(resources: Resources): set<string> {
    set n | n in resources && IsNotOK(resources[n])
  }

  /** Of the statuses an update can have, these block: it is pending, in progress
      or failed; of those at run time: unknown, pending and failed. */
  lemma BlockingStatuses(update: string, runtime: string)
    requires update in {"none", "in_progress", "ok", "pending", "error", "not_applicable", ""}
    requires runtime in {"unknown", "ok", "pending", "error", "not_applicable", "none", ""}
    ensures IsNotOK(Status(update, runtime)) <==>
              update in {"in_progress", "pending", "error"} || runtime in {"unknown", "pending", "error"}
  {
  }

  /** order lists the keys of a map, in the order they are visited in. */
  ghost predicate Lists<T>(order: seq<string>, m: map<string, T>) {
    Distinct(order) && forall n :: n in order <==> n in m
  }

  // ---- the graph ----

  /** p is a resource, and c depends on it. */
  predicate DependsOn(resources: Resources, deps: Dependencies, c: string, p: string) {
    p in resources && p in Out(deps, c)
  }

  ghost predicate IsChildrenOf(resources: Resources, deps: Dependencies, childrenOf: Graph<string>) {
    forall p, c {:trigger c in Out(childrenOf, p)} {:trigger DependsOn(resources, deps, c, p)} ::
      c in Out(childrenOf, p) <==> DependsOn(resources, deps, c, p)
  }

  method BuildDependencyGraph(resources: Resources, deps: Dependencies, order: seq<string>)
    returns (childrenOf: Graph<string>, hasParent: set<string>)
    requires Lists(order, deps)
    ensures IsChildrenOf(resources, deps, childrenOf)
    ensures forall c :: c in hasParent <==> exists p :: DependsOn(resources, deps, c, p)
  {
    childrenOf, hasParent := map[], {};
    for i := 0 to |order|
      invariant forall p, c {:trigger c in Out(childrenOf, p)} {:trigger DependsOn(resources, deps, c, p)} ::
                  c in Out(childrenOf, p) <==> c in order[..i] && DependsOn(resources, deps, c, p)
      invariant forall c :: c in hasParent <==> exists p :: c in Out(childrenOf, p)
    {
      assert order[i] in order;
      childrenOf, hasParent := AddParents(resources, order[i], deps[order[i]], childrenOf, hasParent);
      assert order[..i + 1] == order[..i] + [order[i]];
    }
    assert order[..|order|] == order;
    forall c ensures c in hasParent <==> exists p :: DependsOn(resources, deps, c, p) {
      if p :| DependsOn(resources, deps, c, p) {
        assert c in Out(childrenOf, p);
      }
      if p :| c in Out(childrenOf, p) {
        assert DependsOn(resources, deps, c, p);
      }
    }
  }

  lemma InNext(parents: seq<string>, i: nat)
    requires i < |parents|
    ensures forall p {:trigger p in parents[..i + 1]} {:trigger p in parents[..i]} :: p in parents[..i + 1] <==> p in parents[..i] || p == parents[i]
  {
    assert parents[..i + 1] == parents[..i] + [parents[i]];
  }

  method AddParents(resources: Resources, child: string, parents: seq<string>, before: Graph<string>, hadParent: set<string>)
    returns (childrenOf: Graph<string>, hasParent: set<string>)
    requires forall c :: c in hadParent <==> exists p :: c in Out(before, p)
    ensures forall p, c {:trigger c in Out(childrenOf, p)} {:trigger c in Out(before, p)} ::
              c in Out(childrenOf, p) <==> c in Out(before, p) || (c == child && p in parents && p in resources)
    ensures forall c :: c in hasParent <==> exists p :: c in Out(childrenOf, p)
  {
    childrenOf, hasParent := before, hadParent;
    for i := 0 to |parents|
      invariant forall p, c {:trigger c in Out(childrenOf, p)} {:trigger c in Out(before, p)} ::
                  c in Out(childrenOf, p) <==> c in Out(before, p) || (c == child && p in parents[..i] && p in resources)
      invariant forall c :: c in hasParent <==> exists p :: c in Out(childrenOf, p)
    {
      var parent := parents[i];
      InNext(parents, i);
      if parent in resources {
        ghost var was := childrenOf;
        childrenOf := childrenOf[parent := Out(childrenOf, parent) + [child]];
        hasParent := hasParent + {child};
        Extended(was, childrenOf, parent, child);
      }
    }
    assert parents[..|parents|] == parents;
  }

  lemma Extended(was: Graph<string>, now: Graph<string>, parent: string, child: string)
    requires now == was[parent := Out(was, parent) + [child]]
    ensures forall p, c {:trigger c in Out(now, p)} {:trigger c in Out(was, p)} ::
              c in Out(now, p) <==> c in Out(was, p) || (p == parent && c == child)
    ensures child in Out(now, parent)
  {
  }

  // ---- descendants ----

  class NameSet {
    var names: set<string>

    constructor ()
      ensures names == {}
    {
      names := {};
    }
  }

  ghost predicate Spans(g: Graph<string>, universe: set<string>) {
    forall v, w :: v in universe && w in Out(g, v) ==> w in universe
  }

  /** What is new since was has all its children, but perhaps those of grey. */
  ghost predicate ChildrenIn(g: Graph<string>, was: set<string>, now: set<string>, grey: set<string>) {
    forall v, w :: v in now && v !in was && v !in grey && w in Out(g, v) ==> w in now
  }

  /** Adds the resource and all its descendants; universe bounds what there is. */
  method CollectDescendants(name: string, childrenOf: Graph<string>, s: NameSet, ghost universe: set<string>)
    requires name in universe && Spans(childrenOf, universe)
    modifies s
    ensures old(s.names) <= s.names && name in s.names
    ensures forall v :: v in s.names && v !in old(s.names) ==> v in universe && Reaches(childrenOf, name, v)
    ensures ChildrenIn(childrenOf, old(s.names), s.names, {})
    decreases |universe - s.names|
  {
    if name in s.names {
      return;
    }
    ghost var was := s.names;
    s.names := s.names + {name};
    ReachesSelf(childrenOf, name);
    var children := Out(childrenOf, name);
    for i := 0 to |children|
      invariant was + {name} <= s.names
      invariant forall v :: v in s.names && v !in was ==> v in universe && Reaches(childrenOf, name, v)
      invariant forall j :: 0 <= j < i ==> children[j] in s.names
      invariant ChildrenIn(childrenOf, was, s.names, {name})
    {
      ghost var before := s.names;
      FewerLeft(universe, was, before, name);
      CollectDescendants(children[i], childrenOf, s, universe);
      forall v | v in s.names && v !in before
        ensures Reaches(childrenOf, name, v)
      {
        ReachesStep(childrenOf, name, children[i], v);
      }
    }
  }

  lemma FewerLeft(universe: set<string>, was: set<string>, now: set<string>, name: string)
    requires was <= now && name in universe && name !in was && name in now
    ensures |universe - now| < |universe - was|
  {
    SubsetSize(universe - now, universe - was - {name});
  }

  ghost predicate ReachedFrom(g: Graph<string>, roots: set<string>, v: string) {
    exists r :: r in roots && Reaches(g, r, v)
  }

  /** The names are exactly those reached from the roots. */
  ghost predicate AreDescendants(g: Graph<string>, roots: set<string>, names: set<string>) {
    forall v {:trigger ReachedFrom(g, roots, v)} {:trigger v in names} :: v in names <==> ReachedFrom(g, roots, v)
  }

  lemma DescendantsAreClosed(g: Graph<string>, roots: set<string>, names: set<string>)
    requires AreDescendants(g, roots, names)
    ensures Spans(g, names)
  {
    forall v, w | v in names && w in Out(g, v)
      ensures w in names
    {
      assert ReachedFrom(g, roots, v);
      var r :| r in roots && Reaches(g, r, v);
      ReachesOnward(g, r, v, w);
      assert ReachedFrom(g, roots, w);
    }
  }

  lemma OneMoreRoot(g: Graph<string>, roots: set<string>, was: set<string>, root: string, now: set<string>)
    requires AreDescendants(g, roots, was)
    requires was <= now && root in now && ChildrenIn(g, was, now, {})
    requires forall v :: v in now && v !in was ==> Reaches(g, root, v)
    ensures AreDescendants(g, roots + {root}, now)
  {
    DescendantsAreClosed(g, roots, was);
    forall v
      ensures v in now <==> ReachedFrom(g, roots + {root}, v)
    {
      if ReachedFrom(g, roots + {root}, v) {
        var r :| r in roots + {root} && Reaches(g, r, v);
        ReachesSelf(g, r);
        assert r in roots ==> ReachedFrom(g, roots, r);
        ClosedSetHoldsReachable(g, now, r, v);
      }
      if v in was {
        assert ReachedFrom(g, roots, v);
        var r :| r in roots && Reaches(g, r, v);
        assert r in roots + {root};
      }
    }
  }

  function Elements(s: seq<string>): set<string> {
    set x | x in s
  }

  lemma ElementsNext(s: seq<string>, i: nat)
    requires i < |s|
    ensures Elements(s[..i + 1]) == Elements(s[..i]) + {s[i]}
  {
    assert s[..i + 1] == s[..i] + [s[i]];
  }

  method CollectAll(roots: seq<string>, childrenOf: Graph<string>) returns (names: set<string>)
    ensures AreDescendants(childrenOf, Elements(roots), names)
  {
    ghost var universe := Nodes(childrenOf) + Elements(roots);
    var s := new NameSet();
    for i := 0 to |roots|
      invariant AreDescendants(childrenOf, Elements(roots[..i]), s.names)
    {
      ghost var was := s.names;
      CollectDescendants(roots[i], childrenOf, s, universe);
      OneMoreRoot(childrenOf, Elements(roots[..i]), was, roots[i], s.names);
      ElementsNext(roots, i);
    }
    assert roots[..|roots|] == roots;
    names := s.names;
  }

  // ---- the tree of blockers ----

  /** Not OK, and nothing it depends on is not OK. */
  predicate IsRootBlocker(resources: Resources, deps: Dependencies, n: string) {
    n in NotOK(resources) && forall i :: 0 <= i < |Out(deps, n)| ==> Out(deps, n)[i] !in NotOK(resources)
  }

  function RootBlockers(resources: Resources, deps: Dependencies): set<string> {
    set n | n in resources && IsRootBlocker(resources, deps, n)
  }

  datatype BlockersTree = NothingBlocked | NoRootBlockers | Rooted(roots: seq<string>, displayed: set<string>)

  method PrepareBlockersTree(resources: Resources, deps: Dependencies, childrenOf: Graph<string>, order: seq<string>)
    returns (tree: BlockersTree)
    requires Lists(order, resources)
    ensures tree.NothingBlocked? <==> NotOK(resources) == {}
    ensures tree.NothingBlocked? <==>
              forall n :: n in resources ==>
                && resources[n].update in {"ok", "not_applicable", "none", ""}
                && resources[n].runtime in {"ok", "not_applicable", "none", ""}
    ensures tree.NoRootBlockers? <==> NotOK(resources) != {} && RootBlockers(resources, deps) == {}
    ensures tree.Rooted? ==>
              && Distinct(tree.roots) && (forall n :: n in tree.roots <==> n in RootBlockers(resources, deps))
              && AreDescendants(childrenOf, RootBlockers(resources, deps), tree.displayed)
  {
    var notOK := NotOK(resources);
    assert forall n :: n in resources && IsNotOK(resources[n]) ==> n in notOK;
    if |notOK| == 0 {
      return NothingBlocked;
    }
    var rootBlockers := FindRootBlockers(resources, deps, order);
    assert RootBlockers(resources, deps) == Elements(rootBlockers);
    if |rootBlockers| == 0 {
      return NoRootBlockers;
    }
    assert rootBlockers[0] in rootBlockers;
    var displayed := CollectAll(rootBlockers, childrenOf);
    return Rooted(rootBlockers, displayed);
  }

  method FindRootBlockers(resources: Resources, deps: Dependencies, order: seq<string>) returns (rootBlockers: seq<string>)
    requires Lists(order, resources)
    ensures Distinct(rootBlockers) && forall n :: n in rootBlockers <==> n in RootBlockers(resources, deps)
  {
    var notOK := NotOK(resources);
    rootBlockers := [];
    for i := 0 to |order|
      invariant Distinct(rootBlockers)
      invariant forall n :: n in rootBlockers <==> n in order[..i] && IsRootBlocker(resources, deps, n)
    {
      var name := order[i];
      assert order[..i + 1] == order[..i] + [name];
      assert name !in order[..i];
      if name in notOK {
        var hasNotOKParent := false;
        var parents := Out(deps, name);
        var j := 0;
        while j < |parents| && !hasNotOKParent
          invariant 0 <= j <= |parents|
          invariant hasNotOKParent <==> exists k :: 0 <= k < j && parents[k] in notOK
        {
          if parents[j] in notOK {
            hasNotOKParent := true;
          }
          j := j + 1;
        }
        if !hasNotOKParent {
          rootBlockers := rootBlockers + [name];
        }
      }
    }
    assert order[..|order|] == order;
  }

  // ---- what the tree of blockers shows ----

  ghost function Missed(resources: Resources, displayed: set<string>): set<string> {
    set n | n in resources && IsNotOK(resources[n]) && n !in displayed
  }

  /** A blocked resource that is not shown depends on another such one. */
  lemma MissedIsTrapped(resources: Resources, deps: Dependencies, childrenOf: Graph<string>, displayed: set<string>)
    requires IsChildrenOf(resources, deps, childrenOf)
    requires AreDescendants(childrenOf, RootBlockers(resources, deps), displayed)
    ensures Missed(resources, displayed) == {} || Trap(deps, Missed(resources, displayed))
  {
    var missed, roots := Missed(resources, displayed), RootBlockers(resources, deps);
    DescendantsAreClosed(childrenOf, roots, displayed);
    forall n | n in missed
      ensures StaysIn(deps, missed, n)
    {
      if n in roots {
        ReachesSelf(childrenOf, n);
        assert ReachedFrom(childrenOf, roots, n);
      }
      var i :| 0 <= i < |Out(deps, n)| && Out(deps, n)[i] in NotOK(resources);
      var p := Out(deps, n)[i];
      assert DependsOn(resources, deps, n, p);
      assert n in Out(childrenOf, p);
    }
  }

  /** With acyclic dependencies every resource that is not OK is shown below
      some root blocker. */
  lemma AcyclicShowsAllBlocked(resources: Resources, deps: Dependencies, childrenOf: Graph<string>, displayed: set<string>)
    requires IsChildrenOf(resources, deps, childrenOf) && Acyclic(deps)
    requires AreDescendants(childrenOf, RootBlockers(resources, deps), displayed)
    ensures NotOK(resources) <= displayed
  {
    MissedIsTrapped(resources, deps, childrenOf, displayed);
    if Missed(resources, displayed) != {} {
      TrapHasCycle(deps, Missed(resources, displayed));
    }
    forall n | n in NotOK(resources)
      ensures n in displayed
    {
      assert n !in displayed ==> n in Missed(resources, displayed);
    }
  }

  /** There being no root blocker means that every resource that is not OK waits
      for another, and so a cycle. */
  lemma NoRootBlockersExactlyWhenTrapped(resources: Resources, deps: Dependencies)
    ensures NotOK(resources) != {} && RootBlockers(resources, deps) == {} <==> Trap(deps, NotOK(resources))
    ensures NotOK(resources) != {} && RootBlockers(resources, deps) == {} ==> !Acyclic(deps)
  {
    var notOK := NotOK(resources);
    forall n | n in notOK
      ensures StaysIn(deps, notOK, n) <==> n !in RootBlockers(resources, deps)
    {
      if StaysIn(deps, notOK, n) {
        var p :| p in notOK && p in Out(deps, n);
        var i :| 0 <= i < |Out(deps, n)| && Out(deps, n)[i] == p;
      } else {
        assert forall i :: 0 <= i < |Out(deps, n)| ==> Out(deps, n)[i] in Out(deps, n);
      }
    }
    if Trap(deps, notOK) {
      TrapHasCycle(deps, notOK);
    }
  }

  // ---- the full tree ----

  ghost predicate HasParent(resources: Resources, deps: Dependencies, n: string) {
    exists p :: DependsOn(resources, deps, n, p)
  }

  ghost predicate IsFullRoot(resources: Resources, deps: Dependencies, n: string) {
    n in resources && n != TiltfileResource && !HasParent(resources, deps, n)
  }

  /** The children's lists once the Tiltfile's has been replaced by the roots. */
  ghost predicate IsFullTree(resources: Resources, deps: Dependencies, g: Graph<string>) {
    forall p, c {:trigger c in Out(g, p)} {:trigger DependsOn(resources, deps, c, p)} ::
      c in Out(g, p) <==> if p == TiltfileResource then IsFullRoot(resources, deps, c) else DependsOn(resources, deps, c, p)
  }

  method PrepareFullTree(resources: Resources, ghost deps: Dependencies, childrenOf: Graph<string>, hasParent: set<string>, order: seq<string>)
    returns (g: Graph<string>)
    requires Lists(order, resources) && IsChildrenOf(resources, deps, childrenOf)
    requires forall c :: c in hasParent <==> HasParent(resources, deps, c)
    ensures IsFullTree(resources, deps, g)
  {
    var roots: seq<string> := [];
    for i := 0 to |order|
      invariant forall n :: n in roots <==> n in order[..i] && IsFullRoot(resources, deps, n)
    {
      var name := order[i];
      assert order[..i + 1] == order[..i] + [name];
      if name !in hasParent && name != TiltfileResource {
        roots := roots + [name];
      }
    }
    assert order[..|order|] == order;
    g := childrenOf[TiltfileResource := roots];
  }

  /** A resource all of whose dependencies that are resources are the Tiltfile. */
  ghost predicate OnlyOnTiltfile(resources: Resources, deps: Dependencies, n: string) {
    && n != TiltfileResource && HasParent(resources, deps, n)
    && forall p {:trigger DependsOn(resources, deps, n, p)} :: DependsOn(resources, deps, n, p) ==> p == TiltfileResource
  }

  lemma OnlyOnTiltfileIsLost(resources: Resources, deps: Dependencies, g: Graph<string>, n: string)
    requires IsFullTree(resources, deps, g) && OnlyOnTiltfile(resources, deps, n)
    ensures !Reaches(g, TiltfileResource, n)
  {
    if Reaches(g, TiltfileResource, n) {
      var p := ReachesLastEdge(g, TiltfileResource, n);
    }
  }

  ghost function Unshown(resources: Resources, g: Graph<string>): set<string> {
    set n | n in resources && n != TiltfileResource && !Reaches(g, TiltfileResource, n)
  }

  lemma UnshownIsTrapped(resources: Resources, deps: Dependencies, g: Graph<string>)
    requires IsFullTree(resources, deps, g)
    requires forall n :: n in resources ==> !OnlyOnTiltfile(resources, deps, n)
    ensures Unshown(resources, g) == {} || Trap(deps, Unshown(resources, g))
  {
    var unshown := Unshown(resources, g);
    forall n | n in unshown
      ensures StaysIn(deps, unshown, n)
    {
      if IsFullRoot(resources, deps, n) {
        ReachesSelf(g, n);
        ReachesStep(g, TiltfileResource, n, n);
      }
      var p :| DependsOn(resources, deps, n, p) && p != TiltfileResource;
      assert n in Out(g, p);
      if Reaches(g, TiltfileResource, p) {
        ReachesOnward(g, TiltfileResource, p, n);
      }
    }
  }

  /** With acyclic dependencies the full tree shows every resource, exactly when
      none depends on the Tiltfile alone: its list of children is overwritten. */
  lemma FullTreeShowsAllExactlyWhen(resources: Resources, deps: Dependencies, g: Graph<string>)
    requires IsFullTree(resources, deps, g) && Acyclic(deps)
    ensures (forall n :: n in resources && n != TiltfileResource ==> Reaches(g, TiltfileResource, n))
            <==> (forall n :: n in resources ==> !OnlyOnTiltfile(resources, deps, n))
  {
    forall n | n in resources && OnlyOnTiltfile(resources, deps, n)
      ensures !Reaches(g, TiltfileResource, n)
    {
      OnlyOnTiltfileIsLost(resources, deps, g, n);
    }
    if forall n :: n in resources ==> !OnlyOnTiltfile(resources, deps, n) {
      UnshownIsTrapped(resources, deps, g);
      if Unshown(resources, g) != {} {
        TrapHasCycle(deps, Unshown(resources, g));
      }
      forall n | n in resources && n != TiltfileResource
        ensures Reaches(g, TiltfileResource, n)
      {
        assert n !in Unshown(resources, g);
      }
    }
  }
}
