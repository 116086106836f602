/** The order in which `tilt down` deletes resources: every resource before the
    ones it depends on. Nodes are numbered as the source lists them, from the
    last manifest to the first. */
module DeletionOrder {
  import opened Shared
  import opened Graphs

  type Name = string

  datatype Manifest = Manifest(name: Name, resourceDependencies: seq<Name>)

  /** dependents[k]: the nodes that depend on node k, in the order found. */
  type Dependents = seq<seq<nat>>

  function Reversed<T>(s: seq<T>): (r: seq<T>)
    ensures |r| == |s| && forall i :: 0 <= i < |s| ==> r[i] == s[|s| - 1 - i]
  {
    if s == [] then [] else [s[|s| - 1]] + Reversed(s[..|s| - 1])
  }

  // ---- which node a dependency name stands for ----

  /** nodeMap[name]: the last node of that name to be put in the map. */
  function Resolve(ms: seq<Manifest>, name: Name): (r: Option<nat>)
    ensures r.Some? ==> r.value < |ms| && ms[r.value].name == name
    ensures r.Some? ==> forall i :: r.value < i < |ms| ==> ms[i].name != name
    ensures r.None? ==> forall i :: 0 <= i < |ms| ==> ms[i].name != name
  {
    if ms == [] then None
    else if ms[|ms| - 1].name == name then Some(|ms| - 1)
    else Resolve(ms[..|ms| - 1], name)
  }

  /** The nodes a list of names stands for; unknown names are dropped. */
  function ResolveAll(ms: seq<Manifest>, names: seq<Name>): seq<nat> {
    if names == [] then []
    else
      var rest := ResolveAll(ms, names[..|names| - 1]);
      match Resolve(ms, names[|names| - 1])
      case None => rest
      case Some(k) => rest + [k]
  }

  function Dependencies(ms: seq<Manifest>): Graph<nat> {
    map j: nat | j < |ms| :: ResolveAll(ms, ms[j].resourceDependencies)
  }

  ghost predicate InRange(ks: seq<nat>, n: nat) {
    forall i :: 0 <= i < |ks| ==> ks[i] < n
  }

  ghost predicate WellIndexed(g: Dependents) {
    forall k :: 0 <= k < |g| ==> InRange(g[k], |g|)
  }

  /** One edge per resolved dependency, added to the dependency's node. */
  function AddEdge(ms: seq<Manifest>, g: Dependents, j: nat, dep: Name): (r: Dependents)
    requires |g| == |ms|
    ensures |r| == |g|
  {
    match Resolve(ms, dep)
    case None => g
    case Some(k) => g[k := g[k] + [j]]
  }

  function AddEdges(ms: seq<Manifest>, g: Dependents, j: nat, deps: seq<Name>): (r: Dependents)
    requires |g| == |ms|
    ensures |r| == |g|
  {
    if deps == [] then g
    else AddEdge(ms, AddEdges(ms, g, j, deps[..|deps| - 1]), j, deps[|deps| - 1])
  }

  function DependentsOfFirst(ms: seq<Manifest>, n: nat): (r: Dependents)
    requires n <= |ms|
    ensures |r| == |ms|
  {
    if n == 0 then seq(|ms|, _ => [])
    else AddEdges(ms, DependentsOfFirst(ms, n - 1), n - 1, ms[n - 1].resourceDependencies)
  }

  function DependentsOf(ms: seq<Manifest>): (r: Dependents)
    ensures |r| == |ms|
  {
    DependentsOfFirst(ms, |ms|)
  }

  lemma {:induction false} EdgesAdded(ms: seq<Manifest>, g: Dependents, j: nat, deps: seq<Name>, k: nat, i: nat)
    requires |g| == |ms| && k < |ms|
    ensures i in AddEdges(ms, g, j, deps)[k] <==> i in g[k] || (i == j && k in ResolveAll(ms, deps))
    decreases |deps|
  {
    if deps != [] {
      EdgesAdded(ms, g, j, deps[..|deps| - 1], k, i);
    }
  }

  lemma {:induction false} DependentsOfFirstAre(ms: seq<Manifest>, n: nat, k: nat, i: nat)
    requires n <= |ms| && k < |ms|
    ensures i in DependentsOfFirst(ms, n)[k] <==> i < n && k in ResolveAll(ms, ms[i].resourceDependencies)
    decreases n
  {
    if n > 0 {
      DependentsOfFirstAre(ms, n - 1, k, i);
      EdgesAdded(ms, DependentsOfFirst(ms, n - 1), n - 1, ms[n - 1].resourceDependencies, k, i);
    }
  }

  /** The dependents lists are the dependency lists turned around. */
  lemma DependentsReverseDependencies(ms: seq<Manifest>, k: nat, i: nat)
    requires k < |ms|
    ensures i in DependentsOf(ms)[k] <==> i < |ms| && k in Out(Dependencies(ms), i)
  {
    DependentsOfFirstAre(ms, |ms|, k, i);
  }

  lemma DependentsWellIndexed(ms: seq<Manifest>)
    ensures WellIndexed(DependentsOf(ms))
  {
    forall k, i | 0 <= k < |ms| && 0 <= i < |DependentsOf(ms)[k]|
      ensures DependentsOf(ms)[k][i] < |ms|
    {
      DependentsOfFirstAre(ms, |ms|, k, DependentsOf(ms)[k][i]);
    }
  }

  // ---- depth-first post-order ----

  function Unseen(g: Dependents, seen: set<nat>): set<nat> {
    set k: nat | k < |g| && k !in seen
  }

  /** The nodes seen after visiting k, and those emitted, dependents first. */
  function Visit(g: Dependents, seen: set<nat>, k: nat): (r: (set<nat>, seq<nat>))
    requires WellIndexed(g) && k < |g|
    ensures seen <= r.0
    decreases |Unseen(g, seen)|, 0
  {
    if k in seen then (seen, [])
    else
      assert Unseen(g, seen + {k}) == Unseen(g, seen) - {k};
      var (seen', order) := VisitAll(g, seen + {k}, g[k]);
      (seen', order + [k])
  }

  function VisitAll(g: Dependents, seen: set<nat>, ks: seq<nat>): (r: (set<nat>, seq<nat>))
    requires WellIndexed(g) && InRange(ks, |g|)
    ensures seen <= r.0
    decreases |Unseen(g, seen)|, |ks|
  {
    if ks == [] then (seen, [])
    else
      var (seen1, order1) := Visit(g, seen, ks[0]);
      UnseenShrinks(g, seen, seen1);
      var (seen2, order2) := VisitAll(g, seen1, ks[1..]);
      (seen2, order1 + order2)
  }

  lemma UnseenShrinks(g: Dependents, seen: set<nat>, seen': set<nat>)
    requires seen <= seen'
    ensures |Unseen(g, seen')| <= |Unseen(g, seen)|
  {
    var more := Unseen(g, seen) - Unseen(g, seen');
    assert Unseen(g, seen) == Unseen(g, seen') + more;
  }

  function Upto(n: nat): (r: seq<nat>)
    ensures |r| == n && forall i :: 0 <= i < n ==> r[i] == i
  {
    seq(n, i requires 0 <= i < n => i)
  }

  function PostOrder(g: Dependents): seq<nat>
    requires WellIndexed(g)
  {
    VisitAll(g, {}, Upto(|g|)).1
  }

  /** The manifests to delete, in order, as positions in the reversed list. */
  function Enabled(ms: seq<Manifest>, enabled: set<Name>, order: seq<nat>): seq<nat>
    requires InRange(order, |ms|)
  {
    if order == [] then []
    else
      var rest := Enabled(ms, enabled, order[..|order| - 1]);
      var k := order[|order| - 1];
      if ms[k].name in enabled then rest + [k] else rest
  }

  // ---- every node exactly once, whatever the dependencies ----

  ghost predicate EmittedIsNew(seen: set<nat>, r: (set<nat>, seq<nat>)) {
    && Distinct(r.1)
    && (forall k :: k in r.1 ==> k !in seen)
    && r.0 == seen + set k | k in r.1
  }

  lemma EmittedLast(seen: set<nat>, k: nat, r: (set<nat>, seq<nat>))
    requires EmittedIsNew(seen + {k}, r) && k !in seen
    ensures EmittedIsNew(seen, (r.0, r.1 + [k]))
  {
    assert (set x | x in r.1 + [k]) == (set x | x in r.1) + {k};
  }

  lemma {:induction false} VisitEmits(g: Dependents, seen: set<nat>, k: nat)
    requires WellIndexed(g) && k < |g|
    ensures EmittedIsNew(seen, Visit(g, seen, k)) && k in Visit(g, seen, k).0
    decreases |Unseen(g, seen)|, 0
  {
    if k !in seen {
      assert Unseen(g, seen + {k}) == Unseen(g, seen) - {k};
      VisitAllEmits(g, seen + {k}, g[k]);
      EmittedLast(seen, k, VisitAll(g, seen + {k}, g[k]));
    }
  }

  lemma {:induction false} VisitAllEmits(g: Dependents, seen: set<nat>, ks: seq<nat>)
    requires WellIndexed(g) && InRange(ks, |g|)
    ensures EmittedIsNew(seen, VisitAll(g, seen, ks)) && forall k :: k in ks ==> k in VisitAll(g, seen, ks).0
    decreases |Unseen(g, seen)|, |ks|
  {
    if ks != [] {
      VisitEmits(g, seen, ks[0]);
      var (seen1, order1) := Visit(g, seen, ks[0]);
      UnseenShrinks(g, seen, seen1);
      VisitAllEmits(g, seen1, ks[1..]);
      var (seen2, order2) := VisitAll(g, seen1, ks[1..]);
      assert (set x | x in order1 + order2) == (set x | x in order1) + (set x | x in order2);
      forall i, j | 0 <= i < j < |order1 + order2|
        ensures (order1 + order2)[i] != (order1 + order2)[j]
      {
        if i < |order1| <= j {
          assert order1[i] in seen1 && order2[j - |order1|] in order2;
        }
      }
    }
  }

  /** Post-order terminates and lists every node exactly once, cycles and
      unknown names included. */
  lemma PostOrderIsPermutation(g: Dependents)
    requires WellIndexed(g)
    ensures Distinct(PostOrder(g)) && InRange(PostOrder(g), |g|)
    ensures forall k: nat :: k in PostOrder(g) <==> k < |g|
  {
    VisitAllEmits(g, {}, Upto(|g|));
    var (seen, order) := VisitAll(g, {}, Upto(|g|));
    forall k: nat
      ensures k in order ==> k < |g|
      ensures k < |g| ==> k in order
    {
      VisitAllInRange(g, {}, Upto(|g|), k);
      if k < |g| {
        assert Upto(|g|)[k] == k;
        assert k in seen;
      }
    }
    assert forall i :: 0 <= i < |order| ==> order[i] in order;
  }

  lemma {:induction false} VisitInRange(g: Dependents, seen: set<nat>, k: nat, x: nat)
    requires WellIndexed(g) && k < |g|
    ensures x in Visit(g, seen, k).1 ==> x < |g|
    decreases |Unseen(g, seen)|, 0
  {
    if k !in seen {
      assert Unseen(g, seen + {k}) == Unseen(g, seen) - {k};
      VisitAllInRange(g, seen + {k}, g[k], x);
    }
  }

  lemma {:induction false} VisitAllInRange(g: Dependents, seen: set<nat>, ks: seq<nat>, x: nat)
    requires WellIndexed(g) && InRange(ks, |g|)
    ensures x in VisitAll(g, seen, ks).1 ==> x < |g|
    decreases |Unseen(g, seen)|, |ks|
  {
    if ks != [] {
      VisitInRange(g, seen, ks[0], x);
      UnseenShrinks(g, seen, Visit(g, seen, ks[0]).0);
      VisitAllInRange(g, Visit(g, seen, ks[0]).0, ks[1..], x);
    }
  }

  // ---- dependents first ----

  /** The edges of g are those of d turned around. */
  ghost predicate TurnsAround(g: Dependents, d: Graph<nat>) {
    forall k, j :: 0 <= k < |g| && j in g[k] ==> k in Out(d, j)
  }

  /** Every emitted node comes after each of its dependents, unless it depends on
      that one in turn. */
  ghost predicate DependentsFirst(g: Dependents, d: Graph<nat>, order: seq<nat>) {
    forall i :: 0 <= i < |order| ==> order[i] < |g| && EmittedAfter(g, d, order[..i], order[i])
  }

  ghost predicate EmittedAfter(g: Dependents, d: Graph<nat>, before: seq<nat>, k: nat)
    requires k < |g|
  {
    forall j :: j in g[k] ==> j in before || Reaches(d, k, j)
  }

  /** Nodes begun but not emitted. */
  predicate Begun(seen: set<nat>, done: seq<nat>, x: nat) {
    x in seen && x !in done
  }

  /** The node about to be visited depends on every node begun. */
  ghost predicate BelowBegun(d: Graph<nat>, seen: set<nat>, done: seq<nat>, k: nat) {
    forall x :: Begun(seen, done, x) ==> Reaches(d, k, x)
  }

  lemma DependentsFirstExtend(g: Dependents, d: Graph<nat>, order: seq<nat>, k: nat)
    requires DependentsFirst(g, d, order) && k < |g| && EmittedAfter(g, d, order, k)
    ensures DependentsFirst(g, d, order + [k])
  {
    var more := order + [k];
    forall i | 0 <= i < |more|
      ensures more[i] < |g| && EmittedAfter(g, d, more[..i], more[i])
    {
      assert more[..i] == order[..i];
      if i == |order| {
        assert order[..i] == order;
      }
    }
  }

  /** A dependent of k depends on k and on all that k is below. */
  lemma DependentBelowBegun(g: Dependents, d: Graph<nat>, seen: set<nat>, done: seq<nat>, k: nat, j: nat)
    requires TurnsAround(g, d) && k < |g| && j in g[k] && BelowBegun(d, seen, done, k)
    ensures BelowBegun(d, seen + {k}, done, j)
  {
    forall x | Begun(seen + {k}, done, x)
      ensures Reaches(d, j, x)
    {
      if x == k {
        ReachesSelf(d, k);
      }
      ReachesStep(d, j, k, x);
    }
  }

  lemma {:induction false} VisitDependentsFirst(g: Dependents, d: Graph<nat>, seen: set<nat>, done: seq<nat>, k: nat)
    requires WellIndexed(g) && k < |g| && TurnsAround(g, d)
    requires DependentsFirst(g, d, done) && (forall x :: x in done ==> x in seen)
    requires BelowBegun(d, seen, done, k)
    ensures DependentsFirst(g, d, done + Visit(g, seen, k).1)
    ensures k in done + Visit(g, seen, k).1 || Begun(seen, done, k)
    decreases |Unseen(g, seen)|, 0
  {
    if k in seen {
      assert done + [] == done;
    } else {
      assert Unseen(g, seen + {k}) == Unseen(g, seen) - {k};
      forall j | j in g[k]
        ensures BelowBegun(d, seen + {k}, done, j)
      {
        DependentBelowBegun(g, d, seen, done, k, j);
      }
      VisitAllDependentsFirst(g, d, seen + {k}, done, g[k]);
      var order := VisitAll(g, seen + {k}, g[k]).1;
      forall j | j in g[k]
        ensures j in done + order || Reaches(d, k, j)
      {
        if j == k {
          ReachesSelf(d, k);
        }
      }
      DependentsFirstExtend(g, d, done + order, k);
      assert done + order + [k] == done + (order + [k]);
    }
  }

  lemma {:induction false} VisitAllDependentsFirst(g: Dependents, d: Graph<nat>, seen: set<nat>, done: seq<nat>, ks: seq<nat>)
    requires WellIndexed(g) && InRange(ks, |g|) && TurnsAround(g, d)
    requires DependentsFirst(g, d, done) && (forall x :: x in done ==> x in seen)
    requires forall k :: k in ks ==> BelowBegun(d, seen, done, k)
    ensures DependentsFirst(g, d, done + VisitAll(g, seen, ks).1)
    ensures forall k :: k in ks ==> k in done + VisitAll(g, seen, ks).1 || Begun(seen, done, k)
    decreases |Unseen(g, seen)|, |ks|
  {
    if ks == [] {
      assert done + [] == done;
    } else {
      var (seen1, order1) := Visit(g, seen, ks[0]);
      VisitDependentsFirst(g, d, seen, done, ks[0]);
      VisitEmits(g, seen, ks[0]);
      UnseenShrinks(g, seen, seen1);
      var done1 := done + order1;
      assert forall x :: Begun(seen1, done1, x) <==> Begun(seen, done, x);
      forall k | k in ks[1..]
        ensures BelowBegun(d, seen1, done1, k)
      {
        assert BelowBegun(d, seen, done, k);
      }
      VisitAllDependentsFirst(g, d, seen1, done1, ks[1..]);
      var order2 := VisitAll(g, seen1, ks[1..]).1;
      assert done1 + order2 == done + (order1 + order2);
    }
  }

  lemma PostOrderDependentsFirst(g: Dependents, d: Graph<nat>)
    requires WellIndexed(g) && TurnsAround(g, d)
    ensures DependentsFirst(g, d, PostOrder(g))
  {
    VisitAllDependentsFirst(g, d, {}, [], Upto(|g|));
    assert [] + PostOrder(g) == PostOrder(g);
  }

  /** x stands before y. */
  ghost predicate Before<T>(s: seq<T>, x: T, y: T) {
    exists i, j :: 0 <= i < j < |s| && s[i] == x && s[j] == y
  }

  lemma BeforeTransitive<T>(s: seq<T>, x: T, y: T, z: T)
    requires Distinct(s) && Before(s, x, y) && Before(s, y, z)
    ensures Before(s, x, z)
  {
    var i, j :| 0 <= i < j < |s| && s[i] == x && s[j] == y;
    var j', k :| 0 <= j' < k < |s| && s[j'] == y && s[k] == z;
    assert j == j';
  }

  lemma DependentsTurnAround(ms: seq<Manifest>)
    ensures TurnsAround(DependentsOf(ms), Dependencies(ms))
  {
    var g := DependentsOf(ms);
    forall k, j | 0 <= k < |g| && j in g[k]
      ensures k in Out(Dependencies(ms), j)
    {
      DependentsReverseDependencies(ms, k, j);
    }
  }

  /** Whatever cycles lie elsewhere: a stands before b on which it depends, unless
      b depends on a in turn. */
  lemma DirectDependentBefore(ms: seq<Manifest>, a: nat, b: nat)
    requires b in Out(Dependencies(ms), a) && b < |ms| && !Reaches(Dependencies(ms), b, a)
    ensures WellIndexed(DependentsOf(ms)) && Before(PostOrder(DependentsOf(ms)), a, b)
  {
    DependentsWellIndexed(ms);
    var g := DependentsOf(ms);
    DependentsTurnAround(ms);
    PostOrderDependentsFirst(g, Dependencies(ms));
    PostOrderIsPermutation(g);
    var order := PostOrder(g);
    assert b in order;
    var j :| 0 <= j < |order| && order[j] == b;
    DependentsReverseDependencies(ms, b, a);
    assert EmittedAfter(g, Dependencies(ms), order[..j], b);
    assert a in order[..j];
    var i :| 0 <= i < j && order[..j][i] == a;
    assert order[i] == a;
  }

  lemma AcyclicDependentBefore(ms: seq<Manifest>, a: nat, b: nat)
    requires Acyclic(Dependencies(ms)) && b in Out(Dependencies(ms), a) && b < |ms|
    ensures WellIndexed(DependentsOf(ms)) && Before(PostOrder(DependentsOf(ms)), a, b)
  {
    if Reaches(Dependencies(ms), b, a) {
      EdgeAndWayBack(Dependencies(ms), a, b);
    }
    DirectDependentBefore(ms, a, b);
  }

  lemma {:induction false} ResolvedInRange(ms: seq<Manifest>, names: seq<Name>)
    ensures InRange(ResolveAll(ms, names), |ms|)
    decreases |names|
  {
    if names != [] {
      ResolvedInRange(ms, names[..|names| - 1]);
    }
  }

  /** A node stands before everything it depends on, directly or through
      others. */
  lemma {:induction false} DependentBefore(ms: seq<Manifest>, p: seq<nat>)
    requires Acyclic(Dependencies(ms)) && IsWalk(Dependencies(ms), p) && |p| >= 2
    ensures WellIndexed(DependentsOf(ms)) && Before(PostOrder(DependentsOf(ms)), p[0], p[|p| - 1])
    decreases |p|
  {
    assert p[0 + 1] in Out(Dependencies(ms), p[0]);
    ResolvedInRange(ms, ms[p[0]].resourceDependencies);
    AcyclicDependentBefore(ms, p[0], p[1]);
    if |p| > 2 {
      var q := p[1..];
      assert forall i :: 0 <= i < |q| - 1 ==> q[i + 1] in Out(Dependencies(ms), q[i]);
      DependentBefore(ms, q);
      PostOrderIsPermutation(DependentsOf(ms));
      BeforeTransitive(PostOrder(DependentsOf(ms)), p[0], p[1], p[|p| - 1]);
    }
  }

  // ---- keeping only the enabled ones ----

  lemma {:induction false} EnabledKeeps(ms: seq<Manifest>, enabled: set<Name>, order: seq<nat>)
    requires InRange(order, |ms|) && Distinct(order)
    ensures Distinct(Enabled(ms, enabled, order)) && InRange(Enabled(ms, enabled, order), |ms|)
    ensures forall k: nat :: k in Enabled(ms, enabled, order) <==> k in order && ms[k].name in enabled
    decreases |order|
  {
    if order != [] {
      var rest, k := order[..|order| - 1], order[|order| - 1];
      EnabledKeeps(ms, enabled, rest);
      forall x: nat
        ensures x in order <==> x in rest || x == k
      {
        assert order == rest + [k];
      }
      assert k !in rest;
    }
  }

  lemma {:induction false} EnabledKeepsOrder(ms: seq<Manifest>, enabled: set<Name>, order: seq<nat>, x: nat, y: nat)
    requires InRange(order, |ms|) && Distinct(order) && Before(order, x, y)
    requires ms[x].name in enabled && ms[y].name in enabled
    ensures Before(Enabled(ms, enabled, order), x, y)
    decreases |order|
  {
    var rest, k := order[..|order| - 1], order[|order| - 1];
    var i, j :| 0 <= i < j < |order| && order[i] == x && order[j] == y;
    EnabledKeeps(ms, enabled, rest);
    var kept := Enabled(ms, enabled, rest);
    if j < |rest| {
      assert rest[i] == x && rest[j] == y;
      EnabledKeepsOrder(ms, enabled, rest, x, y);
      var i', j' :| 0 <= i' < j' < |kept| && kept[i'] == x && kept[j'] == y;
      assert Enabled(ms, enabled, order)[i'] == x && Enabled(ms, enabled, order)[j'] == y;
    } else {
      assert rest[i] == x && x in kept;
      var i' :| 0 <= i' < |kept| && kept[i'] == x;
      assert Enabled(ms, enabled, order)[i'] == x && Enabled(ms, enabled, order)[|kept|] == y;
    }
  }

  /** The deletion order of `manifests`, as nodes of the reversed list. */
  function Deleted(manifests: seq<Manifest>, enabled: set<Name>): (order: seq<nat>)
    ensures InRange(order, |manifests|)
  {
    var ms := Reversed(manifests);
    DependentsWellIndexed(ms);
    PostOrderIsPermutation(DependentsOf(ms));
    EnabledKeeps(ms, enabled, PostOrder(DependentsOf(ms)));
    Enabled(ms, enabled, PostOrder(DependentsOf(ms)))
  }

  function Pick<T>(ts: seq<T>, ks: seq<nat>): (r: seq<T>)
    requires InRange(ks, |ts|)
    ensures |r| == |ks| && forall i :: 0 <= i < |ks| ==> r[i] == ts[ks[i]]
  {
    seq(|ks|, i requires 0 <= i < |ks| => ts[ks[i]])
  }

  /** Each enabled manifest is deleted once and nothing else is, for any
      dependency lists at all. */
  lemma EachEnabledOnce(manifests: seq<Manifest>, enabled: set<Name>)
    ensures Distinct(Deleted(manifests, enabled))
    ensures forall k: nat :: k in Deleted(manifests, enabled) <==>
              k < |manifests| && Reversed(manifests)[k].name in enabled
  {
    var ms := Reversed(manifests);
    DependentsWellIndexed(ms);
    PostOrderIsPermutation(DependentsOf(ms));
    EnabledKeeps(ms, enabled, PostOrder(DependentsOf(ms)));
  }

  /** An enabled manifest that depends on an enabled one is deleted before it,
      unless that one depends on it in turn. */
  lemma DirectDependentDeletedFirst(manifests: seq<Manifest>, enabled: set<Name>, a: nat, b: nat)
    requires a < |manifests| && b < |manifests|
    requires var ms := Reversed(manifests);
             && b in Out(Dependencies(ms), a) && !Reaches(Dependencies(ms), b, a)
             && ms[a].name in enabled && ms[b].name in enabled
    ensures Before(Deleted(manifests, enabled), a, b)
  {
    var ms := Reversed(manifests);
    DirectDependentBefore(ms, a, b);
    PostOrderIsPermutation(DependentsOf(ms));
    EnabledKeepsOrder(ms, enabled, PostOrder(DependentsOf(ms)), a, b);
  }

  // ---- exactly the acyclic inputs can be ordered ----

  /** Every dependent comes before what it depends on. */
  ghost predicate Respects(ms: seq<Manifest>, order: seq<nat>) {
    forall i: nat, j: nat :: i < |ms| && j in Out(Dependencies(ms), i) ==> Before(order, i, j)
  }

  lemma RespectedIsAcyclic(ms: seq<Manifest>, order: seq<nat>)
    requires Respects(ms, order) && Distinct(order) && forall k: nat :: k in order <==> k < |ms|
    ensures Acyclic(Dependencies(ms))
  {
    var rank: map<nat, nat> := map k | k in order :: |order| - IndexOf(order, k);
    forall i, j | i in Dependencies(ms) && j in Dependencies(ms)[i]
      ensures i in rank && j in rank && rank[j] < rank[i]
    {
      assert j in Out(Dependencies(ms), i);
      assert Before(order, i, j);
    }
    RankedIsAcyclic(Dependencies(ms), rank);
  }

  /** Dependents-before-dependencies holds for every pair if and only if the
      dependencies have no cycle. */
  lemma RespectsDependenciesExactlyWhenAcyclic(ms: seq<Manifest>)
    ensures WellIndexed(DependentsOf(ms))
    ensures Respects(ms, PostOrder(DependentsOf(ms))) <==> Acyclic(Dependencies(ms))
  {
    DependentsWellIndexed(ms);
    var order := PostOrder(DependentsOf(ms));
    PostOrderIsPermutation(DependentsOf(ms));
    if Respects(ms, order) {
      RespectedIsAcyclic(ms, order);
    }
    if Acyclic(Dependencies(ms)) {
      forall i: nat, j: nat | i < |ms| && j in Out(Dependencies(ms), i)
        ensures Before(order, i, j)
      {
        ResolvedInRange(ms, ms[i].resourceDependencies);
        AcyclicDependentBefore(ms, i, j);
      }
    }
  }

  ghost function IndexOf<T(!new)>(s: seq<T>, x: T): (i: nat)
    requires x in s
    ensures i < |s| && s[i] == x
  {
    var i :| 0 <= i < |s| && s[i] == x;
    i
  }

  // ---- the same in terms of names ----

  /** Dependencies as the Tiltfile writes them: from names to names. Where a
      name is repeated, the node it resolves to counts. */
  function NameGraph(ms: seq<Manifest>): Graph<Name> {
    if ms == [] then map[]
    else
      var last := ms[|ms| - 1];
      NameGraph(ms[..|ms| - 1])[last.name := last.resourceDependencies]
  }

  lemma {:induction false} NameGraphResolves(ms: seq<Manifest>, name: Name)
    ensures match Resolve(ms, name)
            case None => name !in NameGraph(ms)
            case Some(k) => name in NameGraph(ms) && NameGraph(ms)[name] == ms[k].resourceDependencies
    decreases |ms|
  {
    if ms != [] {
      NameGraphResolves(ms[..|ms| - 1], name);
    }
  }

  lemma {:induction false} ResolveAllResolves(ms: seq<Manifest>, names: seq<Name>, k: nat)
    ensures k in ResolveAll(ms, names) <==> exists name :: name in names && Resolve(ms, name) == Some(k)
    decreases |names|
  {
    if names != [] {
      var rest, last := names[..|names| - 1], names[|names| - 1];
      ResolveAllResolves(ms, rest, k);
      assert names == rest + [last];
      assert forall name :: name in names <==> name in rest || name == last;
      assert k in ResolveAll(ms, names) <==> k in ResolveAll(ms, rest) || Resolve(ms, last) == Some(k);
    }
  }

  /** A dependency edge between nodes is one between their names. */
  lemma NodeEdgeIsNameEdge(ms: seq<Manifest>, i: nat, j: nat)
    requires i < |ms| && Resolve(ms, ms[i].name) == Some(i) && j in Out(Dependencies(ms), i)
    ensures j < |ms| && Resolve(ms, ms[j].name) == Some(j) && ms[j].name in Out(NameGraph(ms), ms[i].name)
  {
    ResolveAllResolves(ms, ms[i].resourceDependencies, j);
    NameGraphResolves(ms, ms[i].name);
  }

  lemma {:induction false} NodeWalkIsNameWalk(ms: seq<Manifest>, p: seq<nat>)
    requires IsWalk(Dependencies(ms), p) && p[0] < |ms| && Resolve(ms, ms[p[0]].name) == Some(p[0])
    ensures InRange(p, |ms|) && IsWalk(NameGraph(ms), NamesOf(ms, p))
    decreases |p|
  {
    if |p| > 1 {
      assert p[0 + 1] in Out(Dependencies(ms), p[0]);
      NodeEdgeIsNameEdge(ms, p[0], p[1]);
      var q := p[1..];
      assert forall i :: 0 <= i < |q| - 1 ==> q[i + 1] in Out(Dependencies(ms), q[i]);
      NodeWalkIsNameWalk(ms, q);
      forall i | 0 <= i < |p|
        ensures p[i] < |ms|
      {
        assert i > 0 ==> p[i] == q[i - 1];
      }
      var names := NamesOf(ms, p);
      forall i | 0 <= i < |names| - 1
        ensures names[i + 1] in Out(NameGraph(ms), names[i])
      {
        if i > 0 {
          assert names[i] == NamesOf(ms, q)[i - 1] && names[i + 1] == NamesOf(ms, q)[i];
        }
      }
    }
  }

  function NamesOf(ms: seq<Manifest>, p: seq<nat>): (names: seq<Name>)
    requires InRange(p, |ms|)
    ensures |names| == |p| && forall i :: 0 <= i < |p| ==> names[i] == ms[p[i]].name
  {
    seq(|p|, i requires 0 <= i < |p| => ms[p[i]].name)
  }

  lemma NamesAcyclicNodesAcyclic(ms: seq<Manifest>)
    requires Acyclic(NameGraph(ms))
    ensures Acyclic(Dependencies(ms))
  {
    forall p: seq<nat>
      ensures !Closed(Dependencies(ms), p)
    {
      if Closed(Dependencies(ms), p) {
        var n := |p|;
        assert p[n - 2 + 1] in Out(Dependencies(ms), p[n - 2]);
        ResolveAllResolves(ms, ms[p[n - 2]].resourceDependencies, p[n - 1]);
        NodeWalkIsNameWalk(ms, p);
        assert Closed(NameGraph(ms), NamesOf(ms, p));
      }
    }
  }

  /** A walk over names is one over the nodes they stand for. */
  lemma {:induction false} NameWalkIsNodeWalk(ms: seq<Manifest>, names: seq<Name>) returns (p: seq<nat>)
    requires IsWalk(NameGraph(ms), names) && Resolve(ms, names[|names| - 1]).Some?
    ensures IsWalk(Dependencies(ms), p) && |p| == |names|
    ensures Resolve(ms, names[0]) == Some(p[0]) && Resolve(ms, names[|names| - 1]) == Some(p[|p| - 1])
    decreases |names|
  {
    if |names| == 1 {
      p := [Resolve(ms, names[0]).value];
    } else {
      assert names[0 + 1] in Out(NameGraph(ms), names[0]);
      NameGraphResolves(ms, names[0]);
      var i := Resolve(ms, names[0]).value;
      var rest := names[1..];
      assert forall i :: 0 <= i < |rest| - 1 ==> rest[i + 1] in Out(NameGraph(ms), rest[i]);
      var q := NameWalkIsNodeWalk(ms, rest);
      ResolveAllResolves(ms, ms[i].resourceDependencies, q[0]);
      p := [i] + q;
      forall j | 0 <= j < |p| - 1
        ensures p[j + 1] in Out(Dependencies(ms), p[j])
      {
        if j > 0 {
          assert p[j] == q[j - 1] && p[j + 1] == q[j];
        }
      }
    }
  }

  /** Whenever an enabled resource depends on an enabled resource, directly or
      through others that may be disabled, it is deleted first. */
  lemma DependentDeletedFirst(manifests: seq<Manifest>, enabled: set<Name>, a: Name, b: Name)
    requires var ms := Reversed(manifests);
             && Acyclic(NameGraph(ms))
             && Reaches(NameGraph(ms), a, b) && a != b
             && Resolve(ms, a).Some? && Resolve(ms, b).Some?
    requires a in enabled && b in enabled
    ensures var ms := Reversed(manifests);
            Before(Deleted(manifests, enabled), Resolve(ms, a).value, Resolve(ms, b).value)
  {
    var ms := Reversed(manifests);
    NamesAcyclicNodesAcyclic(ms);
    var names :| IsWalk(NameGraph(ms), names) && names[0] == a && names[|names| - 1] == b;
    var p := NameWalkIsNodeWalk(ms, names);
    DependentBefore(ms, p);
    PostOrderIsPermutation(DependentsOf(ms));
    EnabledKeepsOrder(ms, enabled, PostOrder(DependentsOf(ms)), p[0], p[|p| - 1]);
  }
}
