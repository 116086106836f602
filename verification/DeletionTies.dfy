/** The order of manifests that their dependencies do not decide: the one listed
    later goes first, unless something the other depends on draws that one ahead. */
module DeletionTies {
  import opened Shared
  import opened Graphs
  import opened DeletionOrder

  /** Before every j in s there is an i. */
  ghost predicate Precedes(s: seq<nat>, i: nat, j: nat) {
    forall b :: 0 <= b < |s| && s[b] == j ==> i in s[..b]
  }

  lemma PrecedesSnoc(s: seq<nat>, x: nat, i: nat, j: nat)
    requires Precedes(s, i, j) && (x == j ==> i in s)
    ensures Precedes(s + [x], i, j)
  {
    var more := s + [x];
    forall b | 0 <= b < |more| && more[b] == j
      ensures i in more[..b]
    {
      assert more[..b] == s[..b];
      assert b == |s| ==> s[..b] == s;
    }
  }

  lemma PrecedesRest(s: seq<nat>, i: nat, j: nat)
    requires s != [] && Precedes(s, i, j) && s[0] != i
    ensures Precedes(s[1..], i, j)
  {
    var rest := s[1..];
    forall b | 0 <= b < |rest| && rest[b] == j
      ensures i in rest[..b]
    {
      assert s[b + 1] == j;
      assert s[..b + 1] == [s[0]] + rest[..b];
    }
  }

  // ---- the lists of dependents ----

  /** i depends directly on whatever j depends on directly. */
  ghost predicate SharesDependencies(d: Graph<nat>, i: nat, j: nat) {
    forall m :: m in Out(d, j) ==> m in Out(d, i)
  }

  lemma {:induction false} EdgesPrecede(ms: seq<Manifest>, g: Dependents, n: nat, deps: seq<Name>, m: nat, i: nat, j: nat)
    requires |g| == |ms| && m < |ms| && Precedes(g[m], i, j)
    requires n == j && m in ResolveAll(ms, deps) ==> i in g[m]
    ensures Precedes(AddEdges(ms, g, n, deps)[m], i, j)
    ensures forall x :: x in g[m] ==> x in AddEdges(ms, g, n, deps)[m]
    decreases |deps|
  {
    if deps != [] {
      var init := deps[..|deps| - 1];
      EdgesPrecede(ms, g, n, init, m, i, j);
      if Resolve(ms, deps[|deps| - 1]) == Some(m) {
        PrecedesSnoc(AddEdges(ms, g, n, init)[m], n, i, j);
      }
    }
  }

  lemma {:induction false} DependentsPrecede(ms: seq<Manifest>, n: nat, m: nat, i: nat, j: nat)
    requires n <= |ms| && m < |ms| && i < j < |ms| && SharesDependencies(Dependencies(ms), i, j)
    ensures Precedes(DependentsOfFirst(ms, n)[m], i, j)
    decreases n
  {
    if n > 0 {
      DependentsPrecede(ms, n - 1, m, i, j);
      if n - 1 == j && m in ResolveAll(ms, ms[j].resourceDependencies) {
        assert m in Out(Dependencies(ms), j);
        DependentsOfFirstAre(ms, j, m, i);
      }
      EdgesPrecede(ms, DependentsOfFirst(ms, n - 1), n - 1, ms[n - 1].resourceDependencies, m, i, j);
    }
  }

  // ---- the visit ----

  /** Every list names i before j. */
  ghost predicate AllPrecede(g: Dependents, i: nat, j: nat) {
    forall m :: 0 <= m < |g| ==> Precedes(g[m], i, j)
  }

  /** What a visit in the middle of the search has to go by. */
  ghost predicate InTurn(seen: set<nat>, done: seq<nat>, i: nat, j: nat) {
    Precedes(done, i, j) && (j in seen ==> i in seen) && (forall x :: x in done ==> x in seen)
  }

  ghost predicate Setting(g: Dependents, d: Graph<nat>, i: nat, j: nat) {
    WellIndexed(g) && TurnsAround(g, d) && AllPrecede(g, i, j) && !Reaches(d, j, i)
  }

  /** The nodes to be visited next can be: all are below what is begun, and j does
      not come before i is seen. */
  ghost predicate Ready(d: Graph<nat>, seen: set<nat>, done: seq<nat>, ks: seq<nat>, i: nat, j: nat) {
    && InTurn(seen, done, i, j) && (forall k :: k in ks ==> BelowBegun(d, seen, done, k))
    && (i in seen || Precedes(ks, i, j))
  }

  lemma DependentsReady(g: Dependents, d: Graph<nat>, seen: set<nat>, done: seq<nat>, k: nat, i: nat, j: nat)
    requires Setting(g, d, i, j) && k < |g|
    requires InTurn(seen, done, i, j) && BelowBegun(d, seen, done, k) && (k == j ==> i in seen)
    ensures Ready(d, seen + {k}, done, g[k], i, j)
  {
    forall x | x in g[k]
      ensures BelowBegun(d, seen + {k}, done, x)
    {
      DependentBelowBegun(g, d, seen, done, k, x);
    }
  }

  lemma RestReady(g: Dependents, d: Graph<nat>, seen: set<nat>, done: seq<nat>, ks: seq<nat>, i: nat, j: nat)
    requires Setting(g, d, i, j) && InRange(ks, |g|) && ks != [] && Ready(d, seen, done, ks, i, j)
    requires var r := Visit(g, seen, ks[0]); InTurn(r.0, done + r.1, i, j)
    ensures var r := Visit(g, seen, ks[0]); Ready(d, r.0, done + r.1, ks[1..], i, j)
  {
    var (seen1, order1) := Visit(g, seen, ks[0]);
    VisitEmits(g, seen, ks[0]);
    assert forall x :: Begun(seen1, done + order1, x) <==> Begun(seen, done, x);
    forall k | k in ks[1..]
      ensures BelowBegun(d, seen1, done + order1, k)
    {
      assert BelowBegun(d, seen, done, k);
    }
    if i !in seen1 {
      PrecedesRest(ks, i, j);
    }
  }

  lemma EmittedInTurn(d: Graph<nat>, seen: set<nat>, done: seq<nat>, k: nat, seen': set<nat>, order: seq<nat>, i: nat, j: nat)
    requires InTurn(seen', done + order, i, j) && k in seen' && BelowBegun(d, seen, done, k) && !Reaches(d, j, i)
    requires k == j ==> i in seen
    ensures InTurn(seen', done + (order + [k]), i, j)
  {
    if k == j {
      assert !Begun(seen, done, i);
    }
    PrecedesSnoc(done + order, k, i, j);
    Associative(done, order, [k]);
  }

  lemma {:induction false} VisitInTurn(g: Dependents, d: Graph<nat>, seen: set<nat>, done: seq<nat>, k: nat, i: nat, j: nat)
    requires Setting(g, d, i, j) && k < |g|
    requires InTurn(seen, done, i, j) && BelowBegun(d, seen, done, k) && (k == j ==> i in seen)
    ensures InTurn(Visit(g, seen, k).0, done + Visit(g, seen, k).1, i, j)
    decreases |Unseen(g, seen)|, 0
  {
    if k in seen {
      assert done + [] == done;
    } else {
      assert Unseen(g, seen + {k}) == Unseen(g, seen) - {k};
      DependentsReady(g, d, seen, done, k, i, j);
      VisitAllInTurn(g, d, seen + {k}, done, g[k], i, j);
      var (seen', order) := VisitAll(g, seen + {k}, g[k]);
      EmittedInTurn(d, seen, done, k, seen', order, i, j);
    }
  }

  lemma {:induction false} VisitAllInTurn(g: Dependents, d: Graph<nat>, seen: set<nat>, done: seq<nat>, ks: seq<nat>, i: nat, j: nat)
    requires Setting(g, d, i, j) && InRange(ks, |g|) && Ready(d, seen, done, ks, i, j)
    ensures InTurn(VisitAll(g, seen, ks).0, done + VisitAll(g, seen, ks).1, i, j)
    decreases |Unseen(g, seen)|, |ks|
  {
    if ks == [] {
      assert done + [] == done;
    } else {
      var (seen1, order1) := Visit(g, seen, ks[0]);
      VisitInTurn(g, d, seen, done, ks[0], i, j);
      RestReady(g, d, seen, done, ks, i, j);
      UnseenShrinks(g, seen, seen1);
      VisitAllInTurn(g, d, seen1, done + order1, ks[1..], i, j);
      Associative(done, order1, VisitAll(g, seen1, ks[1..]).1);
    }
  }

  // ---- main results ----

  lemma UptoPrecedes(n: nat, i: nat, j: nat)
    requires i < j
    ensures Precedes(Upto(n), i, j)
  {
    forall b | 0 <= b < n && Upto(n)[b] == j
      ensures i in Upto(n)[..b]
    {
      assert Upto(n)[..b][i] == i;
    }
  }

  lemma AllDependentsPrecede(ms: seq<Manifest>, i: nat, j: nat)
    requires i < j < |ms| && SharesDependencies(Dependencies(ms), i, j)
    ensures AllPrecede(DependentsOf(ms), i, j)
  {
    forall m | 0 <= m < |ms|
      ensures Precedes(DependentsOf(ms)[m], i, j)
    {
      DependentsPrecede(ms, |ms|, m, i, j);
    }
  }

  lemma PostOrderInTurn(g: Dependents, d: Graph<nat>, i: nat, j: nat)
    requires WellIndexed(g) && TurnsAround(g, d) && AllPrecede(g, i, j) && !Reaches(d, j, i) && i < j
    ensures Precedes(PostOrder(g), i, j)
  {
    UptoPrecedes(|g|, i, j);
    VisitAllInTurn(g, d, {}, [], Upto(|g|), i, j);
    assert [] + PostOrder(g) == PostOrder(g);
  }

  lemma PrecedesIsBefore(s: seq<nat>, i: nat, j: nat)
    requires Precedes(s, i, j) && j in s
    ensures Before(s, i, j)
  {
    var b :| 0 <= b < |s| && s[b] == j;
    var a :| 0 <= a < |s[..b]| && s[..b][a] == i;
    assert s[a] == i;
  }

  /** Of two manifests, the one listed later goes first if it depends directly on
      all that the other depends on directly, and the other does not depend on it. */
  lemma LaterListedFirst(ms: seq<Manifest>, i: nat, j: nat)
    requires i < j < |ms| && SharesDependencies(Dependencies(ms), i, j) && !Reaches(Dependencies(ms), j, i)
    ensures WellIndexed(DependentsOf(ms)) && Before(PostOrder(DependentsOf(ms)), i, j)
  {
    var g := DependentsOf(ms);
    DependentsWellIndexed(ms);
    DependentsTurnAround(ms);
    AllDependentsPrecede(ms, i, j);
    PostOrderInTurn(g, Dependencies(ms), i, j);
    PostOrderIsPermutation(g);
    PrecedesIsBefore(PostOrder(g), i, j);
  }

  /** A manifest listed later, as far as what is enabled goes. */
  lemma LaterListedDeletedFirst(manifests: seq<Manifest>, enabled: set<Name>, i: nat, j: nat)
    requires i < j < |manifests|
    requires var ms := Reversed(manifests);
             && SharesDependencies(Dependencies(ms), i, j) && !Reaches(Dependencies(ms), j, i)
             && ms[i].name in enabled && ms[j].name in enabled
    ensures Before(Deleted(manifests, enabled), i, j)
  {
    var ms := Reversed(manifests);
    LaterListedFirst(ms, i, j);
    PostOrderIsPermutation(DependentsOf(ms));
    EnabledKeepsOrder(ms, enabled, PostOrder(DependentsOf(ms)), i, j);
  }

  /** A manifest without dependencies is deleted after every manifest listed later:
      manifests that all have none go in the reverse of the order they are listed in. */
  lemma IndependentComesAfter(manifests: seq<Manifest>, enabled: set<Name>, i: nat, j: nat)
    requires i < j < |manifests|
    requires var ms := Reversed(manifests);
             ms[j].resourceDependencies == [] && ms[i].name in enabled && ms[j].name in enabled
    ensures Before(Deleted(manifests, enabled), i, j)
  {
    LoneReachesNothing(Reversed(manifests), j, i);
    LaterListedDeletedFirst(manifests, enabled, i, j);
  }

  lemma LoneReachesNothing(ms: seq<Manifest>, j: nat, i: nat)
    requires j < |ms| && ms[j].resourceDependencies == [] && i != j
    ensures Out(Dependencies(ms), j) == [] && !Reaches(Dependencies(ms), j, i)
  {
    if Reaches(Dependencies(ms), j, i) {
      ClosedSetHoldsReachable(Dependencies(ms), {j}, j, i);
    }
  }
}
