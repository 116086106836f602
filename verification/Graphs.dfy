/** Finite directed graphs given by adjacency lists, as the owner references of
    Kubernetes objects and the resource dependencies of a Tiltfile are.
    Acyclicity is the absence of a closed walk; every proof that needs an order
    to descend takes it from AcyclicHasRank. */
module Graphs {

  ghost predicate Distinct<T>(s: seq<T>) {
    forall i, j :: 0 <= i < j < |s| ==> s[i] != s[j]
  }

  type Graph<V(==)> = map<V, seq<V>>

  function Out<V>(g: Graph<V>, v: V): seq<V> {
    if v in g then g[v] else []
  }

  ghost predicate IsWalk<V>(g: Graph<V>, p: seq<V>) {
    && |p| >= 1
    && forall i :: 0 <= i < |p| - 1 ==> p[i + 1] in Out(g, p[i])
  }

  ghost predicate Reaches<V(!new)>(g: Graph<V>, a: V, b: V) {
    exists p: seq<V> :: IsWalk(g, p) && p[0] == a && p[|p| - 1] == b
  }

  ghost predicate Closed<V>(g: Graph<V>, p: seq<V>) {
    IsWalk(g, p) && |p| >= 2 && p[0] == p[|p| - 1]
  }

  ghost predicate Acyclic<V(!new)>(g: Graph<V>) {
    forall p: seq<V> :: !Closed(g, p)
  }

  /** A rank strictly decreases along every edge. */
  ghost predicate Ranks<V(!new)>(g: Graph<V>, rank: map<V, nat>) {
    forall v, w :: v in g && w in g[v] ==> v in rank && w in rank && rank[w] < rank[v]
  }

  ghost function RankOf<V>(rank: map<V, nat>, v: V): nat {
    if v in rank then rank[v] else 0
  }

  lemma ReachesSelf<V(!new)>(g: Graph<V>, a: V)
    ensures Reaches(g, a, a)
  {
    assert IsWalk(g, [a]);
  }

  lemma ReachesStep<V(!new)>(g: Graph<V>, a: V, b: V, c: V)
    requires b in Out(g, a) && Reaches(g, b, c)
    ensures Reaches(g, a, c)
  {
    var p :| IsWalk(g, p) && p[0] == b && p[|p| - 1] == c;
    var q := [a] + p;
    assert forall i :: 0 <= i < |q| - 1 ==> q[i + 1] in Out(g, q[i]);
    assert IsWalk(g, q) && q[0] == a && q[|q| - 1] == c;
  }

  lemma ReachesOnward<V(!new)>(g: Graph<V>, a: V, b: V, c: V)
    requires Reaches(g, a, b) && c in Out(g, b)
    ensures Reaches(g, a, c)
  {
    var p :| IsWalk(g, p) && p[0] == a && p[|p| - 1] == b;
    var q := p + [c];
    assert forall i :: 0 <= i < |q| - 1 ==> q[i + 1] in Out(g, q[i]);
    assert IsWalk(g, q) && q[0] == a && q[|q| - 1] == c;
  }

  /** A walk that is not just its start ends with an edge. */
  lemma ReachesLastEdge<V(!new)>(g: Graph<V>, a: V, c: V) returns (b: V)
    requires Reaches(g, a, c) && a != c
    ensures c in Out(g, b)
  {
    var p :| IsWalk(g, p) && p[0] == a && p[|p| - 1] == c;
    b := p[|p| - 2];
    assert p[|p| - 2 + 1] in Out(g, b);
  }

  /** An edge and a way back make a cycle. */
  lemma EdgeAndWayBack<V(!new)>(g: Graph<V>, a: V, b: V)
    requires b in Out(g, a) && Reaches(g, b, a)
    ensures !Acyclic(g)
  {
    var p :| IsWalk(g, p) && p[0] == b && p[|p| - 1] == a;
    var q := [a] + p;
    assert forall i :: 0 <= i < |q| - 1 ==> q[i + 1] in Out(g, q[i]);
    assert Closed(g, q);
  }

  /** A set closed under edges holds everything its members reach. */
  lemma {:induction false} ClosedSetHoldsWalk<V(!new)>(g: Graph<V>, s: set<V>, p: seq<V>)
    requires IsWalk(g, p) && p[0] in s
    requires forall v, w :: v in s && w in Out(g, v) ==> w in s
    ensures p[|p| - 1] in s
    decreases |p|
  {
    if |p| > 1 {
      var q := p[1..];
      assert p[0 + 1] in Out(g, p[0]);
      assert forall i :: 0 <= i < |q| - 1 ==> q[i + 1] in Out(g, q[i]);
      ClosedSetHoldsWalk(g, s, q);
    }
  }

  lemma ClosedSetHoldsReachable<V(!new)>(g: Graph<V>, s: set<V>, a: V, b: V)
    requires a in s && Reaches(g, a, b)
    requires forall v, w :: v in s && w in Out(g, v) ==> w in s
    ensures b in s
  {
    var p :| IsWalk(g, p) && p[0] == a && p[|p| - 1] == b;
    ClosedSetHoldsWalk(g, s, p);
  }

  // ---- a finite set with no way out contains a cycle ----

  /** A sequence longer than the set it draws from repeats an element. */
  lemma {:induction false} Pigeonhole<V>(p: seq<V>, s: set<V>) returns (i: nat, j: nat)
    requires forall x :: x in p ==> x in s
    requires |p| > |s|
    ensures i < j < |p| && p[i] == p[j]
    decreases |p|
  {
    var last := p[|p| - 1];
    var front := p[..|p| - 1];
    if k :| 0 <= k < |front| && front[k] == last {
      return k, |p| - 1;
    }
    assert last in s;
    forall x | x in front ensures x in s - {last} {
      assert x in p;
    }
    i, j := Pigeonhole(front, s - {last});
  }

  ghost predicate StaysIn<V>(g: Graph<V>, s: set<V>, v: V) {
    exists w :: w in s && w in Out(g, v)
  }

  /** Every member of s has a successor in s. */
  ghost predicate Trap<V>(g: Graph<V>, s: set<V>) {
    s != {} && forall v {:trigger StaysIn(g, s, v)} :: v in s ==> StaysIn(g, s, v)
  }

  lemma {:induction false} WalkInside<V(!new)>(g: Graph<V>, s: set<V>, n: nat) returns (p: seq<V>)
    requires Trap(g, s)
    ensures IsWalk(g, p) && |p| == n + 1 && forall x :: x in p ==> x in s
    decreases n
  {
    if n == 0 {
      var v :| v in s;
      p := [v];
    } else {
      var q := WalkInside(g, s, n - 1);
      assert q[|q| - 1] in s;
      assert StaysIn(g, s, q[|q| - 1]);
      var w :| w in s && w in Out(g, q[|q| - 1]);
      p := q + [w];
      assert forall i :: 0 <= i < |p| - 1 ==> p[i + 1] in Out(g, p[i]);
    }
  }

  lemma TrapHasCycle<V(!new)>(g: Graph<V>, s: set<V>)
    requires Trap(g, s)
    ensures !Acyclic(g)
  {
    var p := WalkInside(g, s, |s|);
    var i, j := Pigeonhole(p, s);
    var loop := p[i..j + 1];
    assert forall k :: 0 <= k < |loop| - 1 ==> loop[k + 1] in Out(g, loop[k]);
    assert Closed(g, loop);
  }

  // ---- acyclic graphs are exactly the ranked ones ----

  ghost predicate RanksWithin<V(!new)>(g: Graph<V>, s: set<V>, rank: map<V, nat>) {
    && rank.Keys == s
    && forall v, w :: v in s && w in s && w in Out(g, v) ==> rank[w] < rank[v]
  }

  lemma {:induction false} RankWithin<V(!new)>(g: Graph<V>, s: set<V>) returns (rank: map<V, nat>)
    requires Acyclic(g)
    ensures RanksWithin(g, s, rank)
    decreases |s|
  {
    if s == {} {
      rank := map[];
    } else {
      if Trap(g, s) {
        TrapHasCycle(g, s);
      }
      var sink :| sink in s && !StaysIn(g, s, sink);
      var rest := RankWithin(g, s - {sink});
      rank := map v | v in s :: if v == sink then 0 else rest[v] + 1;
    }
  }

  ghost function Nodes<V>(g: Graph<V>): set<V> {
    g.Keys + set v, w | v in g && w in g[v] :: w
  }

  lemma AcyclicHasRank<V(!new)>(g: Graph<V>) returns (rank: map<V, nat>)
    requires Acyclic(g)
    ensures Ranks(g, rank)
  {
    rank := RankWithin(g, Nodes(g));
    forall v, w | v in g && w in g[v]
      ensures v in rank && w in rank && rank[w] < rank[v]
    {
      assert w in Out(g, v);
    }
  }

  lemma {:induction false} RankFallsAlongWalk<V(!new)>(g: Graph<V>, rank: map<V, nat>, p: seq<V>)
    requires Ranks(g, rank) && IsWalk(g, p) && |p| >= 2
    ensures RankOf(rank, p[|p| - 1]) < RankOf(rank, p[0])
    decreases |p|
  {
    assert p[0 + 1] in Out(g, p[0]);
    if |p| > 2 {
      var q := p[1..];
      assert forall i :: 0 <= i < |q| - 1 ==> q[i + 1] in Out(g, q[i]);
      RankFallsAlongWalk(g, rank, q);
    }
  }

  lemma RankedIsAcyclic<V(!new)>(g: Graph<V>, rank: map<V, nat>)
    requires Ranks(g, rank)
    ensures Acyclic(g)
  {
    forall p: seq<V> ensures !Closed(g, p) {
      if Closed(g, p) {
        RankFallsAlongWalk(g, rank, p);
      }
    }
  }
}
