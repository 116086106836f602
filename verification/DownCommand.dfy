/** sortManifestsForDeletion as written: nodes with a `processed` flag that the
    recursion sets, and lists it appends to. */
module DownCommand {
  import opened Shared
  import opened Graphs
  import opened DeletionOrder

  class DependencyNode {
    const manifest: Manifest
    var dependents: seq<DependencyNode>
    var processed: bool

    constructor (manifest: Manifest)
      ensures this.manifest == manifest && dependents == [] && !processed
    {
      this.manifest := manifest;
      dependents := [];
      processed := false;
    }
  }

  type Nodes = seq<DependencyNode>

  ghost predicate NodesOf(nodes: Nodes, ms: seq<Manifest>)
  {
    && Distinct(nodes) && |nodes| == |ms|
    && forall k :: 0 <= k < |nodes| ==> nodes[k].manifest == ms[k]
  }

  /** nodes[k].dependents is g[k], as node objects. */
  ghost predicate Linked(nodes: Nodes, g: Dependents)
    reads nodes`dependents
  {
    && |g| == |nodes| && WellIndexed(g)
    && forall k {:trigger nodes[k].dependents} :: 0 <= k < |nodes| ==> nodes[k].dependents == Pick(nodes, g[k])
  }

  /** The nodes already processed. */
  ghost function Processed(nodes: Nodes): set<nat>
    reads nodes`processed
  {
    set k: nat | k < |nodes| && nodes[k].processed
  }

  /** The flags and the list are what visiting gives: the nodes seen and the
      manifests of those emitted. */
  ghost predicate Emitted(ms: seq<Manifest>, visited: (set<nat>, seq<nat>), processed: set<nat>, manifests: seq<Manifest>) {
    && processed == visited.0
    && InRange(visited.1, |ms|) && manifests == Pick(ms, visited.1)
  }

  /** manifestsForNode(node), where node is nodes[k]. */
  method ManifestsForNode(node: DependencyNode, ghost nodes: Nodes, ghost ms: seq<Manifest>, ghost g: Dependents, ghost k: nat)
    returns (manifests: seq<Manifest>)
    requires NodesOf(nodes, ms) && Linked(nodes, g) && k < |nodes| && nodes[k] == node
    modifies nodes`processed
    ensures Emitted(ms, Visit(g, old(Processed(nodes)), k), Processed(nodes), manifests)
    decreases |Unseen(g, Processed(nodes))|, 0
  {
    if node.processed {
      return [];
    }
    ghost var seen := Processed(nodes);
    node.processed := true;
    assert Processed(nodes) == seen + {k};
    assert Unseen(g, seen + {k}) == Unseen(g, seen) - {k};
    manifests := ManifestsForDependents(node, nodes, ms, g, k);
    PickConcat(ms, VisitAll(g, seen + {k}, g[k]).1, [k]);
    manifests := manifests + [node.manifest];
  }

  /** The loop of manifestsForNode. */
  method ManifestsForDependents(node: DependencyNode, ghost nodes: Nodes, ghost ms: seq<Manifest>, ghost g: Dependents, ghost k: nat)
    returns (manifests: seq<Manifest>)
    requires NodesOf(nodes, ms) && Linked(nodes, g) && k < |nodes| && nodes[k] == node
    modifies nodes`processed
    ensures Emitted(ms, VisitAll(g, old(Processed(nodes)), g[k]), Processed(nodes), manifests)
    decreases |Unseen(g, Processed(nodes))|, 1
  {
    manifests := [];
    for i := 0 to |node.dependents|
      invariant Emitted(ms, VisitAll(g, old(Processed(nodes)), g[k][..i]), Processed(nodes), manifests)
    {
      ghost var processed := Processed(nodes);
      UnseenShrinks(g, old(Processed(nodes)), processed);
      var more := ManifestsForNode(node.dependents[i], nodes, ms, g, g[k][i]);
      OneMore(ms, g, old(Processed(nodes)), g[k], i, processed, manifests, Processed(nodes), more);
      manifests := manifests + more;
    }
    assert g[k][..|g[k]|] == g[k];
  }

  lemma PickConcat<T>(ts: seq<T>, a: seq<nat>, b: seq<nat>)
    requires InRange(a, |ts|) && InRange(b, |ts|)
    ensures InRange(a + b, |ts|) && Pick(ts, a + b) == Pick(ts, a) + Pick(ts, b)
  {
  }

  lemma {:induction false} VisitAllSnoc(g: Dependents, seen: set<nat>, ks: seq<nat>, k: nat)
    requires WellIndexed(g) && InRange(ks, |g|) && k < |g|
    ensures var (seen1, order1) := VisitAll(g, seen, ks);
            var (seen2, order2) := Visit(g, seen1, k);
            VisitAll(g, seen, ks + [k]) == (seen2, order1 + order2)
    decreases |ks|
  {
    if ks == [] {
      assert ks + [k] == [k];
      var (seen2, order2) := Visit(g, seen, k);
      assert VisitAll(g, seen2, []) == (seen2, []);
      assert order2 + [] == order2 && [] + order2 == order2;
    } else {
      var (seen1, order1) := Visit(g, seen, ks[0]);
      VisitAllSnoc(g, seen1, ks[1..], k);
      assert (ks + [k])[1..] == ks[1..] + [k];
      var (seen2, order2) := VisitAll(g, seen1, ks[1..]);
      var (seen3, order3) := Visit(g, seen2, k);
      assert order1 + (order2 + order3) == (order1 + order2) + order3;
    }
  }

  /** What the loop has and what the next dependent adds. */
  lemma OneMore(ms: seq<Manifest>, g: Dependents, seen: set<nat>, ks: seq<nat>, i: nat,
                processed: set<nat>, manifests: seq<Manifest>, processed': set<nat>, more: seq<Manifest>)
    requires WellIndexed(g) && |g| == |ms| && InRange(ks, |g|) && i < |ks|
    requires Emitted(ms, VisitAll(g, seen, ks[..i]), processed, manifests)
    requires Emitted(ms, Visit(g, processed, ks[i]), processed', more)
    ensures Emitted(ms, VisitAll(g, seen, ks[..i + 1]), processed', manifests + more)
  {
    VisitAllSnoc(g, seen, ks[..i], ks[i]);
    assert ks[..i + 1] == ks[..i] + [ks[i]];
    PickConcat(ms, VisitAll(g, seen, ks[..i]).1, Visit(g, processed, ks[i]).1);
  }

  // ---- building the graph ----

  type NodeMap = map<Name, DependencyNode>

  ghost predicate Maps(nodeMap: NodeMap, nodes: Nodes, ms: seq<Manifest>)
    requires |nodes| == |ms|
  {
    forall name ::
      match Resolve(ms, name)
      case None => name !in nodeMap
      case Some(k) => name in nodeMap && nodeMap[name] == nodes[k]
  }

  lemma NodesOfOneMore(nodes: Nodes, ms: seq<Manifest>, i: nat, node: DependencyNode)
    requires |nodes| == i < |ms| && NodesOf(nodes, ms[..i]) && node.manifest == ms[i]
    requires forall k :: 0 <= k < |nodes| ==> nodes[k] != node
    ensures NodesOf(nodes + [node], ms[..i + 1])
  {
    forall k | 0 <= k < i
      ensures nodes[k].manifest == ms[k]
    {
      assert ms[..i][k] == ms[k];
    }
  }

  lemma MapsOneMore(nodeMap: NodeMap, nodes: Nodes, ms: seq<Manifest>, i: nat, node: DependencyNode)
    requires |nodes| == i < |ms| && Maps(nodeMap, nodes, ms[..i])
    ensures Maps(nodeMap[ms[i].name := node], nodes + [node], ms[..i + 1])
  {
    assert ms[..i + 1][..i] == ms[..i];
    forall name
      ensures Resolve(ms[..i + 1], name) == if name == ms[i].name then Some(i) else Resolve(ms[..i], name)
    {
    }
  }

  method MakeNodes(manifests: seq<Manifest>) returns (nodes: Nodes, nodeMap: NodeMap)
    ensures fresh(nodes) && NodesOf(nodes, Reversed(manifests))
    ensures forall k :: 0 <= k < |nodes| ==> nodes[k].dependents == [] && !nodes[k].processed
    ensures Maps(nodeMap, nodes, Reversed(manifests))
  {
    ghost var ms := Reversed(manifests);
    nodes, nodeMap := [], map[];
    for i := 0 to |manifests|
      invariant fresh(nodes) && NodesOf(nodes, ms[..i])
      invariant forall k :: 0 <= k < |nodes| ==> nodes[k].dependents == [] && !nodes[k].processed
      invariant Maps(nodeMap, nodes, ms[..i])
    {
      var manifest := manifests[|manifests| - i - 1];
      var node := new DependencyNode(manifest);
      assert manifest == ms[i];
      assert forall k :: 0 <= k < |nodes| ==> nodes[k] != node;
      NodesOfOneMore(nodes, ms, i, node);
      MapsOneMore(nodeMap, nodes, ms, i, node);
      nodes := nodes + [node];
      nodeMap := nodeMap[manifest.name := node];
    }
    assert ms[..|manifests|] == ms;
  }

  method LinkOne(nodes: Nodes, nodeMap: NodeMap, ghost ms: seq<Manifest>, ghost g: Dependents, j: nat, resourceDep: Name)
    requires NodesOf(nodes, ms) && Maps(nodeMap, nodes, ms) && Linked(nodes, g) && j < |nodes|
    modifies nodes`dependents
    ensures Linked(nodes, AddEdge(ms, g, j, resourceDep))
  {
    if resourceDep in nodeMap {
      var dependency := nodeMap[resourceDep];
      ghost var k := Resolve(ms, resourceDep).value;
      PickConcat(nodes, g[k], [j]);
      dependency.dependents := dependency.dependents + [nodes[j]];
    }
  }

  /** The dependencies of the first j manifests are linked. */
  ghost predicate LinkedFirst(nodes: Nodes, ms: seq<Manifest>, j: nat)
    requires j <= |ms|
    reads nodes`dependents
  {
    Linked(nodes, DependentsOfFirst(ms, j))
  }

  method LinkNode(nodes: Nodes, nodeMap: NodeMap, ghost ms: seq<Manifest>, j: nat)
    requires NodesOf(nodes, ms) && Maps(nodeMap, nodes, ms) && j < |nodes| && LinkedFirst(nodes, ms, j)
    modifies nodes`dependents
    ensures LinkedFirst(nodes, ms, j + 1)
  {
    ghost var g := DependentsOfFirst(ms, j);
    var deps := nodes[j].manifest.resourceDependencies;
    for d := 0 to |deps|
      invariant Linked(nodes, AddEdges(ms, g, j, deps[..d]))
    {
      LinkOne(nodes, nodeMap, ms, AddEdges(ms, g, j, deps[..d]), j, deps[d]);
      assert deps[..d + 1][..d] == deps[..d];
    }
    assert deps[..|deps|] == deps;
  }

  lemma NoneLinked(nodes: Nodes, ms: seq<Manifest>)
    requires |nodes| == |ms| && forall k :: 0 <= k < |nodes| ==> nodes[k].dependents == []
    ensures LinkedFirst(nodes, ms, 0)
  {
  }

  method LinkDependents(nodes: Nodes, nodeMap: NodeMap, ghost ms: seq<Manifest>)
    requires NodesOf(nodes, ms) && Maps(nodeMap, nodes, ms) && LinkedFirst(nodes, ms, 0)
    modifies nodes`dependents
    ensures Linked(nodes, DependentsOf(ms))
  {
    for j := 0 to |nodes|
      invariant LinkedFirst(nodes, ms, j)
    {
      LinkNode(nodes, nodeMap, ms, j);
    }
    AllLinked(nodes, ms);
  }

  lemma AllLinked(nodes: Nodes, ms: seq<Manifest>)
    requires LinkedFirst(nodes, ms, |ms|)
    ensures Linked(nodes, DependentsOf(ms))
  {
  }

  // ---- the whole sort ----

  function KeepEnabled(ms: seq<Manifest>, enabled: set<Name>): seq<Manifest> {
    if ms == [] then []
    else
      var rest := KeepEnabled(ms[..|ms| - 1], enabled);
      if ms[|ms| - 1].name in enabled then rest + [ms[|ms| - 1]] else rest
  }

  lemma {:induction false} KeepEnabledConcat(a: seq<Manifest>, b: seq<Manifest>, enabled: set<Name>)
    ensures KeepEnabled(a + b, enabled) == KeepEnabled(a, enabled) + KeepEnabled(b, enabled)
    decreases |b|
  {
    if b == [] {
      assert a + b == a;
    } else {
      KeepEnabledConcat(a, b[..|b| - 1], enabled);
      assert (a + b)[..|a + b| - 1] == a + b[..|b| - 1];
    }
  }

  lemma {:induction false} KeepEnabledPicks(ms: seq<Manifest>, enabled: set<Name>, order: seq<nat>)
    requires InRange(order, |ms|)
    ensures PicksEnabled(ms, enabled, order)
    decreases |order|
  {
    if order != [] {
      var init, k := order[..|order| - 1], order[|order| - 1];
      KeepEnabledPicks(ms, enabled, init);
      PicksOneMore(ms, enabled, init, k);
      assert order == init + [k];
    }
  }

  /** Keeping the enabled among the picked is picking the enabled. */
  ghost predicate PicksEnabled(ms: seq<Manifest>, enabled: set<Name>, order: seq<nat>)
    requires InRange(order, |ms|)
  {
    && InRange(Enabled(ms, enabled, order), |ms|)
    && KeepEnabled(Pick(ms, order), enabled) == Pick(ms, Enabled(ms, enabled, order))
  }

  lemma KeepEnabledSnoc(ms: seq<Manifest>, m: Manifest, enabled: set<Name>)
    ensures KeepEnabled(ms + [m], enabled) == KeepEnabled(ms, enabled) + if m.name in enabled then [m] else []
  {
    assert (ms + [m])[..|ms|] == ms;
  }

  lemma EnabledSnoc(ms: seq<Manifest>, enabled: set<Name>, order: seq<nat>, k: nat)
    requires InRange(order, |ms|) && k < |ms|
    ensures Enabled(ms, enabled, order + [k]) == Enabled(ms, enabled, order) + if ms[k].name in enabled then [k] else []
  {
    assert (order + [k])[..|order|] == order;
  }

  lemma PickOne<T>(ts: seq<T>, k: nat)
    requires k < |ts|
    ensures Pick(ts, [k]) == [ts[k]]
  {
  }

  lemma PicksOneMore(ms: seq<Manifest>, enabled: set<Name>, order: seq<nat>, k: nat)
    requires InRange(order, |ms|) && k < |ms| && PicksEnabled(ms, enabled, order)
    ensures PicksEnabled(ms, enabled, order + [k])
  {
    KeepEnabledSnoc(Pick(ms, order), ms[k], enabled);
    EnabledSnoc(ms, enabled, order, k);
    PickOne(ms, k);
    PickConcat(ms, order, [k]);
    if ms[k].name in enabled {
      PickConcat(ms, Enabled(ms, enabled, order), [k]);
    }
  }

  method AppendEnabled(sorted: seq<Manifest>, more: seq<Manifest>, enabledNames: set<Name>) returns (result: seq<Manifest>)
    ensures result == sorted + KeepEnabled(more, enabledNames)
  {
    result := sorted;
    for i := 0 to |more|
      invariant result == sorted + KeepEnabled(more[..i], enabledNames)
    {
      assert more[..i + 1][..i] == more[..i];
      if more[i].name in enabledNames {
        result := result + [more[i]];
      }
    }
    assert more[..|more|] == more;
  }

  method SortNodes(nodes: Nodes, enabledNames: set<Name>, ghost ms: seq<Manifest>, ghost g: Dependents) returns (sorted: seq<Manifest>)
    requires NodesOf(nodes, ms) && Linked(nodes, g) && Processed(nodes) == {}
    modifies nodes`processed
    ensures InRange(PostOrder(g), |ms|)
    ensures sorted == KeepEnabled(Pick(ms, PostOrder(g)), enabledNames)
  {
    sorted := [];
    ghost var all: seq<Manifest> := [];
    ghost var ks := Upto(|g|);
    for i := 0 to |nodes|
      invariant Emitted(ms, VisitAll(g, {}, ks[..i]), Processed(nodes), all)
      invariant sorted == KeepEnabled(all, enabledNames)
    {
      ghost var processed := Processed(nodes);
      var more := ManifestsForNode(nodes[i], nodes, ms, g, i);
      OneMore(ms, g, {}, ks, i, processed, all, Processed(nodes), more);
      KeepEnabledConcat(all, more, enabledNames);
      sorted := AppendEnabled(sorted, more, enabledNames);
      all := all + more;
    }
    assert ks[..|nodes|] == ks;
  }

  method SortManifestsForDeletion(manifests: seq<Manifest>, enabledManifests: seq<Name>) returns (sorted: seq<Manifest>)
    ensures sorted == Pick(Reversed(manifests), Deleted(manifests, set n | n in enabledManifests))
  {
    var enabledNames: set<Name> := {};
    for i := 0 to |enabledManifests|
      invariant enabledNames == set n | n in enabledManifests[..i]
    {
      enabledNames := enabledNames + {enabledManifests[i]};
    }
    assert enabledManifests[..|enabledManifests|] == enabledManifests;

    ghost var ms := Reversed(manifests);
    var nodes, nodeMap := MakeNodes(manifests);
    NoneLinked(nodes, Reversed(manifests));
    LinkDependents(nodes, nodeMap, ms);
    sorted := SortNodes(nodes, enabledNames, ms, DependentsOf(ms));
    KeepEnabledPicks(ms, enabledNames, PostOrder(DependentsOf(ms)));
  }
}
