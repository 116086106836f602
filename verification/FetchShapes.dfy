/** What the trees of the owner fetcher hold on any owner graph, with a single
    caller: where cycles are cut, an object has the settled tree of every owner
    that is not an ancestor, in order, and nothing else. */
module FetchShapes {
  import opened Graphs
  import opened OwnerTrees
  import opened OwnerFetching

  lemma PendingKeepsShape(w: World, cache: Memo, u: Uid)
    requires AllShaped(w, cache) && u !in cache
    ensures AllShaped(w, cache[u := Pending])
  {
    var cache' := cache[u := Pending];
    forall v, t | IsSettledTo(cache', v, t)
      ensures Shaped(w, cache', v, t)
    {
      assert IsSettledTo(cache, v, t);
      ShapedOnward(w, cache, cache', v, t);
    }
  }

  lemma OwnerPathLeads(w: World, path: seq<Uid>, u: Uid, o: Uid)
    requires PathLeads(w, path, u) && o in Out(OwnerGraph(w), u)
    ensures PathLeads(w, path + [u], o)
  {
    var g := OwnerGraph(w);
    forall p | p in path + [u]
      ensures Reaches(g, p, o)
    {
      if p == u {
        ReachesSelf(g, u);
      }
      ReachesOnward(g, p, u, o);
    }
  }

  /** What a call that has to look for u itself returns. */
  ghost predicate FreshTree(w: World, cache: Memo, u: Uid, path: seq<Uid>, t: Tree) {
    match LookupOf(w, u)
    case Found(m) => TreeBelow(cache, u, m, path, t)
    case NotFound => t == Leaf(u)
    case Failed(_) => false
  }

  ghost predicate ShapedOutcome(w: World, r: (Memo, Outcome)) {
    r.1.Returned? ==> AllShaped(w, r.0)
  }

  lemma UnfoundShaped(w: World, cache: Memo, u: Uid, path: seq<Uid>)
    requires AllShaped(w, cache) && u != "" && u !in cache && !LookupOf(w, u).Found?
    ensures var (cache', o) := Fetch(w, cache, u, path);
            && o.Returned? && AllShaped(w, cache')
            && (o.result.Ok? ==> FreshTree(w, cache', u, path, o.result.tree))
  {
    AllShapedSettle(w, cache, u, Fetch(w, cache, u, path).1.result);
  }

  /** The path that is searched below is a walk to u, and u has an edge to each
      of its owners. */
  ghost predicate Searching(w: World, cache: Memo, u: Uid, m: Meta, path: seq<Uid>) {
    AllShaped(w, cache) && u != "" && LookupOf(w, u) == Found(m) && PathLeads(w, path, u)
  }

  /** On any owner graph: a call that makes u's promise returns a tree with, in
      order, the settled tree of every owner reference that is no ancestor; and
      all that is settled has that shape. */
  lemma {:induction false} FetchShaped(w: World, cache: Memo, u: Uid, path: seq<Uid>)
    requires Good(w, cache, Elems(path)) && u !in path && AllShaped(w, cache) && PathLeads(w, path, u)
    ensures ShapedOutcome(w, Fetch(w, cache, u, path))
    ensures var (cache', o) := Fetch(w, cache, u, path);
            u != "" && u !in cache && o.Returned? && o.result.Ok? ==> FreshTree(w, cache', u, path, o.result.tree)
    decreases Unvisited(w, cache), 0, 0
  {
    if u == "" || u in cache {
    } else if LookupOf(w, u).Found? {
      VisitingShrinks(w, cache, u);
      var m := LookupOf(w, u).meta;
      StartOfLoop(w, cache, u, m, path);
      FetchOwnersShaped(w, cache[u := Pending], u, m, path, 0, []);
      FetchFound(w, cache, u, m, path);
      EndOfLoop(w, cache, u, m, path);
    } else {
      UnfoundShaped(w, cache, u, path);
    }
  }

  lemma StartOfLoop(w: World, cache: Memo, u: Uid, m: Meta, path: seq<Uid>)
    requires Good(w, cache, Elems(path)) && u !in path && u !in cache && Searching(w, cache, u, m, path)
    ensures LoopOk(w, cache[u := Pending], u, m, path, 0, []) && Searching(w, cache[u := Pending], u, m, path)
    ensures AreSettled(cache[u := Pending], Uncut(m.owners[..0], path), [])
  {
    OpenGood(w, cache, Elems(path), u);
    assert Elems(path + [u]) == Elems(path) + {u};
    PendingKeepsShape(w, cache, u);
  }

  /** Settling u after the loop over its owners. */
  lemma EndOfLoop(w: World, cache: Memo, u: Uid, m: Meta, path: seq<Uid>)
    requires Good(w, cache, Elems(path)) && u !in path && u !in cache && Searching(w, cache, u, m, path)
    requires LoopShaped(w, u, m, path, FetchOwners(w, cache[u := Pending], u, m, path, 0, []))
    ensures var (cache', o) := FetchOwners(w, cache[u := Pending], u, m, path, 0, []);
            o.Returned? ==> AllShaped(w, cache'[u := Settled(o.result)]) &&
                            (o.result.Ok? ==> TreeBelow(cache'[u := Settled(o.result)], u, m, path, o.result.tree))
  {
    var (cache', o) := FetchOwners(w, cache[u := Pending], u, m, path, 0, []);
    StartOfLoop(w, cache, u, m, path);
    FetchOwnersOk(w, cache[u := Pending], u, m, path, 0, []);
    if o.Returned? {
      assert u in Elems(path + [u]);
      AllShapedSettle(w, cache', u, o.result);
      if o.result.Ok? {
        SettledOnward(cache', cache'[u := Settled(o.result)], Uncut(m.owners, path), o.result.tree.owners);
      }
    }
  }

  ghost predicate LoopShaped(w: World, u: Uid, m: Meta, path: seq<Uid>, r: (Memo, Outcome)) {
    r.1.Returned? ==> AllShaped(w, r.0) && (r.1.result.Ok? ==> TreeBelow(r.0, u, m, path, r.1.result.tree))
  }

  /** The loop over u's owners: what it has collected are the settled trees of
      the owners it has gone past without cutting them. */
  lemma {:induction false} FetchOwnersShaped(w: World, cache: Memo, u: Uid, m: Meta, path: seq<Uid>, i: nat, trees: seq<Tree>)
    requires LoopOk(w, cache, u, m, path, i, trees) && Searching(w, cache, u, m, path)
    requires AreSettled(cache, Uncut(m.owners[..i], path), trees)
    ensures LoopShaped(w, u, m, path, FetchOwners(w, cache, u, m, path, i, trees))
    decreases Unvisited(w, cache), 1, |m.owners| - i, 1
  {
    if i == |m.owners| {
      LoopIsDone(w, cache, u, m, path, trees);
    } else if m.owners[i] in path {
      OwnerIsCut(w, cache, u, m, path, i, trees);
      FetchOwnersShaped(w, cache, u, m, path, i + 1, trees);
    } else if m.owners[i] == u {
      SelfOwnerBlocks(w, cache, u, m, path, i, trees);
    } else {
      NextOwnerShaped(w, cache, u, m, path, i, trees);
    }
  }

  lemma LoopIsDone(w: World, cache: Memo, u: Uid, m: Meta, path: seq<Uid>, trees: seq<Tree>)
    requires AllShaped(w, cache) && AreSettled(cache, Uncut(m.owners[..|m.owners|], path), trees)
    ensures LoopShaped(w, u, m, path, FetchOwners(w, cache, u, m, path, |m.owners|, trees))
  {
    assert m.owners[..|m.owners|] == m.owners;
  }

  lemma OwnerIsCut(w: World, cache: Memo, u: Uid, m: Meta, path: seq<Uid>, i: nat, trees: seq<Tree>)
    requires i < |m.owners| && m.owners[i] in path && LoopOk(w, cache, u, m, path, i, trees)
    ensures Uncut(m.owners[..i + 1], path) == Uncut(m.owners[..i], path) && LoopOk(w, cache, u, m, path, i + 1, trees)
    ensures FetchOwners(w, cache, u, m, path, i, trees) == FetchOwners(w, cache, u, m, path, i + 1, trees)
  {
    UncutNext(m.owners, path, i);
    assert m.owners[i] in Elems(path + [u]);
  }

  lemma SelfOwnerBlocks(w: World, cache: Memo, u: Uid, m: Meta, path: seq<Uid>, i: nat, trees: seq<Tree>)
    requires LoopOk(w, cache, u, m, path, i, trees) && u != "" && i < |m.owners| && m.owners[i] == u
    ensures FetchOwners(w, cache, u, m, path, i, trees).1.Blocked?
  {
    assert u in Elems(path + [u]);
    FetchOwnersStep(w, cache, u, m, path, i, trees);
  }

  /** One more owner's tree is settled. */
  ghost predicate OneMoreTree(w: World, cache: Memo, u: Uid, m: Meta, path: seq<Uid>, i: nat, trees: seq<Tree>) {
    i <= |m.owners| && LoopOk(w, cache, u, m, path, i, trees) && Searching(w, cache, u, m, path) && AreSettled(cache, Uncut(m.owners[..i], path), trees)
  }

  lemma TreeAdded(w: World, cache: Memo, cache': Memo, u: Uid, m: Meta, path: seq<Uid>, i: nat, trees: seq<Tree>, t: Tree)
    requires OneMoreTree(w, cache, u, m, path, i, trees) && i < |m.owners| && m.owners[i] !in path && m.owners[i] != u
    requires CallOk(w, Elems(path + [u]), cache, cache', m.owners[i], Ok(t)) && AllShaped(w, cache')
    ensures OneMoreTree(w, cache', u, m, path, i + 1, trees + [t])
  {
    AddSubtree(w, cache, cache', u, m, path, i, trees, t);
    SettledOnward(cache, cache', Uncut(m.owners[..i], path), trees);
    assert EntryOk(w, cache', m.owners[i]);
    SettledNext(cache', Uncut(m.owners[..i], path), trees, m.owners[i], t);
    UncutNext(m.owners, path, i);
  }

  lemma {:induction false} NextOwnerShaped(w: World, cache: Memo, u: Uid, m: Meta, path: seq<Uid>, i: nat, trees: seq<Tree>)
    requires OneMoreTree(w, cache, u, m, path, i, trees)
    requires i < |m.owners| && m.owners[i] !in path && m.owners[i] != u
    ensures LoopShaped(w, u, m, path, FetchOwners(w, cache, u, m, path, i, trees))
    decreases Unvisited(w, cache), 1, |m.owners| - i, 0
  {
    var owner := m.owners[i];
    assert owner in Out(OwnerGraph(w), u);
    OwnerPathLeads(w, path, u, owner);
    FetchOk(w, cache, owner, path + [u]);
    FetchShaped(w, cache, owner, path + [u]);
    FetchOwnersStep(w, cache, u, m, path, i, trees);
    var (cache', o) := Fetch(w, cache, owner, path + [u]);
    UnvisitedFalls(w, cache, cache');
    if o.Returned? && o.result.Ok? {
      TreeAdded(w, cache, cache', u, m, path, i, trees, o.result.tree);
      FetchOwnersShaped(w, cache', u, m, path, i + 1, trees + [o.result.tree]);
    }
  }

  // ---- calls from the outside ----

  /** A call that finds the memo idle and u not in it: the tree has u's creation
      time and the settled trees of all its owners, in order, none cut. */
  lemma TopLevelAnswer(w: World, cache: Memo, u: Uid)
    requires Good(w, cache, {}) && AllShaped(w, cache)
    ensures var (cache', o) := Fetch(w, cache, u, []);
            && (o.Returned? ==> AllShaped(w, cache'))
            && (u != "" && u !in cache && o.Returned? && o.result.Ok? ==>
                  match LookupOf(w, u)
                  case Found(m) =>
                    o.result.tree.uid == u && o.result.tree.created == m.created && AreSettled(cache', m.owners, o.result.tree.owners)
                  case NotFound => o.result.tree == Leaf(u)
                  case Failed(_) => false)
  {
    assert Elems([]) == {};
    FetchShaped(w, cache, u, []);
    if LookupOf(w, u).Found? {
      NothingCut(LookupOf(w, u).meta.owners);
    }
  }

  /** The same for a caller that has the metadata that the server has. */
  lemma EntityAnswer(w: World, cache: Memo, u: Uid, m: Meta)
    requires Good(w, cache, {}) && AllShaped(w, cache) && u != "" && u !in cache && LookupOf(w, u) == Found(m)
    ensures var (cache', o) := FetchEntity(w, cache, u, m);
            && (o.Returned? ==> AllShaped(w, cache'))
            && (o.Returned? && o.result.Ok? ==>
                  o.result.tree.uid == u && o.result.tree.created == m.created && AreSettled(cache', m.owners, o.result.tree.owners))
  {
    TopLevelAnswer(w, cache, u);
    VisitingShrinks(w, cache, u);
    assert FetchEntity(w, cache, u, m) == Fetch(w, cache, u, []);
  }

  /** Whatever a single caller has asked for, all that is settled has this shape. */
  lemma {:induction false} CallsAreShaped(w: World, us: seq<Uid>)
    ensures Calls(w, us).1 ==> Good(w, Calls(w, us).0, {}) && AllShaped(w, Calls(w, us).0)
    decreases |us|
  {
    if us != [] {
      var before, u := us[..|us| - 1], us[|us| - 1];
      CallsAreShaped(w, before);
      if Calls(w, before).1 {
        TopLevelCall(w, Calls(w, before).0, u);
        TopLevelAnswer(w, Calls(w, before).0, u);
      }
    }
  }

  // ---- failures ----

  /** What has been found out about u is the error e. */
  ghost predicate FailedTo(cache: Memo, u: Uid, e: FetchError) {
    if u == "" then e == NotDeployed else u in cache && cache[u] == Settled(Err(e))
  }

  /** e is the error of owner i, and those before it that are no ancestors are fine. */
  ghost predicate FailsAt(cache: Memo, m: Meta, path: seq<Uid>, i: int, e: FetchError) {
    && 0 <= i < |m.owners| && m.owners[i] !in path && FailedTo(cache, m.owners[i], e)
    && forall k :: 0 <= k < i && m.owners[k] !in path ==> SettledOk(cache, m.owners[k])
  }

  ghost predicate SomeOwnerFails(cache: Memo, m: Meta, path: seq<Uid>, e: FetchError) {
    exists i :: FailsAt(cache, m, path, i, e)
  }

  ghost predicate LoopFails(m: Meta, path: seq<Uid>, r: (Memo, Outcome)) {
    r.1.Returned? && r.1.result.Err? ==> SomeOwnerFails(r.0, m, path, r.1.result.error)
  }

  lemma CallFails(w: World, cache: Memo, u: Uid, path: seq<Uid>)
    ensures var (cache', o) := Fetch(w, cache, u, path);
            o.Returned? && o.result.Err? ==> FailedTo(cache', u, o.result.error)
  {
  }

  lemma {:induction false} FetchOwnersFails(w: World, cache: Memo, u: Uid, m: Meta, path: seq<Uid>, i: nat, trees: seq<Tree>)
    requires LoopOk(w, cache, u, m, path, i, trees) && u != ""
    requires forall k :: 0 <= k < i && m.owners[k] !in path ==> SettledOk(cache, m.owners[k])
    ensures LoopFails(m, path, FetchOwners(w, cache, u, m, path, i, trees))
    decreases |m.owners| - i
  {
    if i == |m.owners| {
    } else if m.owners[i] in path {
      OwnerIsCut(w, cache, u, m, path, i, trees);
      FetchOwnersFails(w, cache, u, m, path, i + 1, trees);
    } else if m.owners[i] == u {
      SelfOwnerBlocks(w, cache, u, m, path, i, trees);
    } else {
      var owner := m.owners[i];
      FetchOk(w, cache, owner, path + [u]);
      CallFails(w, cache, owner, path + [u]);
      FetchOwnersStep(w, cache, u, m, path, i, trees);
      var (cache', o) := Fetch(w, cache, owner, path + [u]);
      if o.Returned? && o.result.Ok? {
        AddSubtree(w, cache, cache', u, m, path, i, trees, o.result.tree);
        FetchOwnersFails(w, cache', u, m, path, i + 1, trees + [o.result.tree]);
      } else if o.Returned? {
        assert FailsAt(cache', m, path, i, o.result.error);
      }
    }
  }

  /** A call that makes u's promise fails with the error of u's own lookup, or with
      that of the first of its owners, ancestors aside, that fails; an owner
      without a UID is not deployed. */
  lemma FailureIsTheFirst(w: World, cache: Memo, u: Uid, path: seq<Uid>)
    requires Good(w, cache, Elems(path)) && u !in path && u != "" && u !in cache && AllShaped(w, cache) && PathLeads(w, path, u)
    ensures var (cache', o) := Fetch(w, cache, u, path);
            o.Returned? && o.result.Err? ==>
              match LookupOf(w, u)
              case Found(m) => SomeOwnerFails(cache', m, path, o.result.error)
              case NotFound => false
              case Failed(message) => o.result.error == LookupFailed(message)
  {
    if LookupOf(w, u).Found? {
      var m := LookupOf(w, u).meta;
      StartOfLoop(w, cache, u, m, path);
      FetchOwnersFails(w, cache[u := Pending], u, m, path, 0, []);
      FetchOwnersOk(w, cache[u := Pending], u, m, path, 0, []);
      FetchFound(w, cache, u, m, path);
      var (cache', o) := FetchOwners(w, cache[u := Pending], u, m, path, 0, []);
      if o.Returned? && o.result.Err? {
        SettledAside(w, cache', u, m, path, o.result.error);
      }
    }
  }

  /** Settling u itself does not change what is known of its owners. */
  lemma SettledAside(w: World, cache: Memo, u: Uid, m: Meta, path: seq<Uid>, e: FetchError)
    requires Good(w, cache, Elems(path + [u])) && SomeOwnerFails(cache, m, path, e)
    ensures SomeOwnerFails(cache[u := Settled(Err(e))], m, path, e)
  {
    var i :| FailsAt(cache, m, path, i, e);
    assert u in Elems(path + [u]);
    assert FailsAt(cache[u := Settled(Err(e))], m, path, i, e);
  }
}
