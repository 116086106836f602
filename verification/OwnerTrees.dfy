/** Owner trees of Kubernetes objects, and what a fetcher without a memo would
    compute for them.

    A `World` is everything the API server answers about object metadata, fixed
    for the duration of a run; an object it does not list is not found. */
module OwnerTrees {
  import opened Graphs

  type Uid = string

  datatype Meta = Meta(created: int, owners: seq<Uid>)

  datatype Lookup = Found(meta: Meta) | NotFound | Failed(message: string)

  type World = map<Uid, Lookup>

  datatype Tree = Tree(uid: Uid, created: int, owners: seq<Tree>)

  datatype FetchError = NotDeployed | LookupFailed(message: string)

  datatype Result = Ok(tree: Tree) | Err(error: FetchError)

  /** A memo entry: its channel is open until resolve or reject closes it. */
  datatype Promise = Pending | Settled(result: Result)

  function LookupOf(w: World, u: Uid): Lookup {
    if u in w then w[u] else NotFound
  }

  /** What an object without metadata of its own looks like: no creation time. */
  function Leaf(u: Uid): Tree {
    Tree(u, 0, [])
  }

  /** The edges a fetcher may follow: from every object whose metadata can be
      read to the objects it names as owners. */
  function OwnerGraph(w: World): Graph<Uid> {
    map u | u in w && u != "" && w[u].Found? :: w[u].meta.owners
  }

  /** No lookup fails and no object names an owner without a UID. */
  ghost predicate Readable(w: World) {
    && (forall u :: u in w ==> !w[u].Failed?)
    && (forall u :: u in w && w[u].Found? ==> "" !in w[u].meta.owners)
  }

  // ---- what a tree holds when cycles are cut ----

  /** The owner references that are no ancestors, in order. */
  function Uncut(owners: seq<Uid>, path: seq<Uid>): seq<Uid> {
    if owners == [] then []
    else
      var before, o := Uncut(owners[..|owners| - 1], path), owners[|owners| - 1];
      if o in path then before else before + [o]
  }

  lemma UncutNext(owners: seq<Uid>, path: seq<Uid>, i: nat)
    requires i < |owners|
    ensures Uncut(owners[..i + 1], path) == Uncut(owners[..i], path) + if owners[i] in path then [] else [owners[i]]
  {
    assert owners[..i + 1][..i] == owners[..i];
  }

  /** Where there are no ancestors nothing is cut. */
  lemma {:induction false} NothingCut(owners: seq<Uid>)
    ensures Uncut(owners, []) == owners
    decreases |owners|
  {
    if owners != [] {
      NothingCut(owners[..|owners| - 1]);
    }
  }

  /** The trees are the settled ones of these objects, one for each, in order. */
  ghost predicate AreSettled(cache: map<Uid, Promise>, us: seq<Uid>, trees: seq<Tree>) {
    && |trees| == |us|
    && forall k {:trigger us[k]} {:trigger trees[k]} :: 0 <= k < |us| ==>
         us[k] in cache && cache[us[k]] == Settled(Ok(trees[k])) && trees[k].uid == us[k]
  }

  /** u's tree, looked for below the ancestors on the path. */
  ghost predicate TreeBelow(cache: map<Uid, Promise>, u: Uid, m: Meta, path: seq<Uid>, t: Tree) {
    t.uid == u && t.created == m.created && AreSettled(cache, Uncut(m.owners, path), t.owners)
  }

  ghost predicate PathLeads(w: World, path: seq<Uid>, u: Uid) {
    forall p {:trigger p in path} :: p in path ==> Reaches(OwnerGraph(w), p, u)
  }

  /** The tree has u's creation time and the settled trees of all its owners, in
      order, but for some that lead back to u; an unknown object is a leaf. */
  ghost predicate Shaped(w: World, cache: map<Uid, Promise>, u: Uid, t: Tree) {
    match LookupOf(w, u)
    case Found(m) => exists path {:trigger PathLeads(w, path, u)} :: PathLeads(w, path, u) && TreeBelow(cache, u, m, path, t)
    case NotFound => t == Leaf(u)
    case Failed(_) => false
  }

  ghost predicate IsSettledTo(cache: map<Uid, Promise>, u: Uid, t: Tree) {
    u in cache && cache[u] == Settled(Ok(t))
  }

  ghost predicate AllShaped(w: World, cache: map<Uid, Promise>) {
    forall u, t {:trigger IsSettledTo(cache, u, t)} :: IsSettledTo(cache, u, t) ==> Shaped(w, cache, u, t)
  }

  /** Trees stay settled while the memo grows. */
  lemma SettledOnward(cache: map<Uid, Promise>, cache': map<Uid, Promise>, us: seq<Uid>, trees: seq<Tree>)
    requires AreSettled(cache, us, trees)
    requires forall v :: v in cache && cache[v].Settled? ==> v in cache' && cache'[v] == cache[v]
    ensures AreSettled(cache', us, trees)
  {
  }

  lemma ShapedOnward(w: World, cache: map<Uid, Promise>, cache': map<Uid, Promise>, u: Uid, t: Tree)
    requires Shaped(w, cache, u, t)
    requires forall v :: v in cache && cache[v].Settled? ==> v in cache' && cache'[v] == cache[v]
    ensures Shaped(w, cache', u, t)
  {
    if LookupOf(w, u).Found? {
      var m := LookupOf(w, u).meta;
      var path :| PathLeads(w, path, u) && TreeBelow(cache, u, m, path, t);
      SettledOnward(cache, cache', Uncut(m.owners, path), t.owners);
      assert TreeBelow(cache', u, m, path, t);
    }
  }

  lemma SettledNext(cache: map<Uid, Promise>, us: seq<Uid>, trees: seq<Tree>, u: Uid, t: Tree)
    requires AreSettled(cache, us, trees) && IsSettledTo(cache, u, t) && t.uid == u
    ensures AreSettled(cache, us + [u], trees + [t])
  {
  }

  /** One more entry is settled and all are still shaped. */
  lemma AllShapedSettle(w: World, cache: map<Uid, Promise>, u: Uid, r: Result)
    requires AllShaped(w, cache) && (u in cache ==> cache[u].Pending?)
    requires r.Ok? ==> Shaped(w, cache, u, r.tree)
    ensures AllShaped(w, cache[u := Settled(r)])
  {
    var cache' := cache[u := Settled(r)];
    forall v, t | IsSettledTo(cache', v, t)
      ensures Shaped(w, cache', v, t)
    {
      if v != u {
        assert IsSettledTo(cache, v, t);
      }
      ShapedOnward(w, cache, cache', v, t);
    }
  }

  // ---- plain recursion, without a memo and without cycle breaking ----

  ghost function Unfold(w: World, rank: map<Uid, nat>, u: Uid): Result
    requires Ranks(OwnerGraph(w), rank)
    decreases RankOf(rank, u), 1, 0
  {
    if u == "" then
      Err(NotDeployed)
    else
      match LookupOf(w, u)
      case NotFound => Ok(Leaf(u))
      case Failed(message) => Err(LookupFailed(message))
      case Found(m) => UnfoldOwners(w, rank, u, m, 0, [])
  }

  /** The owners from position i on, after `trees` for those before it. */
  ghost function UnfoldOwners(w: World, rank: map<Uid, nat>, u: Uid, m: Meta, i: nat, trees: seq<Tree>): Result
    requires Ranks(OwnerGraph(w), rank)
    requires u != "" && LookupOf(w, u) == Found(m) && i <= |m.owners|
    decreases RankOf(rank, u), 0, |m.owners| - i
  {
    if i == |m.owners| then
      Ok(Tree(u, m.created, trees))
    else
      assert u in OwnerGraph(w) && m.owners[i] in OwnerGraph(w)[u];
      match Unfold(w, rank, m.owners[i])
      case Err(e) => Err(e)
      case Ok(tree) => UnfoldOwners(w, rank, u, m, i + 1, trees + [tree])
  }

  ghost function SomeRank(w: World): (rank: map<Uid, nat>)
    requires Acyclic(OwnerGraph(w))
    ensures Ranks(OwnerGraph(w), rank)
  {
    assert exists r: map<Uid, nat> :: Ranks(OwnerGraph(w), r) by {
      var r := AcyclicHasRank(OwnerGraph(w));
    }
    var r: map<Uid, nat> :| Ranks(OwnerGraph(w), r);
    r
  }

  /** The owner tree of u by plain recursion over an acyclic owner graph. */
  ghost function Uncached(w: World, u: Uid): Result
    requires Acyclic(OwnerGraph(w))
  {
    Unfold(w, SomeRank(w), u)
  }

  ghost function UncachedFrom(w: World, u: Uid, m: Meta, i: nat, trees: seq<Tree>): Result
    requires Acyclic(OwnerGraph(w))
    requires u != "" && LookupOf(w, u) == Found(m) && i <= |m.owners|
  {
    UnfoldOwners(w, SomeRank(w), u, m, i, trees)
  }

  // ---- when plain recursion fails ----

  /** A UID whose own lookup cannot succeed. */
  predicate Unreadable(w: World, u: Uid) {
    u == "" || LookupOf(w, u).Failed?
  }

  ghost predicate ReachesUnreadable(w: World, u: Uid) {
    exists v :: Reaches(OwnerGraph(w), u, v) && Unreadable(w, v)
  }

  lemma {:induction false} UnfoldErrReaches(w: World, rank: map<Uid, nat>, u: Uid)
    requires Ranks(OwnerGraph(w), rank)
    requires Unfold(w, rank, u).Err?
    ensures ReachesUnreadable(w, u)
    decreases RankOf(rank, u), 1, 0
  {
    if Unreadable(w, u) {
      ReachesSelf(OwnerGraph(w), u);
    } else {
      UnfoldOwnersErrReaches(w, rank, u, LookupOf(w, u).meta, 0, []);
    }
  }

  lemma {:induction false} UnfoldOwnersErrReaches(w: World, rank: map<Uid, nat>, u: Uid, m: Meta, i: nat, trees: seq<Tree>)
    requires Ranks(OwnerGraph(w), rank)
    requires u != "" && LookupOf(w, u) == Found(m) && i <= |m.owners|
    requires UnfoldOwners(w, rank, u, m, i, trees).Err?
    ensures ReachesUnreadable(w, u)
    decreases RankOf(rank, u), 0, |m.owners| - i
  {
    var o := m.owners[i];
    assert u in OwnerGraph(w) && o in OwnerGraph(w)[u];
    var r := Unfold(w, rank, o);
    if r.Err? {
      UnfoldErrReaches(w, rank, o);
      var v :| Reaches(OwnerGraph(w), o, v) && Unreadable(w, v);
      ReachesStep(OwnerGraph(w), u, o, v);
    } else {
      UnfoldOwnersErrReaches(w, rank, u, m, i + 1, trees + [r.tree]);
    }
  }

  lemma {:induction false} UnfoldOkOwners(w: World, rank: map<Uid, nat>, u: Uid, m: Meta, i: nat, trees: seq<Tree>, k: nat)
    requires Ranks(OwnerGraph(w), rank)
    requires u != "" && LookupOf(w, u) == Found(m) && i <= k < |m.owners|
    requires UnfoldOwners(w, rank, u, m, i, trees).Ok?
    ensures Unfold(w, rank, m.owners[k]).Ok?
    decreases k - i
  {
    var r := Unfold(w, rank, m.owners[i]);
    if i < k {
      UnfoldOkOwners(w, rank, u, m, i + 1, trees + [r.tree], k);
    }
  }

  lemma {:induction false} UnfoldOkAlongWalk(w: World, rank: map<Uid, nat>, p: seq<Uid>)
    requires Ranks(OwnerGraph(w), rank)
    requires IsWalk(OwnerGraph(w), p) && Unfold(w, rank, p[0]).Ok?
    ensures Unfold(w, rank, p[|p| - 1]).Ok?
    decreases |p|
  {
    if |p| > 1 {
      var u, q := p[0], p[1..];
      assert p[0 + 1] in Out(OwnerGraph(w), p[0]);
      var m := LookupOf(w, u).meta;
      var k :| 0 <= k < |m.owners| && m.owners[k] == p[1];
      UnfoldOkOwners(w, rank, u, m, 0, [], k);
      assert forall i :: 0 <= i < |q| - 1 ==> q[i + 1] in Out(OwnerGraph(w), q[i]);
      UnfoldOkAlongWalk(w, rank, q);
    }
  }

  /** Plain recursion fails exactly when some object reachable over owner
      references cannot be read. */
  lemma UncachedFailsExactlyWhen(w: World, u: Uid)
    requires Acyclic(OwnerGraph(w))
    ensures Uncached(w, u).Err? <==> ReachesUnreadable(w, u)
  {
    var rank := SomeRank(w);
    if Uncached(w, u).Err? {
      UnfoldErrReaches(w, rank, u);
    } else if ReachesUnreadable(w, u) {
      var v :| Reaches(OwnerGraph(w), u, v) && Unreadable(w, v);
      var p :| IsWalk(OwnerGraph(w), p) && p[0] == u && p[|p| - 1] == v;
      UnfoldOkAlongWalk(w, rank, p);
    }
  }

  /** A successful unfolding is rooted at the object asked for and has, in
      order, the unfolding of every owner under it: nothing is skipped. */
  lemma {:induction false} UnfoldOwnersShape(w: World, rank: map<Uid, nat>, u: Uid, m: Meta, i: nat, trees: seq<Tree>)
    requires Ranks(OwnerGraph(w), rank)
    requires u != "" && LookupOf(w, u) == Found(m) && i == |trees| <= |m.owners|
    requires UnfoldOwners(w, rank, u, m, i, trees).Ok?
    ensures var t := UnfoldOwners(w, rank, u, m, i, trees).tree;
            && t.uid == u && t.created == m.created
            && |t.owners| == |m.owners| && t.owners[..i] == trees
            && forall k :: i <= k < |m.owners| ==> Unfold(w, rank, m.owners[k]) == Ok(t.owners[k])
    decreases |m.owners| - i
  {
    if i < |m.owners| {
      var r := Unfold(w, rank, m.owners[i]);
      UnfoldOwnersShape(w, rank, u, m, i + 1, trees + [r.tree]);
      var t := UnfoldOwners(w, rank, u, m, i, trees).tree;
      assert t.owners[..i + 1] == trees + [r.tree];
      assert t.owners[i] == t.owners[..i + 1][i] == r.tree;
      assert t.owners[..i] == t.owners[..i + 1][..i] == trees;
    } else {
      assert trees[..i] == trees;
    }
  }

  lemma UncachedShape(w: World, u: Uid)
    requires Acyclic(OwnerGraph(w))
    requires Uncached(w, u).Ok?
    ensures var t := Uncached(w, u).tree;
            match LookupOf(w, u)
            case Found(m) =>
              && t.uid == u && t.created == m.created && |t.owners| == |m.owners|
              && forall k :: 0 <= k < |m.owners| ==> Uncached(w, m.owners[k]) == Ok(t.owners[k])
            case _ => t == Leaf(u)
  {
    if LookupOf(w, u).Found? {
      UnfoldOwnersShape(w, SomeRank(w), u, LookupOf(w, u).meta, 0, []);
    }
  }
}
