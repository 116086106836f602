/** The owner fetcher with a single caller, on any owner graph, cyclic ones
    included. Waiting on a promise that is still open is waiting on oneself. */
module OwnerFetching {
  import opened Shared
  import opened Graphs
  import opened OwnerTrees

  datatype Outcome = Returned(result: Result) | Blocked

  type Memo = map<Uid, Promise>

  ghost function Unvisited(w: World, cache: Memo): nat {
    |Nodes(OwnerGraph(w)) - cache.Keys|
  }

  lemma VisitingShrinks(w: World, cache: Memo, u: Uid)
    requires u !in cache && u in OwnerGraph(w)
    ensures Unvisited(w, cache[u := Pending]) < Unvisited(w, cache)
  {
    assert Nodes(OwnerGraph(w)) - cache[u := Pending].Keys == (Nodes(OwnerGraph(w)) - cache.Keys) - {u};
  }

  lemma UnvisitedFalls(w: World, before: Memo, after: Memo)
    requires before.Keys <= after.Keys
    ensures Unvisited(w, after) <= Unvisited(w, before)
  {
    SubsetSize(Nodes(OwnerGraph(w)) - after.Keys, Nodes(OwnerGraph(w)) - before.Keys);
  }

  // ---- the recursion with its memo and its path of ancestors ----

  /** The memo after looking for u's tree below `path`, and what comes back. */
  ghost function Fetch(w: World, cache: Memo, u: Uid, path: seq<Uid>): (r: (Memo, Outcome))
    ensures cache.Keys <= r.0.Keys
    decreases Unvisited(w, cache), 0, 0
  {
    if u == "" then
      (cache, Returned(Err(NotDeployed)))
    else if u in cache then
      (cache, if cache[u].Pending? then Blocked else Returned(cache[u].result))
    else
      match LookupOf(w, u)
      case NotFound => Settle(cache, u, Ok(Leaf(u)))
      case Failed(message) => Settle(cache, u, Err(LookupFailed(message)))
      case Found(m) =>
        VisitingShrinks(w, cache, u);
        FetchGiven(w, cache, u, m, path)
  }

  /** u's metadata is known and its promise is not yet in the memo. */
  ghost function FetchGiven(w: World, cache: Memo, u: Uid, m: Meta, path: seq<Uid>): (r: (Memo, Outcome))
    ensures cache.Keys <= r.0.Keys
    decreases Unvisited(w, cache[u := Pending]), 2, 0
  {
    var (cache', o) := FetchOwners(w, cache[u := Pending], u, m, path, 0, []);
    if o.Blocked? then (cache', Blocked) else Settle(cache', u, o.result)
  }

  ghost function Settle(cache: Memo, u: Uid, r: Result): (Memo, Outcome) {
    (cache[u := Settled(r)], Returned(r))
  }

  ghost function FetchOwners(w: World, cache: Memo, u: Uid, m: Meta, path: seq<Uid>, i: nat, trees: seq<Tree>): (r: (Memo, Outcome))
    ensures cache.Keys <= r.0.Keys
    decreases Unvisited(w, cache), 1, |m.owners| - i
  {
    if i >= |m.owners| then
      (cache, Returned(Ok(Tree(u, m.created, trees))))
    else if m.owners[i] in path then
      FetchOwners(w, cache, u, m, path, i + 1, trees)
    else
      var (cache', o) := Fetch(w, cache, m.owners[i], path + [u]);
      UnvisitedFalls(w, cache, cache');
      match o
      case Blocked => (cache', Blocked)
      case Returned(Err(e)) => (cache', Returned(Err(e)))
      case Returned(Ok(tree)) => FetchOwners(w, cache', u, m, path, i + 1, trees + [tree])
  }

  /** OwnerTreeOf: the entity brings its own metadata. */
  ghost function FetchEntity(w: World, cache: Memo, u: Uid, m: Meta): (Memo, Outcome) {
    if u == "" then
      (cache, Returned(Err(NotDeployed)))
    else if u in cache then
      (cache, if cache[u].Pending? then Blocked else Returned(cache[u].result))
    else
      FetchGiven(w, cache, u, m, [])
  }

  // ---- the fetcher itself ----

  class OwnerFetcher {
    const world: World // what the API server answers
    var cache: map<Uid, Promise>

    /** Between calls no promise is open, and every settled tree is sound. */
    ghost predicate Valid()
      reads this
    {
      Good(world, cache, {})
    }

    constructor (world: World)
      ensures Valid() && this.world == world && cache == map[]
    {
      this.world := world;
      cache := map[];
    }

    method GetOrCreatePromise(id: Uid) returns (promise: Promise, ok: bool)
      modifies this
      ensures ok == (id in old(cache))
      ensures cache == if ok then old(cache) else old(cache)[id := Pending]
      ensures promise == cache[id]
    {
      ok := id in cache;
      if !ok {
        cache := cache[id := Pending];
      }
      promise := cache[id];
    }

    method OwnerTreeOfRef(ref: Uid) returns (o: Outcome)
      requires Valid()
      modifies this
      ensures cache == Fetch(world, old(cache), ref, []).0 && o == Fetch(world, old(cache), ref, []).1
      ensures o.Returned? ==> Valid() && Grows(old(cache), cache)
      ensures o.Returned? && o.result.Ok? ==> o.result.tree.uid == ref && NoRepeat(o.result.tree)
      ensures o.Blocked? ==> ReachesSelfOwner(world, ref)
      ensures Readable(world) && NoErrors(old(cache)) ==> (o.Blocked? <==> ref != "" && ReachesSelfOwner(world, ref))
      ensures Acyclic(OwnerGraph(world)) && MemoRight(world, old(cache)) ==>
                o == Returned(Uncached(world, ref)) && MemoRight(world, cache)
    {
      TopLevelCall(world, cache, ref);
      o := OwnerTreeOfRefHelper(ref, []);
    }

    method OwnerTreeOfRefHelper(ref: Uid, path: seq<Uid>) returns (o: Outcome)
      modifies this
      ensures cache == Fetch(world, old(cache), ref, path).0 && o == Fetch(world, old(cache), ref, path).1
      decreases Unvisited(world, cache), 0, 0
    {
      if ref == "" {
        return Returned(Err(NotDeployed));
      }
      ghost var before := cache;
      var promise, ok := GetOrCreatePromise(ref);
      if ok {
        return if promise.Pending? then Blocked else Returned(promise.result);
      }
      match LookupOf(world, ref) {
        case NotFound =>
          o := Returned(Ok(Leaf(ref)));
        case Failed(message) =>
          o := Returned(Err(LookupFailed(message)));
        case Found(meta) =>
          VisitingShrinks(world, before, ref);
          assert Fetch(world, before, ref, path) == FetchGiven(world, before, ref, meta, path);
          o := OwnerTreeOfHelper(ref, meta, path);
      }
      if o.Returned? {
        cache := cache[ref := Settled(o.result)];
      }
    }

    /** The entity's metadata is the server's, if the server has any. */
    method OwnerTreeOf(uid: Uid, meta: Meta) returns (o: Outcome)
      requires Valid()
      requires LookupOf(world, uid).Found? ==> LookupOf(world, uid) == Found(meta)
      modifies this
      ensures cache == FetchEntity(world, old(cache), uid, meta).0 && o == FetchEntity(world, old(cache), uid, meta).1
      ensures o.Returned? ==> Valid() && Grows(old(cache), cache)
      ensures o.Returned? && o.result.Ok? ==> o.result.tree.uid == uid && NoRepeat(o.result.tree)
      ensures o.Blocked? ==> OwnersReachSelfOwner(world, uid, meta)
    {
      EntityCall(world, cache, uid, meta);
      if uid == "" {
        return Returned(Err(NotDeployed));
      }
      var promise, ok := GetOrCreatePromise(uid);
      if ok {
        return if promise.Pending? then Blocked else Returned(promise.result);
      }
      o := OwnerTreeOfHelper(uid, meta, []);
      if o.Returned? {
        cache := cache[uid := Settled(o.result)];
      }
    }

    method OwnerTreeOfHelper(ref: Uid, meta: Meta, path: seq<Uid>) returns (o: Outcome)
      modifies this
      ensures cache == FetchOwners(world, old(cache), ref, meta, path, 0, []).0 && o == FetchOwners(world, old(cache), ref, meta, path, 0, []).1
      decreases Unvisited(world, cache), 1, 0
    {
      var trees: seq<Tree> := [];
      for i := 0 to |meta.owners|
        invariant old(cache).Keys <= cache.Keys
        invariant FetchOwners(world, cache, ref, meta, path, i, trees)
               == FetchOwners(world, old(cache), ref, meta, path, 0, [])
      {
        if meta.owners[i] in path {
          continue; // break circular dependencies
        }
        UnvisitedFalls(world, old(cache), cache);
        FetchOwnersStep(world, cache, ref, meta, path, i, trees);
        ghost var before := cache;
        var owner := OwnerTreeOfRefHelper(meta.owners[i], path + [ref]);
        assert before.Keys <= cache.Keys;
        match owner
        case Blocked => return Blocked;
        case Returned(Err(e)) => return owner;
        case Returned(Ok(tree)) => trees := trees + [tree];
      }
      o := Returned(Ok(Tree(ref, meta.created, trees)));
    }
  }

  /** A found object is looked for by way of its owners. */
  lemma FetchFound(w: World, cache: Memo, u: Uid, m: Meta, path: seq<Uid>)
    requires u != "" && u !in cache && LookupOf(w, u) == Found(m)
    ensures var (cache', o) := FetchOwners(w, cache[u := Pending], u, m, path, 0, []);
            Fetch(w, cache, u, path) == if o.Blocked? then (cache', Blocked) else (cache'[u := Settled(o.result)], o)
  {
    VisitingShrinks(w, cache, u);
    assert Fetch(w, cache, u, path) == FetchGiven(w, cache, u, m, path);
  }

  lemma FetchOwnersStep(w: World, cache: Memo, u: Uid, m: Meta, path: seq<Uid>, i: nat, trees: seq<Tree>)
    requires i < |m.owners| && m.owners[i] !in path
    ensures var (cache', o) := Fetch(w, cache, m.owners[i], path + [u]);
            FetchOwners(w, cache, u, m, path, i, trees) ==
            if o.Returned? && o.result.Ok? then FetchOwners(w, cache', u, m, path, i + 1, trees + [o.result.tree]) else (cache', o)
  {
  }

  // ---- what the memo holds between steps ----

  /** A node of the tree, at any depth. */
  function UidsOf(t: Tree): set<Uid> {
    {t.uid} + UidsOfAll(t.owners)
  }

  function UidsOfAll(ts: seq<Tree>): set<Uid> {
    if ts == [] then {} else UidsOfAll(ts[..|ts| - 1]) + UidsOf(ts[|ts| - 1])
  }

  /** No UID repeats on any path from the root of t to a leaf. */
  predicate NoRepeat(t: Tree) {
    t.uid !in UidsOfAll(t.owners) && forall o :: o in t.owners ==> NoRepeat(o)
  }

  ghost predicate SelfOwner(w: World, u: Uid) {
    u in Out(OwnerGraph(w), u)
  }

  ghost predicate SettledOk(cache: Memo, u: Uid) {
    u in cache && cache[u].Settled? && cache[u].result.Ok?
  }

  /** A settled tree is about settled objects only, and complete: every owner
      of its root was looked for. */
  ghost predicate EntryOk(w: World, cache: Memo, u: Uid) {
    SettledOk(cache, u) ==>
      var t := cache[u].result.tree;
      && t.uid == u && NoRepeat(t)
      && (forall v :: v in UidsOf(t) ==> SettledOk(cache, v))
      && (forall o :: o in Out(OwnerGraph(w), u) ==> o in cache && o != u)
  }

  /** The promises still open are exactly those of `open`. */
  ghost predicate Good(w: World, cache: Memo, open: set<Uid>) {
    && "" !in cache
    && (forall u :: u in open <==> u in cache && cache[u].Pending?)
    && (forall u :: u in cache ==> EntryOk(w, cache, u))
  }

  /** Settled promises stay as they are. */
  ghost predicate Grows(before: Memo, after: Memo) {
    && before.Keys <= after.Keys
    && forall u :: u in before && before[u].Settled? ==> after[u] == before[u]
  }

  ghost predicate NoErrors(cache: Memo) {
    forall u :: u in cache && cache[u].Settled? ==> cache[u].result.Ok?
  }

  ghost predicate ReachesSelfOwner(w: World, u: Uid) {
    exists v :: Reaches(OwnerGraph(w), u, v) && SelfOwner(w, v)
  }

  function Elems(path: seq<Uid>): set<Uid> {
    set u | u in path
  }

  /** A subtree whose objects are all settled and that repeats none of them on
      a branch. */
  ghost predicate SettledTree(cache: Memo, t: Tree) {
    NoRepeat(t) && forall v :: v in UidsOf(t) ==> SettledOk(cache, v)
  }

  lemma {:induction false} SubtreesSettled(cache: Memo, ts: seq<Tree>, v: Uid)
    requires forall t :: t in ts ==> SettledTree(cache, t)
    requires v in UidsOfAll(ts)
    ensures SettledOk(cache, v)
    decreases |ts|
  {
    assert ts[|ts| - 1] in ts;
    if v !in UidsOf(ts[|ts| - 1]) {
      SubtreesSettled(cache, ts[..|ts| - 1], v);
    }
  }

  /** What a call that returns leaves behind. */
  ghost predicate CallOk(w: World, open: set<Uid>, before: Memo, after: Memo, u: Uid, r: Result) {
    && Good(w, after, open) && Grows(before, after)
    && (r.Ok? ==> SettledOk(after, u) && after[u].result == r)
  }

  /** Every owner was looked for, and none is the object itself. */
  ghost predicate OwnersCovered(cache: Memo, u: Uid, m: Meta) {
    forall j :: 0 <= j < |m.owners| ==> m.owners[j] in cache && m.owners[j] != u
  }

  ghost predicate OwnersOk(w: World, open: set<Uid>, before: Memo, after: Memo, u: Uid, m: Meta, r: Result) {
    && Good(w, after, open) && Grows(before, after)
    && (r.Ok? ==> EntryOk(w, after[u := Settled(r)], u) && OwnersCovered(after, u, m))
  }

  lemma SettleGood(w: World, cache: Memo, open: set<Uid>, u: Uid, r: Result)
    requires Good(w, cache, open + {u}) && u !in open
    requires r.Ok? ==> EntryOk(w, cache[u := Settled(r)], u)
    ensures Good(w, cache[u := Settled(r)], open) && Grows(cache, cache[u := Settled(r)])
  {
    var after := cache[u := Settled(r)];
    assert u in open + {u};
    forall v | v in after
      ensures EntryOk(w, after, v)
    {
      if v != u {
        assert EntryOk(w, cache, v);
      }
    }
    forall v
      ensures v in open <==> v in after && after[v].Pending?
    {
      assert v in open + {u} <==> v in cache && cache[v].Pending?;
    }
  }

  lemma OpenGood(w: World, cache: Memo, open: set<Uid>, u: Uid)
    requires Good(w, cache, open) && u !in cache && u != ""
    ensures Good(w, cache[u := Pending], open + {u}) && Grows(cache, cache[u := Pending])
  {
    forall v | v in cache
      ensures EntryOk(w, cache[u := Pending], v)
    {
      assert EntryOk(w, cache, v);
    }
  }

  lemma {:induction false} FetchOk(w: World, cache: Memo, u: Uid, path: seq<Uid>)
    requires Good(w, cache, Elems(path)) && u !in path
    ensures var (cache', o) := Fetch(w, cache, u, path);
            match o
            case Returned(r) => CallOk(w, Elems(path), cache, cache', u, r)
            case Blocked => ReachesSelfOwner(w, u)
    decreases Unvisited(w, cache), 0, 0
  {
    if u == "" || u in cache {
      assert u in cache ==> EntryOk(w, cache, u);
    } else if LookupOf(w, u).Found? {
      VisitingShrinks(w, cache, u);
      var m := LookupOf(w, u).meta;
      FetchGivenOk(w, cache, u, m, path);
      assert Fetch(w, cache, u, path) == FetchGiven(w, cache, u, m, path);
      if FetchGiven(w, cache, u, m, path).1.Blocked? {
        OwnerBlocks(w, u);
      }
    } else {
      UnfoundOk(w, cache, u, path);
    }
  }

  lemma LeafIsOk(w: World, cache: Memo, u: Uid)
    requires LookupOf(w, u).NotFound?
    ensures EntryOk(w, cache[u := Settled(Ok(Leaf(u)))], u)
  {
    assert UidsOf(Leaf(u)) == {u};
  }

  lemma UnfoundOk(w: World, cache: Memo, u: Uid, path: seq<Uid>)
    requires Good(w, cache, Elems(path)) && u !in path && u !in cache && u != "" && !LookupOf(w, u).Found?
    ensures var (cache', o) := Fetch(w, cache, u, path);
            o.Returned? && CallOk(w, Elems(path), cache, cache', u, o.result)
  {
    var r := Fetch(w, cache, u, path).1.result;
    OpenGood(w, cache, Elems(path), u);
    assert cache[u := Pending][u := Settled(r)] == cache[u := Settled(r)];
    if LookupOf(w, u).NotFound? {
      LeafIsOk(w, cache, u);
    }
    SettleGood(w, cache[u := Pending], Elems(path), u, r);
  }

  /** u or one of its owners lists itself, or leads to an object that does. */
  ghost predicate OwnersReachSelfOwner(w: World, u: Uid, m: Meta) {
    u in m.owners || exists o :: o in m.owners && ReachesSelfOwner(w, o)
  }

  lemma OwnerBlocks(w: World, u: Uid)
    requires u != "" && LookupOf(w, u).Found? && OwnersReachSelfOwner(w, u, LookupOf(w, u).meta)
    ensures ReachesSelfOwner(w, u)
  {
    if SelfOwner(w, u) {
      ReachesSelf(OwnerGraph(w), u);
    } else {
      var o :| o in LookupOf(w, u).meta.owners && ReachesSelfOwner(w, o);
      var v :| Reaches(OwnerGraph(w), o, v) && SelfOwner(w, v);
      ReachesStep(OwnerGraph(w), u, o, v);
    }
  }

  lemma {:induction false} FetchGivenOk(w: World, cache: Memo, u: Uid, m: Meta, path: seq<Uid>)
    requires Good(w, cache, Elems(path)) && u !in cache && u != ""
    requires LookupOf(w, u).Found? ==> LookupOf(w, u) == Found(m)
    ensures var (cache', o) := FetchGiven(w, cache, u, m, path);
            match o
            case Returned(r) => CallOk(w, Elems(path), cache, cache', u, r) && (r.Ok? ==> OwnersCovered(cache', u, m))
            case Blocked => OwnersReachSelfOwner(w, u, m)
    decreases Unvisited(w, cache[u := Pending]), 2, 0
  {
    var begun := cache[u := Pending];
    OpenGood(w, cache, Elems(path), u);
    assert Elems(path + [u]) == Elems(path) + {u};
    FetchOwnersOk(w, begun, u, m, path, 0, []);
    var (cache', o) := FetchOwners(w, begun, u, m, path, 0, []);
    if o.Returned? {
      SettledCall(w, cache, cache', u, m, path, o.result);
    }
  }

  lemma SettledCall(w: World, cache: Memo, cache': Memo, u: Uid, m: Meta, path: seq<Uid>, r: Result)
    requires u !in cache && u !in path && OwnersOk(w, Elems(path + [u]), cache[u := Pending], cache', u, m, r)
    ensures CallOk(w, Elems(path), cache, cache'[u := Settled(r)], u, r)
    ensures r.Ok? ==> OwnersCovered(cache'[u := Settled(r)], u, m)
  {
    assert Elems(path + [u]) == Elems(path) + {u};
    SettleGood(w, cache', Elems(path), u, r);
  }

  /** The loop over u's owners has collected `trees` from those before i. */
  ghost predicate LoopOk(w: World, cache: Memo, u: Uid, m: Meta, path: seq<Uid>, i: nat, trees: seq<Tree>) {
    && Good(w, cache, Elems(path + [u])) && u !in path
    && i <= |m.owners|
    && (LookupOf(w, u).Found? ==> LookupOf(w, u) == Found(m))
    && (forall t :: t in trees ==> SettledTree(cache, t))
    && (forall j :: 0 <= j < i ==> m.owners[j] in cache && m.owners[j] != u)
  }

  lemma AddSubtree(w: World, before: Memo, after: Memo, u: Uid, m: Meta, path: seq<Uid>, i: nat, trees: seq<Tree>, tree: Tree)
    requires LoopOk(w, before, u, m, path, i, trees) && i < |m.owners| && m.owners[i] != u
    requires CallOk(w, Elems(path + [u]), before, after, m.owners[i], Ok(tree))
    ensures LoopOk(w, after, u, m, path, i + 1, trees + [tree])
  {
    assert EntryOk(w, after, m.owners[i]);
    forall t | t in trees + [tree]
      ensures SettledTree(after, t)
    {
      if t in trees {
        assert SettledTree(before, t);
      }
    }
  }

  lemma {:induction false} FetchOwnersOk(w: World, cache: Memo, u: Uid, m: Meta, path: seq<Uid>, i: nat, trees: seq<Tree>)
    requires LoopOk(w, cache, u, m, path, i, trees)
    ensures var (cache', o) := FetchOwners(w, cache, u, m, path, i, trees);
            match o
            case Returned(r) => OwnersOk(w, Elems(path + [u]), cache, cache', u, m, r)
            case Blocked => OwnersReachSelfOwner(w, u, m)
    decreases Unvisited(w, cache), 1, |m.owners| - i, 1
  {
    if i == |m.owners| {
      FinishedOwnersOk(w, cache, u, m, path, trees);
    } else if m.owners[i] in path {
      assert m.owners[i] in Elems(path + [u]);
      FetchOwnersOk(w, cache, u, m, path, i + 1, trees);
    } else if m.owners[i] == u {
      assert u in Elems(path + [u]);
    } else {
      FetchNextOwnerOk(w, cache, u, m, path, i, trees);
    }
  }

  lemma {:induction false} FetchNextOwnerOk(w: World, cache: Memo, u: Uid, m: Meta, path: seq<Uid>, i: nat, trees: seq<Tree>)
    requires LoopOk(w, cache, u, m, path, i, trees)
    requires i < |m.owners| && m.owners[i] !in path && m.owners[i] != u
    ensures var (cache', o) := FetchOwners(w, cache, u, m, path, i, trees);
            match o
            case Returned(r) => OwnersOk(w, Elems(path + [u]), cache, cache', u, m, r)
            case Blocked => OwnersReachSelfOwner(w, u, m)
    decreases Unvisited(w, cache), 1, |m.owners| - i, 0
  {
    FetchOk(w, cache, m.owners[i], path + [u]);
    var (cache', o) := Fetch(w, cache, m.owners[i], path + [u]);
    UnvisitedFalls(w, cache, cache');
    if o.Returned? && o.result.Ok? {
      AddSubtree(w, cache, cache', u, m, path, i, trees, o.result.tree);
      FetchOwnersOk(w, cache', u, m, path, i + 1, trees + [o.result.tree]);
      var (cache'', o') := FetchOwners(w, cache', u, m, path, i + 1, trees + [o.result.tree]);
      if o'.Returned? {
        OwnersOkCompose(w, Elems(path + [u]), cache, cache', cache'', u, m, o'.result);
      }
    }
  }

  lemma OwnersOkCompose(w: World, open: set<Uid>, before: Memo, between: Memo, after: Memo, u: Uid, m: Meta, r: Result)
    requires Grows(before, between) && OwnersOk(w, open, between, after, u, m, r)
    ensures OwnersOk(w, open, before, after, u, m, r)
  {
  }

  lemma FinishedOwnersOk(w: World, cache: Memo, u: Uid, m: Meta, path: seq<Uid>, trees: seq<Tree>)
    requires Good(w, cache, Elems(path + [u]))
    requires LookupOf(w, u).Found? ==> LookupOf(w, u) == Found(m)
    requires forall t :: t in trees ==> SettledTree(cache, t)
    requires forall j :: 0 <= j < |m.owners| ==> m.owners[j] in cache && m.owners[j] != u
    ensures EntryOk(w, cache[u := Settled(Ok(Tree(u, m.created, trees)))], u)
  {
    var t := Tree(u, m.created, trees);
    var after := cache[u := Settled(Ok(t))];
    assert u in Elems(path + [u]);
    forall v | v in UidsOfAll(trees)
      ensures SettledOk(cache, v) && v != u
    {
      SubtreesSettled(cache, trees, v);
    }
    assert forall o :: o in trees ==> SettledTree(cache, o);
  }

  // ---- readable metadata: blocking is the only way not to get a tree ----

  /** A tree, if anything, and no error in the memo. */
  ghost predicate Errorless(r: (Memo, Outcome)) {
    r.1.Returned? ==> r.1.result.Ok? && NoErrors(r.0)
  }

  lemma UnfoundNoErrors(w: World, cache: Memo, u: Uid, path: seq<Uid>)
    requires Readable(w) && NoErrors(cache) && u != "" && (u in cache || !LookupOf(w, u).Found?)
    ensures Errorless(Fetch(w, cache, u, path))
  {
  }

  lemma {:induction false} FetchNoErrors(w: World, cache: Memo, u: Uid, path: seq<Uid>)
    requires Readable(w) && NoErrors(cache) && u != ""
    ensures Errorless(Fetch(w, cache, u, path))
    decreases Unvisited(w, cache), 0, 0
  {
    if u in cache || !LookupOf(w, u).Found? {
      UnfoundNoErrors(w, cache, u, path);
    } else {
      VisitingShrinks(w, cache, u);
      var m := LookupOf(w, u).meta;
      assert "" !in m.owners;
      FetchOwnersNoErrors(w, cache[u := Pending], u, m, path, 0, []);
      FetchFound(w, cache, u, m, path);
    }
  }

  lemma {:induction false} FetchOwnersNoErrors(w: World, cache: Memo, u: Uid, m: Meta, path: seq<Uid>, i: nat, trees: seq<Tree>)
    requires Readable(w) && NoErrors(cache) && "" !in m.owners
    ensures Errorless(FetchOwners(w, cache, u, m, path, i, trees))
    decreases Unvisited(w, cache), 1, |m.owners| - i
  {
    if i < |m.owners| {
      if m.owners[i] in path {
        FetchOwnersNoErrors(w, cache, u, m, path, i + 1, trees);
      } else {
        FetchNoErrors(w, cache, m.owners[i], path + [u]);
        var (cache', o) := Fetch(w, cache, m.owners[i], path + [u]);
        UnvisitedFalls(w, cache, cache');
        FetchOwnersStep(w, cache, u, m, path, i, trees);
        if o.Returned? {
          FetchOwnersNoErrors(w, cache', u, m, path, i + 1, trees + [o.result.tree]);
        }
      }
    }
  }

  /** A settled tree covers everything its root reaches, so none of that owns
      itself. */
  lemma SettledReachesNoSelfOwner(w: World, cache: Memo, u: Uid)
    requires Good(w, cache, {}) && NoErrors(cache) && u in cache
    ensures !ReachesSelfOwner(w, u)
  {
    forall v, o | v in cache.Keys && o in Out(OwnerGraph(w), v)
      ensures o in cache.Keys && o != v
    {
      assert EntryOk(w, cache, v);
      assert v !in {} && !cache[v].Pending?;
    }
    forall v | Reaches(OwnerGraph(w), u, v)
      ensures !SelfOwner(w, v)
    {
      ClosedSetHoldsReachable(OwnerGraph(w), cache.Keys, u, v);
    }
  }

  // ---- acyclic graphs: the memo agrees with plain recursion ----

  ghost predicate MemoRight(w: World, cache: Memo)
    requires Acyclic(OwnerGraph(w))
  {
    forall u :: u in cache && cache[u].Settled? ==> cache[u].result == Uncached(w, u)
  }

  ghost predicate Above(w: World, path: seq<Uid>, u: Uid)
    requires Acyclic(OwnerGraph(w))
  {
    forall p :: p in path ==> RankOf(SomeRank(w), u) < RankOf(SomeRank(w), p)
  }

  /** What comes back, if anything, is r, and the memo is right. */
  ghost predicate Right(w: World, out: (Memo, Outcome), r: Result)
    requires Acyclic(OwnerGraph(w))
  {
    out.1.Returned? ==> out.1.result == r && MemoRight(w, out.0)
  }

  lemma {:induction false} FetchRight(w: World, cache: Memo, u: Uid, path: seq<Uid>)
    requires Acyclic(OwnerGraph(w)) && MemoRight(w, cache) && Above(w, path, u)
    ensures Right(w, Fetch(w, cache, u, path), Uncached(w, u))
    decreases Unvisited(w, cache), 0, 0
  {
    if u == "" || u in cache {
    } else if LookupOf(w, u).Found? {
      VisitingShrinks(w, cache, u);
      var m := LookupOf(w, u).meta;
      FetchOwnersRight(w, cache[u := Pending], u, m, path, 0, []);
      FetchFound(w, cache, u, m, path);
      var (cache', o) := FetchOwners(w, cache[u := Pending], u, m, path, 0, []);
      if o.Returned? {
        SettleRight(w, cache', u, m, o.result);
      }
    } else {
      UnfoundRight(w, cache, u, path);
    }
  }

  lemma SettleRight(w: World, cache: Memo, u: Uid, m: Meta, r: Result)
    requires Acyclic(OwnerGraph(w)) && MemoRight(w, cache) && u != "" && LookupOf(w, u) == Found(m)
    requires r == UncachedFrom(w, u, m, 0, [])
    ensures r == Uncached(w, u) && MemoRight(w, cache[u := Settled(r)])
  {
  }

  lemma UnfoundRight(w: World, cache: Memo, u: Uid, path: seq<Uid>)
    requires Acyclic(OwnerGraph(w)) && MemoRight(w, cache) && u != "" && u !in cache && !LookupOf(w, u).Found?
    ensures Right(w, Fetch(w, cache, u, path), Uncached(w, u))
  {
  }

  lemma UncachedStep(w: World, u: Uid, m: Meta, i: nat, trees: seq<Tree>)
    requires Acyclic(OwnerGraph(w)) && u != "" && LookupOf(w, u) == Found(m) && i < |m.owners|
    ensures UncachedFrom(w, u, m, i, trees) ==
            match Uncached(w, m.owners[i])
            case Err(e) => Err(e)
            case Ok(tree) => UncachedFrom(w, u, m, i + 1, trees + [tree])
  {
  }

  lemma {:induction false} FetchOwnersRight(w: World, cache: Memo, u: Uid, m: Meta, path: seq<Uid>, i: nat, trees: seq<Tree>)
    requires Acyclic(OwnerGraph(w)) && MemoRight(w, cache) && Above(w, path, u)
    requires u != "" && LookupOf(w, u) == Found(m) && i <= |m.owners|
    ensures Right(w, FetchOwners(w, cache, u, m, path, i, trees), UncachedFrom(w, u, m, i, trees))
    decreases Unvisited(w, cache), 1, |m.owners| - i
  {
    if i < |m.owners| {
      var owner := m.owners[i];
      OwnerIsBelow(w, u, m, path, i);
      FetchRight(w, cache, owner, path + [u]);
      var (cache', o) := Fetch(w, cache, owner, path + [u]);
      UnvisitedFalls(w, cache, cache');
      FetchOwnersStep(w, cache, u, m, path, i, trees);
      UncachedStep(w, u, m, i, trees);
      if o.Returned? && o.result.Ok? {
        FetchOwnersRight(w, cache', u, m, path, i + 1, trees + [o.result.tree]);
      }
    }
  }

  /** An owner ranks below all ancestors, so it is none of them. */
  lemma OwnerIsBelow(w: World, u: Uid, m: Meta, path: seq<Uid>, i: nat)
    requires Acyclic(OwnerGraph(w)) && Above(w, path, u)
    requires u != "" && LookupOf(w, u) == Found(m) && i < |m.owners|
    ensures Above(w, path + [u], m.owners[i]) && m.owners[i] !in path
  {
    assert u in OwnerGraph(w) && m.owners[i] in OwnerGraph(w)[u];
  }

  lemma NoSelfOwnerOnAcyclic(w: World, u: Uid)
    requires Acyclic(OwnerGraph(w))
    ensures !ReachesSelfOwner(w, u)
  {
    forall v
      ensures !SelfOwner(w, v)
    {
      assert !Closed(OwnerGraph(w), [v, v]);
    }
  }

  // ---- calls from the outside ----

  /** A call that finds the memo idle. It hangs only if u leads to an object
      that owns itself; when all metadata is readable, exactly then. */
  lemma TopLevelCall(w: World, cache: Memo, u: Uid)
    requires Good(w, cache, {})
    ensures var (cache', o) := Fetch(w, cache, u, []);
            && (o.Blocked? ==> ReachesSelfOwner(w, u))
            && (o.Returned? ==> Good(w, cache', {}) && Grows(cache, cache'))
            && (o.Returned? && o.result.Ok? ==> o.result.tree.uid == u && NoRepeat(o.result.tree))
            && (Readable(w) && NoErrors(cache) ==> (o.Blocked? <==> u != "" && ReachesSelfOwner(w, u)))
            && (Readable(w) && NoErrors(cache) && o.Returned? ==> NoErrors(cache'))
            && (Acyclic(OwnerGraph(w)) && MemoRight(w, cache) ==> o == Returned(Uncached(w, u)) && MemoRight(w, cache'))
  {
    assert Elems([]) == {};
    FetchOk(w, cache, u, []);
    var (cache', o) := Fetch(w, cache, u, []);
    if o.Returned? && o.result.Ok? {
      assert EntryOk(w, cache', u);
    }
    if Readable(w) && NoErrors(cache) && u != "" {
      FetchNoErrors(w, cache, u, []);
      if o.Returned? {
        SettledReachesNoSelfOwner(w, cache', u);
      }
    }
    if Acyclic(OwnerGraph(w)) && MemoRight(w, cache) {
      NoSelfOwnerOnAcyclic(w, u);
      FetchRight(w, cache, u, []);
    }
  }

  /** The calls of a single caller, one after the other, from an empty memo;
      whether all of them return. */
  ghost function Calls(w: World, us: seq<Uid>): (Memo, bool) {
    if us == [] then (map[], true)
    else
      var (cache, returned) := Calls(w, us[..|us| - 1]);
      var (cache', o) := Fetch(w, cache, us[|us| - 1], []);
      (cache', returned && o.Returned?)
  }

  ghost predicate NoneReachesSelfOwner(w: World, us: seq<Uid>) {
    forall i :: 0 <= i < |us| && us[i] != "" ==> !ReachesSelfOwner(w, us[i])
  }

  lemma ReachesSelfOwnerSnoc(w: World, us: seq<Uid>, u: Uid)
    ensures NoneReachesSelfOwner(w, us + [u]) <==> NoneReachesSelfOwner(w, us) && (u == "" || !ReachesSelfOwner(w, u))
  {
    assert forall i :: 0 <= i < |us| ==> (us + [u])[i] == us[i];
    assert (us + [u])[|us|] == u;
  }

  /** With readable metadata, however cyclic: a single caller's calls all return
      exactly when none of them leads to an object that owns itself. */
  lemma {:induction false} CallsReturnExactlyWhen(w: World, us: seq<Uid>)
    requires Readable(w)
    ensures Calls(w, us).1 <==> NoneReachesSelfOwner(w, us)
    ensures Calls(w, us).1 ==> Good(w, Calls(w, us).0, {}) && NoErrors(Calls(w, us).0)
    decreases |us|
  {
    if us != [] {
      var before, u := us[..|us| - 1], us[|us| - 1];
      CallsReturnExactlyWhen(w, before);
      assert us == before + [u];
      ReachesSelfOwnerSnoc(w, before, u);
      if Calls(w, before).1 {
        TopLevelCall(w, Calls(w, before).0, u);
      }
    }
  }

  lemma EntityCall(w: World, cache: Memo, u: Uid, m: Meta)
    requires Good(w, cache, {})
    requires LookupOf(w, u).Found? ==> LookupOf(w, u) == Found(m)
    ensures var (cache', o) := FetchEntity(w, cache, u, m);
            && (o.Blocked? ==> OwnersReachSelfOwner(w, u, m))
            && (Readable(w) && NoErrors(cache) && "" !in m.owners && u != "" && u !in cache ==>
                  (o.Blocked? <==> OwnersReachSelfOwner(w, u, m)))
            && (o.Returned? ==> Good(w, cache', {}) && Grows(cache, cache'))
            && (o.Returned? && o.result.Ok? ==> o.result.tree.uid == u && NoRepeat(o.result.tree))
            && (Acyclic(OwnerGraph(w)) && MemoRight(w, cache) && LookupOf(w, u) == Found(m) ==>
                  o == Returned(Uncached(w, u)) && MemoRight(w, cache'))
  {
    assert Elems([]) == {};
    if u != "" && u !in cache {
      FetchGivenOk(w, cache, u, m, []);
      if Readable(w) && NoErrors(cache) && "" !in m.owners {
        ReturnedReachesNoSelfOwner(w, cache, u, m);
      }
    }
    var (cache', o) := FetchEntity(w, cache, u, m);
    if o.Returned? && o.result.Ok? {
      assert EntryOk(w, cache', u);
    }
    if Acyclic(OwnerGraph(w)) && MemoRight(w, cache) && LookupOf(w, u) == Found(m) {
      EntityIsRef(w, cache, u, m);
      TopLevelCall(w, cache, u);
      NoSelfOwnerOnAcyclic(w, u);
    }
  }

  lemma ReturnedReachesNoSelfOwner(w: World, cache: Memo, u: Uid, m: Meta)
    requires Good(w, cache, {}) && u !in cache && u != ""
    requires LookupOf(w, u).Found? ==> LookupOf(w, u) == Found(m)
    requires Readable(w) && NoErrors(cache) && "" !in m.owners
    ensures FetchGiven(w, cache, u, m, []).1.Returned? ==> !OwnersReachSelfOwner(w, u, m)
  {
    assert Elems([]) == {};
    FetchGivenOk(w, cache, u, m, []);
    FetchOwnersNoErrors(w, cache[u := Pending], u, m, [], 0, []);
    var (cache', o) := FetchGiven(w, cache, u, m, []);
    if o.Returned? {
      assert o.result.Ok? && NoErrors(cache') && OwnersCovered(cache', u, m);
      forall v | v in m.owners
        ensures v != u && !ReachesSelfOwner(w, v)
      {
        SettledReachesNoSelfOwner(w, cache', v);
      }
    }
  }

  /** For an object that can be looked up, bringing its metadata along makes no
      difference. */
  lemma EntityIsRef(w: World, cache: Memo, u: Uid, m: Meta)
    requires LookupOf(w, u) == Found(m)
    ensures FetchEntity(w, cache, u, m) == Fetch(w, cache, u, [])
  {
  }

  // ---- what NoRepeat means ----

  /** b lists the UIDs from the root of t down to one of its nodes. */
  ghost predicate IsBranch(t: Tree, b: seq<Uid>) {
    && |b| > 0 && b[0] == t.uid
    && (|b| == 1 || exists o :: o in t.owners && IsBranch(o, b[1..]))
  }

  lemma {:induction false} BranchInside(t: Tree, b: seq<Uid>)
    requires IsBranch(t, b)
    ensures forall u :: u in b ==> u in UidsOf(t)
    decreases |b|
  {
    if |b| > 1 {
      var o :| o in t.owners && IsBranch(o, b[1..]);
      BranchInside(o, b[1..]);
      OwnerInside(t.owners, o);
    }
  }

  lemma {:induction false} OwnerInside(ts: seq<Tree>, t: Tree)
    requires t in ts
    ensures UidsOf(t) <= UidsOfAll(ts)
    decreases |ts|
  {
    if ts[|ts| - 1] != t {
      OwnerInside(ts[..|ts| - 1], t);
    }
  }

  lemma {:induction false} NoRepeatBranches(t: Tree, b: seq<Uid>)
    requires NoRepeat(t) && IsBranch(t, b)
    ensures Distinct(b)
    decreases |b|
  {
    if |b| > 1 {
      var o :| o in t.owners && IsBranch(o, b[1..]);
      NoRepeatBranches(o, b[1..]);
      BranchInside(o, b[1..]);
      OwnerInside(t.owners, o);
      forall i, j | 0 <= i < j < |b|
        ensures b[i] != b[j]
      {
        assert b[j] == b[1..][j - 1] && b[j] in b[1..];
        if i > 0 {
          assert b[i] == b[1..][i - 1];
        }
      }
    }
  }
}
