/** Splitting a sorted list of entities into batches that can be applied in
    parallel. */
module Batches {
  import opened Shared

  datatype ObjectAddress = ObjectAddress(name: string, namespace: string, kind: string, apiVersion: string)

  datatype Entity = Entity(address: ObjectAddress, spec: string)

  /** The order in which kinds are applied; an unlisted kind has order 0. */
  type TypeOrders = map<string, int>

  function TypeOrder(orders: TypeOrders, e: Entity): int {
    if e.address.kind in orders then orders[e.address.kind] else 0
  }

  type Batch = seq<Entity>

  /** One type order, no address twice. */
  ghost predicate Parallelizable(orders: TypeOrders, b: Batch) {
    && (forall i, j :: 0 <= i < j < |b| ==> TypeOrder(orders, b[i]) == TypeOrder(orders, b[j]))
    && (forall i, j :: 0 <= i < j < |b| ==> b[i].address != b[j].address)
  }

  ghost predicate IsBatch(orders: TypeOrders, b: Batch) {
    b != [] && Parallelizable(orders, b)
  }

  ghost predicate SplitOf(orders: TypeOrders, bs: seq<Batch>, l: seq<Entity>) {
    && Flatten(bs) == l
    && forall i :: 0 <= i < |bs| ==> IsBatch(orders, bs[i])
  }

  predicate Fits(orders: TypeOrders, before: seq<Entity>, batch: Batch, e: Entity) {
    && (before == [] || TypeOrder(orders, before[|before| - 1]) == TypeOrder(orders, e))
    && forall i :: 0 <= i < |batch| ==> batch[i].address != e.address
  }

  /** The finished batches and the one being filled, after reading l. */
  function Greedy(orders: TypeOrders, l: seq<Entity>): (seq<Batch>, Batch) {
    if l == [] then ([], [])
    else
      var before, e := l[..|l| - 1], l[|l| - 1];
      var (done, batch) := Greedy(orders, before);
      if Fits(orders, before, batch, e) then (done, batch + [e]) else (done + [batch], [e])
  }

  function ToBatches(orders: TypeOrders, l: seq<Entity>): seq<Batch> {
    var (done, batch) := Greedy(orders, l);
    if batch == [] then done else done + [batch]
  }

  method ToParallelizableBatches(orders: TypeOrders, l: seq<Entity>) returns (result: seq<Batch>)
    ensures result == ToBatches(orders, l)
  {
    result := [];
    var batch: Batch := [];
    var batchIDs: set<ObjectAddress> := {};
    for i := 0 to |l|
      invariant (result, batch) == Greedy(orders, l[..i])
      invariant batchIDs == set e | e in batch :: e.address
    {
      var e := l[i];
      var id := e.address;
      var sameTypeOrder := i == 0 || TypeOrder(orders, l[i - 1]) == TypeOrder(orders, e);
      assert l[..i + 1][..i] == l[..i];
      assert id in batchIDs <==> exists j :: 0 <= j < |batch| && batch[j].address == id;
      if sameTypeOrder && id !in batchIDs {
        batch := batch + [e];
        batchIDs := batchIDs + {id};
      } else {
        result := result + [batch];
        batch := [e];
        batchIDs := {id};
      }
    }
    assert l[..|l|] == l;
    if |batch| > 0 {
      result := result + [batch];
    }
  }

  // ---- the split is a split ----

  lemma SplitSnoc(orders: TypeOrders, bs: seq<Batch>, b: Batch, l: seq<Entity>)
    ensures SplitOf(orders, bs + [b], l + b) <==> SplitOf(orders, bs, l) && IsBatch(orders, b)
  {
    var all := bs + [b];
    assert all[..|bs|] == bs;
    assert Flatten(all) == Flatten(bs) + b;
    assert Flatten(all) == l + b <==> Flatten(bs) == l by {
      assert (Flatten(bs) + b)[..|Flatten(bs)|] == Flatten(bs);
      assert (l + b)[..|l|] == l;
      assert Flatten(bs) + b == l + b ==> |Flatten(bs)| == |l|;
    }
    if SplitOf(orders, all, l + b) {
      forall i | 0 <= i < |bs|
        ensures IsBatch(orders, bs[i])
      {
        assert all[i] == bs[i];
      }
      assert all[|bs|] == b;
    }
  }

  lemma LastBatch(orders: TypeOrders, bs: seq<Batch>, l: seq<Entity>)
    requires SplitOf(orders, bs, l) && l != []
    ensures bs != [] && var b := bs[|bs| - 1];
            && IsBatch(orders, b) && |b| <= |l| && l[|l| - |b|..] == b
            && SplitOf(orders, bs[..|bs| - 1], l[..|l| - |b|])
  {
    var rest, b := bs[..|bs| - 1], bs[|bs| - 1];
    assert bs == rest + [b];
    assert l == Flatten(rest) + b;
    SplitSnoc(orders, rest, b, Flatten(rest));
    assert l[..|l| - |b|] == Flatten(rest);
  }

  lemma GrowBatch(orders: TypeOrders, l: seq<Entity>, batch: Batch, e: Entity)
    requires IsBatch(orders, batch) && |batch| <= |l| && l[|l| - |batch|..] == batch
    ensures IsBatch(orders, batch + [e]) <==> Fits(orders, l, batch, e)
  {
    var more := batch + [e];
    var n := |batch|;
    assert more[n] == e && more[n - 1] == batch[n - 1] == l[|l| - 1];
    if IsBatch(orders, more) {
      forall i | 0 <= i < n
        ensures batch[i].address != e.address
      {
        assert more[i] == batch[i];
      }
    }
    if Fits(orders, l, batch, e) {
      forall i, j | 0 <= i < j < |more|
        ensures TypeOrder(orders, more[i]) == TypeOrder(orders, more[j]) && more[i].address != more[j].address
      {
        assert more[i] == batch[i];
        assert TypeOrder(orders, batch[i]) == TypeOrder(orders, batch[n - 1]) by {
          if i < n - 1 {}
        }
        if j < n {
          assert more[j] == batch[j];
        }
      }
    }
  }

  lemma SplitGrows(orders: TypeOrders, done: seq<Batch>, batch: Batch, before: seq<Entity>, e: Entity)
    requires before != [] && SplitOf(orders, done + [batch], before)
    ensures SplitOf(orders, done + [batch] + [[e]], before + [e])
    ensures Fits(orders, before, batch, e) ==> SplitOf(orders, done + [batch + [e]], before + [e])
  {
    var all := done + [batch];
    assert IsBatch(orders, [e]);
    SplitSnoc(orders, all, [e], before);
    LastBatch(orders, all, before);
    assert all[..|all| - 1] == done;
    GrowBatch(orders, before, batch, e);
    var first := before[..|before| - |batch|];
    assert first + (batch + [e]) == before + [e];
    SplitSnoc(orders, done, batch + [e], first);
  }

  lemma GreedyOne(orders: TypeOrders, e: Entity)
    ensures Greedy(orders, [e]) == ([], [e])
  {
    var l, none: Batch := [e], [];
    assert l[..|l| - 1] == none;
    assert Greedy(orders, none) == ([], none);
    assert none + [e] == [e];
  }

  lemma SplitOne(orders: TypeOrders, e: Entity)
    ensures SplitOf(orders, [[e]], [e])
  {
    var bs := [[e]];
    assert bs[..0] == [];
    assert Flatten(bs[..0]) == [];
    assert [] + [e] == [e];
    assert IsBatch(orders, bs[0]);
  }

  lemma {:induction false} GreedySplits(orders: TypeOrders, l: seq<Entity>)
    requires l != []
    ensures SplitOf(orders, Greedy(orders, l).0 + [Greedy(orders, l).1], l)
    decreases |l|
  {
    var before, e := l[..|l| - 1], l[|l| - 1];
    assert l == before + [e];
    if before == [] {
      assert l == [e];
      GreedyOne(orders, e);
      SplitOne(orders, e);
      assert [] + [[e]] == [[e]];
    } else {
      GreedySplits(orders, before);
      SplitGrows(orders, Greedy(orders, before).0, Greedy(orders, before).1, before, e);
    }
  }

  /** Batches concatenate to the input; none is empty; each has one type order
      and distinct addresses. */
  lemma BatchesAreSplit(orders: TypeOrders, l: seq<Entity>)
    ensures SplitOf(orders, ToBatches(orders, l), l)
  {
    if l != [] {
      GreedySplits(orders, l);
      LastBatch(orders, Greedy(orders, l).0 + [Greedy(orders, l).1], l);
    }
  }

  // ---- no split has fewer batches ----

  /** Greedy is never behind another split: it has used at most as many
      batches, and when equally many its last one is no longer. */
  lemma {:induction false} GreedyStaysAhead(orders: TypeOrders, l: seq<Entity>, other: seq<Batch>)
    requires l != [] && SplitOf(orders, other, l)
    ensures |other| >= |Greedy(orders, l).0| + 1
    ensures |other| == |Greedy(orders, l).0| + 1 ==> |other[|other| - 1]| >= |Greedy(orders, l).1|
    decreases |l|
  {
    var before, e := l[..|l| - 1], l[|l| - 1];
    var done, batch := Greedy(orders, before).0, Greedy(orders, before).1;
    LastBatch(orders, other, l);
    var rest, last := other[..|other| - 1], other[|other| - 1];
    if before == [] {
      return;
    }
    GreedySplits(orders, before);
    LastBatch(orders, done + [batch], before);
    if |last| == 1 {
      assert l[..|l| - 1] == before;
      GreedyStaysAhead(orders, before, rest);
      return;
    }
    var b := last[..|last| - 1];
    Shortened(orders, l, rest, last);
    GreedyStaysAhead(orders, before, rest + [b]);
    if |b| >= |batch| {
      FitsShorter(orders, before, batch, b, e);
    }
  }

  lemma Shortened(orders: TypeOrders, l: seq<Entity>, rest: seq<Batch>, last: Batch)
    requires 2 <= |last| <= |l| && l[|l| - |last|..] == last
    requires IsBatch(orders, last) && SplitOf(orders, rest, l[..|l| - |last|])
    ensures var before, b := l[..|l| - 1], last[..|last| - 1];
            && SplitOf(orders, rest + [b], before) && IsBatch(orders, b)
            && before[|before| - |b|..] == b && Fits(orders, before, b, l[|l| - 1])
  {
    var before, b := l[..|l| - 1], last[..|last| - 1];
    var first := l[..|l| - |last|];
    assert l == first + last;
    assert before == first + b;
    assert IsBatch(orders, b);
    SplitSnoc(orders, rest, b, first);
    assert last == b + [l[|l| - 1]];
    GrowBatch(orders, before, b, l[|l| - 1]);
  }

  /** What fits a batch fits a shorter one that ends at the same place. */
  lemma FitsShorter(orders: TypeOrders, before: seq<Entity>, batch: Batch, b: Batch, e: Entity)
    requires 0 < |batch| <= |b| <= |before|
    requires before[|before| - |b|..] == b && before[|before| - |batch|..] == batch
    requires Fits(orders, before, b, e)
    ensures Fits(orders, before, batch, e)
  {
    forall i | 0 <= i < |batch|
      ensures batch[i].address != e.address
    {
      var j := |b| - |batch| + i;
      assert batch[i] == before[|before| - |batch| + i] == b[j];
    }
  }

  lemma BatchesAreFewest(orders: TypeOrders, l: seq<Entity>, other: seq<Batch>)
    requires SplitOf(orders, other, l)
    ensures |ToBatches(orders, l)| <= |other|
  {
    if l != [] {
      GreedyStaysAhead(orders, l, other);
    }
  }

  /** Two entities are applied together if and only if they are different objects,
      and their kinds have the same order, where an unlisted kind counts as 0. */
  lemma TogetherExactlyWhen(orders: TypeOrders, d: Entity, e: Entity)
    ensures ToBatches(orders, [d, e]) == [[d, e]] <==>
              && (d.address.name != e.address.name || d.address.namespace != e.address.namespace
                  || d.address.kind != e.address.kind || d.address.apiVersion != e.address.apiVersion)
              && (if d.address.kind in orders then orders[d.address.kind] else 0) == (if e.address.kind in orders then orders[e.address.kind] else 0)
  {
    GreedyOne(orders, d);
    assert [d, e][..1] == [d];
    assert [d] + [e] == [d, e];
    var none: seq<Batch> := [];
    assert none + [[d]] == [[d]];
    assert Greedy(orders, [d, e]) == if Fits(orders, [d], [d], e) then ([], [d, e]) else ([[d]], [e]);
    assert [] + [[d, e]] == [[d, e]];
    assert |[[d]] + [[e]]| == 2;
  }
}
