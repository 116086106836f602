/** How a flexible layout divides its length among its children. */
module FlexLayouts {

  datatype Dir = Horizontal | Vertical

  datatype Size = Fits(width: int, height: int) | Unknown(message: string)

  datatype Allocation = Allocated(lengths: seq<int>) | SizeError(message: string) | TooSmall(needed: int)

  function Length(width: int, height: int, dir: Dir): int {
    if dir.Vertical? then height else width
  }

  function Sum(s: seq<int>): int {
    if s == [] then 0 else Sum(s[..|s| - 1]) + s[|s| - 1]
  }

  // ---- the first pass ----

  /** What the children that fit get, and which are left for later: a child
      whose wish would use up the length or more. */
  datatype Pass = Pass(lengths: seq<int>, flexible: seq<nat>)

  function FirstPass(wishes: seq<int>, length: int): (p: Pass)
    ensures |p.lengths| == |wishes|
    ensures forall j :: 0 <= j < |p.flexible| ==> p.flexible[j] < |wishes|
  {
    if wishes == [] then Pass([], [])
    else
      var before, wish := FirstPass(wishes[..|wishes| - 1], length), wishes[|wishes| - 1];
      if Sum(before.lengths) + wish >= length then Pass(before.lengths + [0], before.flexible + [|wishes| - 1])
      else Pass(before.lengths + [wish], before.flexible)
  }

  // ---- the second pass ----

  /** How many times m goes into total. */
  function Quotient(total: nat, m: nat): (q: nat)
    requires m > 0
    ensures q <= total
  {
    if total < m then 0 else 1 + Quotient(total - m, m)
  }

  /** total in m shares, each a part of what is left by those before it. */
  function Shares(total: nat, m: nat): (r: seq<nat>)
    ensures |r| == m
  {
    if m == 0 then [] else [Quotient(total, m)] + Shares(total - Quotient(total, m), m - 1)
  }

  function Given(lengths: seq<int>, indexes: seq<nat>, shares: seq<nat>): (r: seq<int>)
    requires |indexes| == |shares| && forall j :: 0 <= j < |indexes| ==> indexes[j] < |lengths|
    ensures |r| == |lengths|
  {
    if indexes == [] then lengths
    else Given(lengths, indexes[..|indexes| - 1], shares[..|shares| - 1])[indexes[|indexes| - 1] := shares[|shares| - 1]]
  }

  predicate NotIn(indexes: seq<nat>, i: nat) {
    forall j :: 0 <= j < |indexes| ==> indexes[j] != i
  }

  ghost predicate Increasing(s: seq<nat>) {
    forall j, k :: 0 <= j < k < |s| ==> s[j] < s[k]
  }

  ghost predicate PassFits(p: Pass, wishes: seq<int>) {
    && |p.lengths| == |wishes| && Increasing(p.flexible)
    && (forall j :: 0 <= j < |p.flexible| ==> p.flexible[j] < |wishes| && p.lengths[p.flexible[j]] == 0)
    && (forall i :: 0 <= i < |wishes| && NotIn(p.flexible, i) ==> p.lengths[i] == wishes[i])
  }

  lemma FitsOneMore(p: Pass, wishes: seq<int>, wish: int)
    requires PassFits(p, wishes)
    ensures PassFits(Pass(p.lengths + [0], p.flexible + [|wishes|]), wishes + [wish])
    ensures PassFits(Pass(p.lengths + [wish], p.flexible), wishes + [wish])
  {
    var n := |wishes|;
    var more := p.flexible + [n];
    assert more[|p.flexible|] == n;
    forall i | 0 <= i < n && NotIn(more, i)
      ensures NotIn(p.flexible, i)
    {
      forall j | 0 <= j < |p.flexible|
        ensures p.flexible[j] != i
      {
        assert more[j] == p.flexible[j];
      }
    }
  }

  lemma {:induction false} FirstPassFits(wishes: seq<int>, length: int)
    ensures PassFits(FirstPass(wishes, length), wishes)
    decreases |wishes|
  {
    if wishes != [] {
      var init, wish := wishes[..|wishes| - 1], wishes[|wishes| - 1];
      FirstPassFits(init, length);
      assert wishes == init + [wish];
      FitsOneMore(FirstPass(init, length), init, wish);
    }
  }

  lemma SumSnoc(s: seq<int>, x: int)
    ensures Sum(s + [x]) == Sum(s) + x
  {
    assert (s + [x])[..|s|] == s;
  }

  lemma {:induction false} FirstPassSum(wishes: seq<int>, length: int)
    requires length >= 0 && forall i :: 0 <= i < |wishes| ==> wishes[i] >= 0
    ensures var p := FirstPass(wishes, length);
            && 0 <= Sum(p.lengths) <= length
            && (p.flexible == [] && wishes != [] ==> Sum(p.lengths) < length)
    decreases |wishes|
  {
    if wishes != [] {
      var init := wishes[..|wishes| - 1];
      FirstPassSum(init, length);
      SumSnoc(FirstPass(init, length).lengths, 0);
      SumSnoc(FirstPass(init, length).lengths, wishes[|wishes| - 1]);
    }
  }

  lemma FirstPassShape(wishes: seq<int>, length: int)
    requires length >= 0 && forall i :: 0 <= i < |wishes| ==> wishes[i] >= 0
    ensures var p := FirstPass(wishes, length);
            && PassFits(p, wishes) && 0 <= Sum(p.lengths) <= length
            && (p.flexible == [] && wishes != [] ==> Sum(p.lengths) < length)
  {
    FirstPassFits(wishes, length);
    FirstPassSum(wishes, length);
  }

  lemma Times(a: int, b: int, m: nat)
    requires a <= b
    ensures a * m <= b * m
  {
    assert (b - a) * m >= 0;
  }

  lemma {:induction false} QuotientIs(total: nat, m: nat)
    requires m > 0
    ensures Quotient(total, m) * m <= total < (Quotient(total, m) + 1) * m
  {
    if total >= m {
      var q := Quotient(total - m, m);
      QuotientIs(total - m, m);
      assert (q + 1) * m == q * m + m && (q + 2) * m == (q + 1) * m + m;
    }
  }

  lemma QuotientIsDivision(total: nat, m: nat)
    requires m > 0
    ensures total / m == Quotient(total, m)
  {
    var q, d, r := Quotient(total, m), total / m, total % m;
    QuotientIs(total, m);
    assert total == d * m + r;
    assert (d + 1) * m == d * m + m;
    if d < q {
      Times(d + 1, q, m);
    } else if q < d {
      Times(q + 1, d, m);
    }
  }

  /** When total lies between q and q + 1 for each of m, so does a share. */
  lemma QuotientBetween(total: nat, m: nat, q: nat)
    requires m > 0 && q * m <= total <= (q + 1) * m
    ensures q <= Quotient(total, m) <= q + 1
    ensures Quotient(total, m) == q ==> total < (q + 1) * m
    ensures Quotient(total, m) == q + 1 ==> total == (q + 1) * m
  {
    QuotientIs(total, m);
    var e := Quotient(total, m);
    assert (q + 2) * m == (q + 1) * m + m;
    if e < q {
      Times(e + 1, q, m);
    } else if e > q + 1 {
      Times(q + 2, e, m);
    }
  }

  /** Shares that differ by at most one, and never shrink. */
  ghost predicate Fair(shares: seq<nat>, q: nat) {
    && (forall j :: 0 <= j < |shares| ==> q <= shares[j] <= q + 1)
    && (forall j, k :: 0 <= j < k < |shares| ==> shares[j] <= shares[k])
  }

  lemma FairFromFront(e: nat, rest: seq<nat>, q: nat)
    requires Fair(rest, q) && (e == q || (e == q + 1 && Fair(rest, q + 1)))
    ensures Fair([e] + rest, q)
  {
    var all := [e] + rest;
    forall j, k | 0 <= j < k < |all|
      ensures all[j] <= all[k]
    {
      assert all[k] == rest[k - 1];
    }
  }

  /** What the first share leaves lies between q and q + 1 for each of the rest;
      and if the share was q + 1, it is q + 1 for each. */
  lemma LeftBetween(total: nat, m: nat, q: nat)
    requires m > 0 && q * m <= total <= (q + 1) * m
    ensures var e := Quotient(total, m);
            && (e == q || e == q + 1)
            && q * (m - 1) <= total - e <= (q + 1) * (m - 1)
            && (e == q + 1 ==> (q + 1) * (m - 1) <= total - e <= (q + 2) * (m - 1))
  {
    QuotientBetween(total, m, q);
    assert q * (m - 1) == q * m - q && (q + 1) * (m - 1) == (q + 1) * m - (q + 1);
    assert (q + 2) * (m - 1) == (q + 1) * (m - 1) + (m - 1);
  }

  lemma {:induction false} SharesAreFair(total: nat, m: nat, q: nat)
    requires q * m <= total <= (q + 1) * m
    ensures Fair(Shares(total, m), q)
    decreases m
  {
    if m > 0 {
      var e := Quotient(total, m);
      LeftBetween(total, m, q);
      SharesAreFair(total - e, m - 1, q);
      if e == q + 1 {
        SharesAreFair(total - e, m - 1, q + 1);
      }
      FairFromFront(e, Shares(total - e, m - 1), q);
    }
  }

  lemma {:induction false} SharesAddUp(total: nat, m: nat)
    requires m > 0
    ensures Sum(Shares(total, m)) == total
    decreases m
  {
    var e := Quotient(total, m);
    var rest := Shares(total - e, m - 1);
    SumPlus([e], rest);
    assert [e][..0] == [] && Sum([e]) == e;
    if m > 1 {
      SharesAddUp(total - e, m - 1);
    } else {
      assert rest == [];
      QuotientIs(total, 1);
    }
  }

  lemma {:induction false} SumPlus(a: seq<int>, b: seq<int>)
    ensures Sum(a + b) == Sum(a) + Sum(b)
    decreases |b|
  {
    if b == [] {
      assert a + b == a;
    } else {
      SumPlus(a, b[..|b| - 1]);
      assert (a + b)[..|a + b| - 1] == a + b[..|b| - 1];
    }
  }

  lemma {:induction false} SumUpdate(s: seq<int>, i: nat, x: int)
    requires i < |s|
    ensures Sum(s[i := x]) == Sum(s) - s[i] + x
    decreases |s|
  {
    var n := |s| - 1;
    if i == n {
      assert s[i := x][..n] == s[..n];
    } else {
      assert s[i := x][..n] == s[..n][i := x];
      SumUpdate(s[..n], i, x);
    }
  }

  /** The shares have been given to the children with these indexes. */
  ghost predicate SharesGiven(r: seq<int>, lengths: seq<int>, indexes: seq<nat>, shares: seq<nat>) {
    && |r| == |lengths| && |indexes| == |shares|
    && Sum(r) == Sum(lengths) + Sum(shares)
    && (forall i :: 0 <= i < |r| && NotIn(indexes, i) ==> r[i] == lengths[i])
    && (forall j :: 0 <= j < |indexes| ==> indexes[j] < |r| && r[indexes[j]] == shares[j])
  }

  lemma OneMoreGiven(r: seq<int>, lengths: seq<int>, indexes: seq<nat>, shares: seq<nat>)
    requires indexes != [] && Increasing(indexes)
    requires |indexes| == |shares|
    requires SharesGiven(r, lengths, indexes[..|indexes| - 1], shares[..|shares| - 1])
    requires indexes[|indexes| - 1] < |r| && lengths[indexes[|indexes| - 1]] == 0
    ensures SharesGiven(r[indexes[|indexes| - 1] := shares[|shares| - 1]], lengths, indexes, shares)
  {
    var n := |indexes| - 1;
    var x, init := indexes[n], indexes[..n];
    assert NotIn(init, x);
    SumUpdate(r, x, shares[n]);
    forall i | 0 <= i < |r| && NotIn(indexes, i)
      ensures NotIn(init, i) && i != x
    {
      assert indexes[n] != i;
    }
    forall j | 0 <= j < n
      ensures indexes[j] != x && r[indexes[j]] == shares[j]
    {
      assert init[j] == indexes[j] && shares[..n][j] == shares[j];
    }
  }

  lemma {:induction false} GivenShape(lengths: seq<int>, indexes: seq<nat>, shares: seq<nat>)
    requires |indexes| == |shares| && Increasing(indexes)
    requires forall j :: 0 <= j < |indexes| ==> indexes[j] < |lengths| && lengths[indexes[j]] == 0
    ensures SharesGiven(Given(lengths, indexes, shares), lengths, indexes, shares)
    decreases |indexes|
  {
    if indexes != [] {
      var n := |indexes| - 1;
      GivenShape(lengths, indexes[..n], shares[..n]);
      OneMoreGiven(Given(lengths, indexes[..n], shares[..n]), lengths, indexes, shares);
    }
  }

  // ---- the layout ----

  function AllocationOf(wishes: seq<int>, length: int): Allocation {
    PassAllocation(FirstPass(wishes, length), length)
  }

  function PassAllocation(p: Pass, length: int): Allocation
    requires forall j :: 0 <= j < |p.flexible| ==> p.flexible[j] < |p.lengths|
  {
    var left := length - Sum(p.lengths);
    if left < 0 then TooSmall(Sum(p.lengths))
    else Allocated(Given(p.lengths, p.flexible, Shares(left, |p.flexible|)))
  }

  /** Where child i begins; it ends where the next begins. */
  function Offset(lengths: seq<int>, i: nat): int
    requires i <= |lengths|
  {
    Sum(lengths[..i])
  }

  lemma {:induction false} OffsetsGrow(lengths: seq<int>, i: nat, j: nat)
    requires i <= j <= |lengths| && forall k :: 0 <= k < |lengths| ==> lengths[k] >= 0
    ensures 0 <= Offset(lengths, i) <= Offset(lengths, j)
    decreases j
  {
    if i < j {
      OffsetsGrow(lengths, i, j - 1);
      assert lengths[..j][..j - 1] == lengths[..j - 1];
    } else if j > 0 {
      OffsetsGrow(lengths, j - 1, j - 1);
      assert lengths[..j][..j - 1] == lengths[..j - 1];
    }
  }

  /** Range i begins where range i - 1 ends, and is within the length. */
  predicate InPlace(lengths: seq<int>, i: nat, length: nat)
    requires i < |lengths|
  {
    lengths[i] >= 0 && 0 <= Offset(lengths, i) && Offset(lengths, i) + lengths[i] == Offset(lengths, i + 1) <= length
  }

  lemma RangesInPlace(lengths: seq<int>, length: nat)
    requires (forall i :: 0 <= i < |lengths| ==> lengths[i] >= 0) && Sum(lengths) <= length
    ensures forall i :: 0 <= i < |lengths| ==> InPlace(lengths, i, length)
  {
    forall i | 0 <= i < |lengths|
      ensures InPlace(lengths, i, length)
    {
      OffsetsGrow(lengths, i, i + 1);
      OffsetsGrow(lengths, i + 1, |lengths|);
      assert lengths[..|lengths|] == lengths;
      assert lengths[..i + 1][..i] == lengths[..i];
    }
  }

  /** The allocation gives what is left after the first pass to the flexible
      children. */
  ghost predicate LaidOut(p: Pass, length: nat, r: Allocation) {
    && Sum(p.lengths) <= length && r.Allocated?
    && SharesGiven(r.lengths, p.lengths, p.flexible, Shares(length - Sum(p.lengths), |p.flexible|))
  }

  lemma PassGives(p: Pass, wishes: seq<int>, length: nat)
    requires PassFits(p, wishes) && Sum(p.lengths) <= length
    ensures LaidOut(p, length, PassAllocation(p, length))
  {
    GivenShape(p.lengths, p.flexible, Shares(length - Sum(p.lengths), |p.flexible|));
  }

  lemma LayoutGives(wishes: seq<int>, length: nat)
    requires forall i :: 0 <= i < |wishes| ==> wishes[i] >= 0
    ensures LaidOut(FirstPass(wishes, length), length, AllocationOf(wishes, length))
  {
    FirstPassFits(wishes, length);
    FirstPassSum(wishes, length);
    PassGives(FirstPass(wishes, length), wishes, length);
  }

  lemma SumOfShares(total: nat, m: nat)
    ensures Sum(Shares(total, m)) == if m == 0 then 0 else total
  {
    if m > 0 {
      SharesAddUp(total, m);
    }
  }

  lemma SumOfLayout(p: Pass, length: nat, r: Allocation)
    requires LaidOut(p, length, r) && (p.flexible == [] && p.lengths != [] ==> Sum(p.lengths) < length)
    ensures Sum(r.lengths) <= length
    ensures Sum(r.lengths) == length <==> p.flexible != [] || (p.lengths == [] && length == 0)
  {
    SumOfShares(length - Sum(p.lengths), |p.flexible|);
  }

  lemma LayoutSum(wishes: seq<int>, length: nat)
    requires forall i :: 0 <= i < |wishes| ==> wishes[i] >= 0
    ensures var r, flexible := AllocationOf(wishes, length), FirstPass(wishes, length).flexible;
            && r.Allocated? && Sum(r.lengths) <= length
            && (Sum(r.lengths) == length <==> flexible != [] || (wishes == [] && length == 0))
  {
    FirstPassSum(wishes, length);
    LayoutGives(wishes, length);
    SumOfLayout(FirstPass(wishes, length), length, AllocationOf(wishes, length));
  }

  /** A child that fits gets what it wished for, and none gets less than
      nothing. */
  lemma WishesGranted(wishes: seq<int>, length: nat)
    requires forall i :: 0 <= i < |wishes| ==> wishes[i] >= 0
    ensures var r := AllocationOf(wishes, length);
            && r.Allocated? && |r.lengths| == |wishes|
            && forall i :: 0 <= i < |wishes| ==>
                 r.lengths[i] >= 0 && (NotIn(FirstPass(wishes, length).flexible, i) ==> r.lengths[i] == wishes[i])
  {
    FirstPassShape(wishes, length);
    LayoutGives(wishes, length);
    var p, r := FirstPass(wishes, length), AllocationOf(wishes, length).lengths;
    forall i | 0 <= i < |wishes|
      ensures r[i] >= 0 && (NotIn(p.flexible, i) ==> r[i] == wishes[i])
    {
      if NotIn(p.flexible, i) {
        assert r[i] == p.lengths[i];
      } else {
        var j :| 0 <= j < |p.flexible| && p.flexible[j] == i;
        assert r[p.flexible[j]] >= 0;
      }
    }
  }

  lemma FairOfLength(total: nat, m: nat)
    requires m > 0
    ensures Fair(Shares(total, m), Quotient(total, m))
  {
    QuotientIs(total, m);
    SharesAreFair(total, m, Quotient(total, m));
  }

  lemma LaidOutFairly(p: Pass, length: nat, r: Allocation, j: nat, k: nat)
    requires LaidOut(p, length, r) && j < k < |p.flexible|
    ensures |r.lengths| == |p.lengths| && p.flexible[j] < |r.lengths| && p.flexible[k] < |r.lengths|
    ensures r.lengths[p.flexible[j]] <= r.lengths[p.flexible[k]] <= r.lengths[p.flexible[j]] + 1
  {
    FairOfLength(length - Sum(p.lengths), |p.flexible|);
    var shares := Shares(length - Sum(p.lengths), |p.flexible|);
    assert r.lengths[p.flexible[j]] == shares[j] && r.lengths[p.flexible[k]] == shares[k];
  }

  /** The flexible children's shares never shrink and differ by at most one. */
  lemma FlexibleSharesFair(wishes: seq<int>, length: nat, j: nat, k: nat)
    requires forall i :: 0 <= i < |wishes| ==> wishes[i] >= 0
    requires j < k < |FirstPass(wishes, length).flexible|
    ensures var flexible, r := FirstPass(wishes, length).flexible, AllocationOf(wishes, length);
            && r.Allocated? && |r.lengths| == |wishes|
            && r.lengths[flexible[j]] <= r.lengths[flexible[k]] <= r.lengths[flexible[j]] + 1
  {
    LayoutGives(wishes, length);
    LaidOutFairly(FirstPass(wishes, length), length, AllocationOf(wishes, length), j, k);
  }

  /** The children's ranges follow each other within the length, and fill it
      exactly when some child is flexible or there is nothing to fill. */
  lemma RangesFill(wishes: seq<int>, length: nat)
    requires forall i :: 0 <= i < |wishes| ==> wishes[i] >= 0
    ensures var r := AllocationOf(wishes, length);
            && r.Allocated?
            && (forall i :: 0 <= i < |r.lengths| ==> InPlace(r.lengths, i, length))
            && (Sum(r.lengths) == length <==> FirstPass(wishes, length).flexible != [] || (wishes == [] && length == 0))
  {
    LayoutSum(wishes, length);
    WishesGranted(wishes, length);
    RangesInPlace(AllocationOf(wishes, length).lengths, length);
  }

  // ---- the algorithm ----

  /** The first n children have been passed. */
  ghost predicate PassedTo(wishes: seq<int>, n: nat, length: int, lengths: seq<int>, taken: int, flexible: seq<nat>) {
    n <= |wishes| && FirstPass(wishes[..n], length) == Pass(lengths, flexible) && taken == Sum(lengths)
  }

  lemma PassedOneMore(wishes: seq<int>, n: nat, length: int, lengths: seq<int>, taken: int, flexible: seq<nat>)
    requires n < |wishes| && PassedTo(wishes, n, length, lengths, taken, flexible)
    ensures if taken + wishes[n] >= length then PassedTo(wishes, n + 1, length, lengths + [0], taken, flexible + [n])
            else PassedTo(wishes, n + 1, length, lengths + [wishes[n]], taken + wishes[n], flexible)
  {
    assert wishes[..n + 1][..n] == wishes[..n];
    SumSnoc(lengths, 0);
    SumSnoc(lengths, wishes[n]);
  }

  /** The first pass, as far as the children have sizes: up to the first
      without one, or to the end. */
  method TakeFixed(sizes: seq<Size>, length: int, dir: Dir) returns (n: nat, allocations: seq<int>, taken: int, flexIdxs: seq<nat>)
    ensures n <= |sizes| && (forall i :: 0 <= i < n ==> sizes[i].Fits?) && (n < |sizes| ==> sizes[n].Unknown?)
    ensures var p := FirstPass(Wishes(sizes, dir)[..n], length);
            allocations == p.lengths && taken == Sum(p.lengths) && flexIdxs == p.flexible
  {
    n, allocations, taken, flexIdxs := 0, [], 0, [];
    ghost var wishes := Wishes(sizes, dir);
    while n < |sizes| && sizes[n].Fits?
      invariant n <= |sizes| && forall i :: 0 <= i < n ==> sizes[i].Fits?
      invariant PassedTo(wishes, n, length, allocations, taken, flexIdxs)
    {
      var reqLen := Length(sizes[n].width, sizes[n].height, dir);
      PassedOneMore(wishes, n, length, allocations, taken, flexIdxs);
      if taken + reqLen >= length {
        flexIdxs := flexIdxs + [n];
        allocations := allocations + [0];
      } else {
        allocations := allocations + [reqLen];
        taken := taken + reqLen;
      }
      n := n + 1;
    }
  }

  lemma AllocationFrom(wishes: seq<int>, length: int, lengths: seq<int>, taken: int, flexible: seq<nat>)
    requires var p := FirstPass(wishes, length); lengths == p.lengths && taken == Sum(p.lengths) && flexible == p.flexible
    ensures AllocationOf(wishes, length) ==
            if length - taken < 0 then TooSmall(taken)
            else Allocated(Given(lengths, flexible, Shares(length - taken, |flexible|)))
    ensures forall j :: 0 <= j < |flexible| ==> flexible[j] < |lengths|
  {
  }

  /** The first child without a size fails the layout. */
  method Allocate(sizes: seq<Size>, width: int, height: int, dir: Dir) returns (r: Allocation)
    ensures (forall i :: 0 <= i < |sizes| ==> sizes[i].Fits?) ==>
              r == if dir.Horizontal? then AllocationOf(Widths(sizes), width) else AllocationOf(Heights(sizes), height)
    ensures forall i :: 0 <= i < |sizes| && sizes[i].Unknown? && (forall j :: 0 <= j < i ==> sizes[j].Fits?) ==> r == SizeError(sizes[i].message)
  {
    WishesAlong(sizes, dir);
    var length := Length(width, height, dir);
    var n, allocations, taken, flexIdxs := TakeFixed(sizes, length, dir);
    if n < |sizes| {
      return SizeError(sizes[n].message);
    }
    assert Wishes(sizes, dir)[..n] == Wishes(sizes, dir);
    AllocationFrom(Wishes(sizes, dir), length, allocations, taken, flexIdxs);
    var flexTotal := length - taken;
    if flexTotal < 0 {
      return TooSmall(taken);
    }
    var lengths := GiveShares(allocations, flexIdxs, flexTotal);
    r := Allocated(lengths);
  }

  method GiveShares(lengths: seq<int>, indexes: seq<nat>, total: nat) returns (r: seq<int>)
    requires forall j :: 0 <= j < |indexes| ==> indexes[j] < |lengths|
    ensures r == Given(lengths, indexes, Shares(total, |indexes|))
  {
    r := lengths;
    var flexTotal, numFlex := total, |indexes|;
    ghost var shares := Shares(total, |indexes|);
    for j := 0 to |indexes|
      invariant numFlex == |indexes| - j && flexTotal >= 0 && |r| == |lengths|
      invariant shares[j..] == Shares(flexTotal, numFlex)
      invariant r == Given(lengths, indexes[..j], shares[..j])
    {
      var elemLength := flexTotal / numFlex;
      QuotientIsDivision(flexTotal, numFlex);
      assert shares[j] == elemLength;
      assert shares[j + 1..] == shares[j..][1..];
      assert indexes[..j + 1][..j] == indexes[..j] && shares[..j + 1][..j] == shares[..j];
      r := r[indexes[j] := elemLength];
      numFlex := numFlex - 1;
      flexTotal := flexTotal - elemLength;
    }
    assert indexes[..|indexes|] == indexes && shares[..|indexes|] == shares;
  }

  function Wishes(sizes: seq<Size>, dir: Dir): (r: seq<int>)
    ensures |r| == |sizes|
  {
    seq(|sizes|, i requires 0 <= i < |sizes| => if sizes[i].Fits? then Length(sizes[i].width, sizes[i].height, dir) else 0)
  }

  function Widths(sizes: seq<Size>): (r: seq<int>)
    ensures |r| == |sizes|
    ensures forall i :: 0 <= i < |sizes| && sizes[i].Fits? ==> r[i] == sizes[i].width
  {
    seq(|sizes|, i requires 0 <= i < |sizes| => if sizes[i].Fits? then sizes[i].width else 0)
  }

  function Heights(sizes: seq<Size>): (r: seq<int>)
    ensures |r| == |sizes|
    ensures forall i :: 0 <= i < |sizes| && sizes[i].Fits? ==> r[i] == sizes[i].height
  {
    seq(|sizes|, i requires 0 <= i < |sizes| => if sizes[i].Fits? then sizes[i].height else 0)
  }

  /** Children side by side wish for widths, children one below the other for heights. */
  lemma WishesAlong(sizes: seq<Size>, dir: Dir)
    ensures Wishes(sizes, dir) == if dir.Horizontal? then Widths(sizes) else Heights(sizes)
  {
  }

  // ---- which children fit ----

  /** What those of the first n children take that fit. */
  function Taken(wishes: seq<int>, n: nat, length: int): int
    requires n <= |wishes|
  {
    if n == 0 then 0
    else
      var before := Taken(wishes, n - 1, length);
      if before + wishes[n - 1] < length then before + wishes[n - 1] else before
  }

  ghost predicate TakenRight(wishes: seq<int>, n: nat, length: int)
    requires n <= |wishes|
  {
    var p := FirstPass(wishes[..n], length);
    && Sum(p.lengths) == Taken(wishes, n, length)
    && (forall j :: 0 <= j < |p.flexible| ==> p.flexible[j] < n)
    && forall i :: 0 <= i < n ==> (NotIn(p.flexible, i) <==> Taken(wishes, i, length) + wishes[i] < length)
  }

  lemma NotInSnoc(indexes: seq<nat>, n: nat, i: nat)
    ensures NotIn(indexes + [n], i) <==> NotIn(indexes, i) && n != i
  {
    var more := indexes + [n];
    assert more[|indexes|] == n;
    assert forall j :: 0 <= j < |indexes| ==> more[j] == indexes[j];
  }

  lemma TakenNext(wishes: seq<int>, n: nat, length: int)
    requires n < |wishes| && TakenRight(wishes, n, length)
    ensures TakenRight(wishes, n + 1, length)
  {
    var p, q := FirstPass(wishes[..n], length), FirstPass(wishes[..n + 1], length);
    assert PassedTo(wishes, n, length, p.lengths, Sum(p.lengths), p.flexible);
    PassedOneMore(wishes, n, length, p.lengths, Sum(p.lengths), p.flexible);
    assert NotIn(p.flexible, n);
    forall i | 0 <= i < n + 1
      ensures NotIn(q.flexible, i) <==> Taken(wishes, i, length) + wishes[i] < length
    {
      NotInSnoc(p.flexible, n, i);
    }
  }

  lemma {:induction false} TakenSoFar(wishes: seq<int>, n: nat, length: int)
    requires n <= |wishes|
    ensures TakenRight(wishes, n, length)
    decreases n
  {
    if n > 0 {
      TakenSoFar(wishes, n - 1, length);
      TakenNext(wishes, n - 1, length);
    }
  }

  /** A child fits, and is not flexible, if and only if its wish and what earlier
      ones take that fit leave some of the length. */
  lemma FitsExactlyWhen(wishes: seq<int>, length: int, i: nat)
    requires i < |wishes|
    ensures NotIn(FirstPass(wishes, length).flexible, i) <==> Taken(wishes, i, length) + wishes[i] < length
  {
    TakenSoFar(wishes, |wishes|, length);
    assert wishes[..|wishes|] == wishes;
  }

  lemma {:induction false} NothingFits(wishes: seq<int>, length: int)
    requires length < 0 && forall i :: 0 <= i < |wishes| ==> wishes[i] >= 0
    ensures Sum(FirstPass(wishes, length).lengths) == 0
    decreases |wishes|
  {
    if wishes != [] {
      NothingFits(wishes[..|wishes| - 1], length);
      SumSnoc(FirstPass(wishes[..|wishes| - 1], length).lengths, 0);
    }
  }

  /** There is room for any children unless the length is below nothing. */
  lemma TooSmallExactlyWhen(wishes: seq<int>, length: int)
    requires forall i :: 0 <= i < |wishes| ==> wishes[i] >= 0
    ensures AllocationOf(wishes, length) == TooSmall(0) <==> length < 0
    ensures AllocationOf(wishes, length).Allocated? <==> length >= 0
  {
    if length < 0 {
      NothingFits(wishes, length);
    } else {
      WishesGranted(wishes, length);
    }
  }
}
