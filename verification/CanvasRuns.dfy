/** Drawing, dividing and closing in any order: what is done with one child's
    canvas and those made from it leaves the other children's cells alone. */
module CanvasRuns {
  import opened FlexLayouts
  import opened Canvases

  datatype Op =
    | Draw(canvas: int, x: int, y: int, cell: Cell)
    | Divide(canvas: int, startX: int, startY: int, width: int, height: int, style: Style)
    | Close(canvas: int)

  ghost predicate CanDo(s: Screen, op: Op)
    requires Valid(s)
  {
    && -1 <= op.canvas < |s.subs|
    && match op
       case Draw(_, _, _, _) => true
       case Divide(i, startX, startY, width, height, style) => Divided(s, i, startX, startY, width, height, style).Some?
       case Close(i) => i >= 0
  }

  /** A canvas keeps its place; only one that grows may become lower, when it is
      closed. */
  predicate Lasts(a: Sub, b: Sub) {
    && b.parent == a.parent && b.startX == a.startX && b.startY == a.startY && b.width == a.width
    && b.height <= a.height
  }

  ghost predicate Evolved(s: Screen, t: Screen) {
    && Valid(t) && t.width == s.width && t.height == s.height && |s.subs| <= |t.subs|
    && forall i {:trigger t.subs[i]} :: 0 <= i < |s.subs| ==> Lasts(s.subs[i], t.subs[i])
  }

  ghost function Done(s: Screen, op: Op): (t: Screen)
    requires Valid(s) && CanDo(s, op)
    ensures Evolved(s, t)
    ensures |t.subs| == |s.subs| + if op.Divide? then 1 else 0
    ensures op.Divide? ==> Lasts(Sub(op.canvas, op.startX, op.startY, op.width, op.height, -1, op.style, true), t.subs[|s.subs|])
  {
    match op
    case Draw(i, x, y, cell) => SetContent(s, i, x, y, cell)
    case Divide(i, startX, startY, width, height, style) =>
      assert forall k :: 0 <= k < |s.subs| ==> WithSub(s, i, startX, startY, width, height, style).subs[k] == s.subs[k];
      Divided(s, i, startX, startY, width, height, style).value
    case Close(i) => Closed(s, i)
  }

  lemma EvolvedOn(s: Screen, t: Screen, u: Screen)
    requires Evolved(s, t) && Evolved(t, u)
    ensures Evolved(s, u)
  {
    forall i | 0 <= i < |s.subs|
      ensures Lasts(s.subs[i], u.subs[i])
    {
      assert Lasts(s.subs[i], t.subs[i]);
    }
  }

  lemma {:induction false} EvolvedKeepsAbove(s: Screen, t: Screen, a: int, i: int)
    requires Valid(s) && Evolved(s, t) && -1 <= i < |s.subs|
    ensures Above(t, a, i) <==> Above(s, a, i)
    decreases i + 1
  {
    if i >= 0 {
      assert Lasts(s.subs[i], t.subs[i]);
      EvolvedKeepsAbove(s, t, a, s.subs[i].parent);
    }
  }

  /** Two disjoint windows on one canvas. */
  predicate Siblings(s: Screen, p: int, q: int) {
    && 0 <= p < |s.subs| && 0 <= q < |s.subs|
    && s.subs[p].parent == s.subs[q].parent && Disjoint(s.subs[p], s.subs[q])
  }

  lemma EvolvedKeepsSiblings(s: Screen, t: Screen, p: int, q: int)
    requires Evolved(s, t) && Siblings(s, p, q)
    ensures Siblings(t, p, q)
  {
    assert Lasts(s.subs[p], t.subs[p]) && Lasts(s.subs[q], t.subs[q]);
  }

  // ---- one operation ----

  lemma DivideSpares(s: Screen, op: Op, q: int, j: int, px: nat, py: nat)
    requires Valid(s) && CanDo(s, op) && op.Divide? && -1 <= j < |s.subs| && px < s.width
    requires var t := WithSub(s, op.canvas, op.startX, op.startY, op.width, op.height, op.style);
             exists p :: ForkAt(t, p, q, |s.subs|, j)
    requires Claimed(s, j, px, py)
    ensures At(Done(s, op), px, py) == At(s, px, py) && Claimed(Done(s, op), j, px, py)
  {
    DividingDoesNotDisturb(s, op.canvas, op.startX, op.startY, op.width, op.height, op.style, j, px, py);
  }

  /** Whatever is done below p leaves alone what is claimed below a sibling q. */
  lemma OperationSpares(s: Screen, op: Op, p: int, q: int, j: int, px: nat, py: nat)
    requires Valid(s) && CanDo(s, op) && Siblings(s, p, q) && Above(s, p, op.canvas)
    requires -1 <= j < |s.subs| && Above(s, q, j) && px < s.width && Claimed(s, j, px, py)
    ensures At(Done(s, op), px, py) == At(s, px, py) && Claimed(Done(s, op), j, px, py)
  {
    match op {
      case Draw(i, x, y, cell) =>
        assert ForkAt(s, p, q, i, j);
        ApartIsSafe(s, i, j, px, py);
        SetContentFrame(s, i, x, y, cell, px, py);
        GrownKeeps(s, Done(s, op), j, px, py);
      case Divide(i, startX, startY, width, height, style) =>
        var t := WithSub(s, i, startX, startY, width, height, style);
        assert Evolved(s, t);
        EvolvedKeepsAbove(s, t, p, i);
        EvolvedKeepsAbove(s, t, q, j);
        EvolvedKeepsSiblings(s, t, p, q);
        assert ForkAt(t, p, q, |s.subs|, j);
        DivideSpares(s, op, q, j, px, py);
      case Close(i) => ClosingKeepsClaims(s, i, j, px, py);
    }
  }

  // ---- any sequence of operations ----

  /** Each operation can be done when its turn comes, on a canvas below p; a
      canvas that one of them makes may be used by those that follow. */
  ghost predicate CanDoBelow(s: Screen, p: int, ops: seq<Op>)
    requires Valid(s)
    decreases |ops|
  {
    ops == [] || (CanDo(s, ops[0]) && Above(s, p, ops[0].canvas) && CanDoBelow(Done(s, ops[0]), p, ops[1..]))
  }

  ghost function AllDone(s: Screen, p: int, ops: seq<Op>): (t: Screen)
    requires Valid(s) && CanDoBelow(s, p, ops)
    ensures Evolved(s, t)
    decreases |ops|
  {
    if ops == [] then s
    else
      var next := Done(s, ops[0]);
      var t := AllDone(next, p, ops[1..]);
      EvolvedOn(s, next, t);
      t
  }

  /** Any sequence of drawing, dividing and closing below one child leaves every
      cell that is claimed below a sibling as it was. */
  lemma {:induction false} SiblingsUndisturbed(s: Screen, ops: seq<Op>, p: int, q: int, j: int, px: nat, py: nat)
    requires Valid(s) && CanDoBelow(s, p, ops) && Siblings(s, p, q)
    requires -1 <= j < |s.subs| && Above(s, q, j) && px < s.width && Claimed(s, j, px, py)
    ensures At(AllDone(s, p, ops), px, py) == At(s, px, py) && Claimed(AllDone(s, p, ops), j, px, py)
    decreases |ops|
  {
    if ops != [] {
      var t := Done(s, ops[0]);
      OperationSpares(s, ops[0], p, q, j, px, py);
      EvolvedKeepsSiblings(s, t, p, q);
      EvolvedKeepsAbove(s, t, q, j);
      SiblingsUndisturbed(t, ops[1..], p, q, j, px, py);
    }
  }

  // ---- a flexible layout ----

  /** The windows that a layout of some width and height gives to its children,
      all with its own style. */
  datatype Layout = Layout(parent: int, lengths: seq<int>, width: int, height: int, dir: Dir, style: Style)

  function ChildOp(l: Layout, i: nat): Op
    requires i < |l.lengths|
  {
    if l.dir.Horizontal? then Divide(l.parent, Offset(l.lengths, i), 0, l.lengths[i], l.height, l.style)
    else Divide(l.parent, 0, Offset(l.lengths, i), l.width, l.lengths[i], l.style)
  }

  function WindowOf(op: Op): Sub
    requires op.Divide?
  {
    Sub(op.canvas, op.startX, op.startY, op.width, op.height, -1, op.style, true)
  }

  ghost predicate WindowsApart(l: Layout) {
    forall i: nat, j: nat :: i < j < |l.lengths| ==> Disjoint(WindowOf(ChildOp(l, i)), WindowOf(ChildOp(l, j)))
  }

  /** From child i on: each child's canvas is made, and then the child does what
      it does with it. */
  ghost predicate Renders(s: Screen, l: Layout, plans: seq<seq<Op>>, i: nat)
    requires Valid(s) && |plans| == |l.lengths|
    decreases |plans| - i
  {
    i >= |plans| ||
    (CanDo(s, ChildOp(l, i)) &&
     var t := Done(s, ChildOp(l, i));
     CanDoBelow(t, |s.subs|, plans[i]) && Renders(AllDone(t, |s.subs|, plans[i]), l, plans, i + 1))
  }

  ghost function AfterChild(s: Screen, l: Layout, plans: seq<seq<Op>>, i: nat): (t: Screen)
    requires Valid(s) && |plans| == |l.lengths| && i < |plans| && Renders(s, l, plans, i)
    ensures Evolved(s, t) && Renders(t, l, plans, i + 1) && |s.subs| < |t.subs|
    ensures Lasts(WindowOf(ChildOp(l, i)), t.subs[|s.subs|])
  {
    var made := Done(s, ChildOp(l, i));
    var t := AllDone(made, |s.subs|, plans[i]);
    EvolvedOn(s, made, t);
    assert Lasts(made.subs[|s.subs|], t.subs[|s.subs|]);
    t
  }

  ghost function Rendered(s: Screen, l: Layout, plans: seq<seq<Op>>, i: nat): (t: Screen)
    requires Valid(s) && |plans| == |l.lengths| && i <= |plans| && Renders(s, l, plans, i)
    ensures Evolved(s, t)
    decreases |plans| - i
  {
    if i == |plans| then s
    else
      var next := AfterChild(s, l, plans, i);
      var t := Rendered(next, l, plans, i + 1);
      EvolvedOn(s, next, t);
      t
  }

  /** n is still the canvas of child i, and the cell is claimed below it. */
  ghost predicate ClaimedByChild(s: Screen, l: Layout, i: nat, n: int, j: int, px: nat, py: nat) {
    && Valid(s) && i < |l.lengths|
    && 0 <= n < |s.subs| && Lasts(WindowOf(ChildOp(l, i)), s.subs[n])
    && -1 <= j < |s.subs| && Above(s, n, j) && px < s.width && Claimed(s, j, px, py)
  }

  ghost predicate SameCell(s: Screen, t: Screen, px: nat, py: nat) {
    Valid(s) && Valid(t) && px < s.width == t.width && At(t, px, py) == At(s, px, py)
  }

  /** Making the canvas of a later child k. */
  lemma NextWindowSpares(s: Screen, l: Layout, i: nat, k: nat, n: int, j: int, px: nat, py: nat)
    requires ClaimedByChild(s, l, i, n, j, px, py) && i < k < |l.lengths| && WindowsApart(l) && CanDo(s, ChildOp(l, k))
    ensures var made := Done(s, ChildOp(l, k));
            ClaimedByChild(made, l, i, n, j, px, py) && SameCell(s, made, px, py) && Siblings(made, |s.subs|, n)
  {
    var op, m := ChildOp(l, k), |s.subs|;
    var mid := WithSub(s, op.canvas, op.startX, op.startY, op.width, op.height, op.style);
    assert Evolved(s, mid);
    EvolvedKeepsAbove(s, mid, n, j);
    assert mid.subs[n] == s.subs[n] && mid.subs[m].parent == l.parent;
    assert ForkAt(mid, m, n, m, j);
    DivideSpares(s, op, n, j, px, py);
    var made := Done(s, op);
    EvolvedKeepsAbove(s, made, n, j);
    assert Lasts(s.subs[n], made.subs[n]);
  }

  /** The cell claimed below child i's canvas n is as it was. */
  ghost predicate StillClaimed(s: Screen, t: Screen, l: Layout, i: nat, n: int, j: int, px: nat, py: nat) {
    ClaimedByChild(t, l, i, n, j, px, py) && SameCell(s, t, px, py)
  }

  /** Child k is rendered while n is the canvas of an earlier child i. */
  lemma NextChildSpares(s: Screen, l: Layout, plans: seq<seq<Op>>, i: nat, k: nat, n: int, j: int, px: nat, py: nat)
    requires ClaimedByChild(s, l, i, n, j, px, py) && WindowsApart(l)
    requires |plans| == |l.lengths| && i < k < |plans| && Renders(s, l, plans, k)
    ensures StillClaimed(s, AfterChild(s, l, plans, k), l, i, n, j, px, py)
  {
    NextWindowSpares(s, l, i, k, n, j, px, py);
    var made, m := Done(s, ChildOp(l, k)), |s.subs|;
    SiblingsUndisturbed(made, plans[k], m, n, j, px, py);
    var t := AllDone(made, m, plans[k]);
    EvolvedKeepsAbove(made, t, n, j);
    assert Lasts(made.subs[n], t.subs[n]);
  }

  lemma {:induction false} LaterChildrenSpare(s: Screen, l: Layout, plans: seq<seq<Op>>, i: nat, k: nat, n: int, j: int, px: nat, py: nat)
    requires ClaimedByChild(s, l, i, n, j, px, py) && WindowsApart(l)
    requires |plans| == |l.lengths| && i < k <= |plans| && Renders(s, l, plans, k)
    ensures StillClaimed(s, Rendered(s, l, plans, k), l, i, n, j, px, py)
    decreases |plans| - k
  {
    if k < |plans| {
      var next := AfterChild(s, l, plans, k);
      NextChildSpares(s, l, plans, i, k, n, j, px, py);
      LaterChildrenSpare(next, l, plans, i, k + 1, n, j, px, py);
      StillClaimedOn(s, next, Rendered(next, l, plans, k + 1), l, i, n, j, px, py);
    }
  }

  lemma StillClaimedOn(s: Screen, t: Screen, u: Screen, l: Layout, i: nat, n: int, j: int, px: nat, py: nat)
    requires StillClaimed(s, t, l, i, n, j, px, py) && StillClaimed(t, u, l, i, n, j, px, py)
    ensures StillClaimed(s, u, l, i, n, j, px, py)
  {
  }

  lemma AllocationIsApart(wishes: seq<int>, length: nat, l: Layout)
    requires forall k :: 0 <= k < |wishes| ==> wishes[k] >= 0
    requires AllocationOf(wishes, length) == Allocated(l.lengths)
    ensures |l.lengths| == |wishes| && WindowsApart(l)
  {
    WishesGranted(wishes, length);
    forall i: nat, j: nat | i < j < |l.lengths|
      ensures Disjoint(WindowOf(ChildOp(l, i)), WindowOf(ChildOp(l, j)))
    {
      LayoutDividesApart(wishes, length, i, j, if l.dir.Horizontal? then l.height else l.width, l.dir, l.parent, l.style, l.style);
    }
  }

  /** A flexible layout renders its children one after the other, each with
      whatever it draws, divides and closes below its own canvas: what a child has
      claimed when it is done is there when the layout is done. */
  lemma LayoutKeepsItsChildren(s: Screen, wishes: seq<int>, length: nat, l: Layout, plans: seq<seq<Op>>, i: nat, j: int, px: nat, py: nat)
    requires forall k :: 0 <= k < |wishes| ==> wishes[k] >= 0
    requires AllocationOf(wishes, length) == Allocated(l.lengths) && |plans| == |l.lengths|
    requires Valid(s) && i < |plans| && Renders(s, l, plans, i)
    requires var t := AfterChild(s, l, plans, i);
             -1 <= j < |t.subs| && Above(t, |s.subs|, j) && px < t.width && Claimed(t, j, px, py)
    ensures At(Rendered(s, l, plans, i), px, py) == At(AfterChild(s, l, plans, i), px, py)
    ensures Claimed(Rendered(s, l, plans, i), j, px, py)
  {
    AllocationIsApart(wishes, length, l);
    LaterChildrenSpare(AfterChild(s, l, plans, i), l, plans, i, i + 1, |s.subs|, j, px, py);
  }
}
