/** Where a flexible layout puts its children, said in widths and heights. */
module FlexPlaces {
  import opened FlexLayouts
  import opened Canvases
  import opened CanvasRuns

  ghost predicate Sized(sizes: seq<Size>) {
    forall i :: 0 <= i < |sizes| ==> sizes[i].Fits? && sizes[i].width >= 0 && sizes[i].height >= 0
  }

  /** The ranges follow each other within the length, and a child that fits gets
      what it wishes for. */
  ghost predicate InRange(wishes: seq<int>, lengths: seq<int>, length: nat, i: nat)
    requires i < |wishes| == |lengths|
  {
    && lengths[i] >= 0 && 0 <= Offset(lengths, i) && Offset(lengths, i) + lengths[i] <= length
    && Offset(lengths, 0) == 0 && Offset(lengths, i + 1) == Offset(lengths, i) + lengths[i]
    && (Taken(wishes, i, length) + wishes[i] < length ==> lengths[i] == wishes[i])
  }

  lemma AllInRange(wishes: seq<int>, length: nat, i: nat)
    requires (forall k :: 0 <= k < |wishes| ==> wishes[k] >= 0) && i < |wishes|
    ensures var r := AllocationOf(wishes, length);
            r.Allocated? && |r.lengths| == |wishes| && InRange(wishes, r.lengths, length, i)
  {
    WishesGranted(wishes, length);
    RangesFill(wishes, length);
    FitsExactlyWhen(wishes, length, i);
    assert InPlace(AllocationOf(wishes, length).lengths, i, length);
  }

  function WindowIn(l: Layout, i: nat): Sub
    requires i < |l.lengths|
  {
    WindowOf(ChildOp(l, i))
  }

  /** In a horizontal layout the children's windows lie side by side within the
      width, from the left, and span the height; one that fits has its width. */
  lemma HorizontalWindows(sizes: seq<Size>, width: nat, height: nat, parent: int, style: Style, i: nat)
    requires Sized(sizes) && i < |sizes|
    ensures var r := AllocationOf(Widths(sizes), width);
            && r.Allocated? && |r.lengths| == |sizes|
            && var l := Layout(parent, r.lengths, width, height, Horizontal, style);
               var w := WindowIn(l, i);
               && w.parent == parent && w.style == style && w.startY == 0 && w.height == height
               && 0 <= w.startX <= w.startX + w.width <= width
               && w.startX == (if i == 0 then 0 else WindowIn(l, i - 1).startX + WindowIn(l, i - 1).width)
               && (Taken(Widths(sizes), i, width) + sizes[i].width < width ==> w.width == sizes[i].width)
  {
    AllInRange(Widths(sizes), width, i);
    if i > 0 {
      AllInRange(Widths(sizes), width, i - 1);
    }
  }

  /** In a vertical layout they lie one below the other within the height, from
      the top, and span the width; one that fits has its height. */
  lemma VerticalWindows(sizes: seq<Size>, width: nat, height: nat, parent: int, style: Style, i: nat)
    requires Sized(sizes) && i < |sizes|
    ensures var r := AllocationOf(Heights(sizes), height);
            && r.Allocated? && |r.lengths| == |sizes|
            && var l := Layout(parent, r.lengths, width, height, Vertical, style);
               var w := WindowIn(l, i);
               && w.parent == parent && w.style == style && w.startX == 0 && w.width == width
               && 0 <= w.startY <= w.startY + w.height <= height
               && w.startY == (if i == 0 then 0 else WindowIn(l, i - 1).startY + WindowIn(l, i - 1).height)
               && (Taken(Heights(sizes), i, height) + sizes[i].height < height ==> w.height == sizes[i].height)
  {
    AllInRange(Heights(sizes), height, i);
    if i > 0 {
      AllInRange(Heights(sizes), height, i - 1);
    }
  }
}
