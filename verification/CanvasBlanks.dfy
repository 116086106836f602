/** What a canvas is blanked with: every cell of a new window, and of the rows a
    growing one skips, shows a space in the window's own style. */
module CanvasBlanks {
  import opened Shared
  import opened Canvases

  /** The cell is a space in the style of canvas i, reached by all it is drawn through. */
  ghost predicate IsBlank(s: Screen, i: int, px: int, py: int)
    requires Valid(s) && 0 <= i < |s.subs|
  {
    Seen(s, s.subs[i].parent, px, py, Cell(' ', s.subs[i].style))
  }

  /** The cell comes before (x, y) in canvas i, row by row. */
  predicate Before(s: Screen, i: int, y: int, x: int, px: int, py: int)
    requires Valid(s) && 0 <= i < |s.subs|
  {
    py - OriginY(s, i) < y || (py - OriginY(s, i) == y && px - OriginX(s, i) < x)
  }

  lemma OtherWriteKeeps(s: Screen, i: int, x: int, y: int, c: Cell, px: int, py: int)
    requires Valid(s) && 0 <= i < |s.subs| && IsBlank(s, i, px, py)
    requires px != OriginX(s, i) + x || py != OriginY(s, i) + y
    ensures var sub := s.subs[i]; IsBlank(SetContent(s, sub.parent, sub.startX + x, sub.startY + y, c), i, px, py)
  {
    var sub := s.subs[i];
    var t := SetContent(s, sub.parent, sub.startX + x, sub.startY + y, c);
    ClaimedIsHeld(s, sub.parent, px, py);
    SetContentFrame(s, sub.parent, sub.startX + x, sub.startY + y, c, px, py);
    GrownKeeps(s, t, sub.parent, px, py);
    assert Rises(s.subs[i], t.subs[i]);
  }

  lemma BlankingGrows(s: Screen, i: int, x: int, y: int)
    requires Valid(s) && 0 <= i < |s.subs|
    ensures var t := Blanked(s, i, x, y);
            && Grown(s, t) && t.subs[i].width == s.subs[i].width && t.subs[i].style == s.subs[i].style && t.subs[i].parent == s.subs[i].parent
            && OriginX(t, i) == OriginX(s, i) && OriginY(t, i) == OriginY(s, i)
  {
    GrownKeeps(s, Blanked(s, i, x, y), i, 0, 0);
    assert Rises(s.subs[i], Blanked(s, i, x, y).subs[i]);
  }

  lemma NextCellKeeps(s: Screen, i: int, y: int, x: int, px: int, py: int)
    requires Valid(s) && 0 <= i < |s.subs| && IsBlank(s, i, px, py) && Before(s, i, y, x, px, py)
    ensures var t := Blanked(s, i, x, y);
            Valid(t) && |t.subs| == |s.subs| && t.subs[i].width == s.subs[i].width && IsBlank(t, i, px, py) && Before(t, i, y, x + 1, px, py)
  {
    OtherWriteKeeps(s, i, x, y, Cell(' ', s.subs[i].style), px, py);
    BlankingGrows(s, i, x, y);
  }

  /** What has been blanked stays so while the rest is. */
  lemma {:induction false} StaysBlank(s: Screen, i: int, y: int, x: int, maxY: int, px: int, py: int)
    requires Valid(s) && 0 <= i < |s.subs| && 0 <= x && IsBlank(s, i, px, py) && Before(s, i, y, x, px, py)
    ensures IsBlank(Fill(s, i, y, x, maxY), i, px, py)
    decreases if y < maxY then maxY - y else 0, if x < s.subs[i].width then s.subs[i].width - x else 0
  {
    if y < maxY {
      if x >= s.subs[i].width {
        FillsRow(s, i, y, x, maxY);
        StaysBlank(s, i, y + 1, 0, maxY, px, py);
      } else {
        FillsCell(s, i, y, x, maxY);
        NextCellKeeps(s, i, y, x, px, py);
        StaysBlank(Blanked(s, i, x, y), i, y, x + 1, maxY, px, py);
      }
    }
  }

  lemma BlankingBlanks(s: Screen, i: int, x: int, y: int)
    requires Valid(s) && 0 <= i < |s.subs| && Holds(s, i, OriginX(s, i) + x, OriginY(s, i) + y)
    ensures IsBlank(Blanked(s, i, x, y), i, OriginX(s, i) + x, OriginY(s, i) + y)
  {
    var sub := s.subs[i];
    HoldsThrough(s, i, x, y);
    WriteIsSeen(s, sub.parent, sub.startX + x, sub.startY + y, Cell(' ', sub.style));
    BlankingGrows(s, i, x, y);
  }

  /** The cell is still to be blanked. */
  ghost predicate Ahead(s: Screen, i: int, y: int, x: int, maxY: int, px: int, py: int)
    requires Valid(s) && 0 <= i < |s.subs|
  {
    Holds(s, i, px, py) && py - OriginY(s, i) < maxY && !Before(s, i, y, x, px, py)
  }

  lemma NextCellBlanks(s: Screen, i: int, y: int, x: int, maxY: int, px: int, py: int)
    requires Valid(s) && 0 <= i < |s.subs| && Ahead(s, i, y, x, maxY, px, py)
    ensures var t := Blanked(s, i, x, y);
            && Valid(t) && |t.subs| == |s.subs| && t.subs[i].width == s.subs[i].width
            && if px == OriginX(s, i) + x && py == OriginY(s, i) + y then IsBlank(t, i, px, py) && Before(t, i, y, x + 1, px, py)
               else Ahead(t, i, y, x + 1, maxY, px, py)
  {
    BlankingGrows(s, i, x, y);
    if px == OriginX(s, i) + x && py == OriginY(s, i) + y {
      BlankingBlanks(s, i, x, y);
    } else {
      GrownKeeps(s, Blanked(s, i, x, y), i, px, py);
    }
  }

  /** Filling leaves a space in the canvas's style in every cell it comes to. */
  lemma {:induction false} FillBlanks(s: Screen, i: int, y: int, x: int, maxY: int, px: int, py: int)
    requires Valid(s) && 0 <= i < |s.subs| && 0 <= x
    requires Ahead(s, i, y, x, maxY, px, py)
    ensures IsBlank(Fill(s, i, y, x, maxY), i, px, py)
    decreases if y < maxY then maxY - y else 0, if x < s.subs[i].width then s.subs[i].width - x else 0
  {
    if x >= s.subs[i].width {
      FillsRow(s, i, y, x, maxY);
      FillBlanks(s, i, y + 1, 0, maxY, px, py);
    } else {
      FillsCell(s, i, y, x, maxY);
      NextCellBlanks(s, i, y, x, maxY, px, py);
      if px == OriginX(s, i) + x && py == OriginY(s, i) + y {
        StaysBlank(Blanked(s, i, x, y), i, y, x + 1, maxY, px, py);
      } else {
        FillBlanks(Blanked(s, i, x, y), i, y, x + 1, maxY, px, py);
      }
    }
  }

  // ---- new windows ----

  /** A new window that does not grow shows spaces in its own style, unless its
      background and attributes are those of the window it is made on: then
      nothing changes. */
  lemma NewWindowIsBlank(s: Screen, parent: int, startX: int, startY: int, width: int, height: int, style: Style, px: int, py: int)
    requires Valid(s) && -1 <= parent < |s.subs| && height != GROW
    requires Holds(WithSub(s, parent, startX, startY, width, height, style), |s.subs|, px, py)
    ensures Divided(s, parent, startX, startY, width, height, style).Some?
    ensures var t := Divided(s, parent, startX, startY, width, height, style).value;
            && 0 <= px < t.width && 0 <= py
            && (if parent == -1 || style.rest != s.subs[parent].style.rest then At(t, px, py) == Cell(' ', style)
                else At(t, px, py) == At(s, px, py))
  {
    var mid := WithSub(s, parent, startX, startY, width, height, style);
    HeldIsOnScreen(mid, |s.subs|, px, py);
    if NeedsFill(s, parent, style) {
      FillBlanks(mid, |s.subs|, 0, 0, height, px, py);
      assert Rises(mid.subs[|s.subs|], Fill(mid, |s.subs|, 0, 0, height).subs[|s.subs|]);
    }
  }

  lemma {:induction false} HeldIsOnScreen(s: Screen, i: int, px: int, py: int)
    requires Valid(s) && -1 <= i < |s.subs| && Holds(s, i, px, py)
    ensures 0 <= px < s.width && 0 <= py
    decreases i + 1
  {
    if i >= 0 {
      HeldIsOnScreen(s, s.subs[i].parent, px, py);
    }
  }

  /** A growing window that is written below the rows it has reached shows what is
      written there, and spaces in its style in every other cell down to that row. */
  lemma GrowingBlanksSkippedRows(s: Screen, i: int, x: int, y: int, c: Cell, px: int, py: int)
    requires Valid(s) && 0 <= i < |s.subs| && s.subs[i].height == GROW && s.subs[i].needsFill
    requires 0 <= x < s.subs[i].width && s.subs[i].highWater < y < GROW
    requires Holds(s, i, px, py) && s.subs[i].highWater < py - OriginY(s, i) <= y
    requires px != OriginX(s, i) + x || py != OriginY(s, i) + y
    ensures var t := SetContent(s, i, x, y, c); 0 <= px < t.width && 0 <= py && At(t, px, py) == Cell(' ', s.subs[i].style)
  {
    var sub := s.subs[i];
    var raised := s.(subs := s.subs[i := sub.(highWater := y)]);
    assert Grown(s, raised);
    GrownKeeps(s, raised, i, px, py);
    var filled := Reached(s, i, y);
    FillBlanks(raised, i, sub.highWater + 1, 0, y + 1, px, py);
    assert Rises(raised.subs[i], filled.subs[i]);
    GrownKeeps(raised, filled, i, px, py);
    SetThrough(s, i, x, y, c);
    OtherWriteKeeps(filled, i, x, y, Shown(c), px, py);
    assert Rises(filled.subs[i], SetContent(s, i, x, y, c).subs[i]);
    HeldIsOnScreen(s, i, px, py);
  }

  /** A window cannot be made if and only if it is to grow on one that does not. */
  lemma DividesExactlyWhen(s: Screen, parent: int, startX: int, startY: int, width: int, height: int, style: Style)
    requires Valid(s) && -1 <= parent < |s.subs|
    ensures Divided(s, parent, startX, startY, width, height, style).None? <==>
              height == GROW && (if parent == -1 then s.height else s.subs[parent].height) != GROW
    ensures Divided(s, parent, startX, startY, width, height, style).Some? ==>
              var t := Divided(s, parent, startX, startY, width, height, style).value;
              |t.subs| == |s.subs| + 1 && CanvasIs(t.subs[|s.subs|], parent, startX, startY, width, height, style)
  {
    var mid := WithSub(s, parent, startX, startY, width, height, style);
    if NeedsFill(s, parent, style) {
      var maxY := if height == GROW then 0 else height;
      assert Rises(mid.subs[|s.subs|], Fill(mid, |s.subs|, 0, 0, maxY).subs[|s.subs|]);
    }
  }

  predicate CanvasIs(sub: Sub, parent: int, startX: int, startY: int, width: int, height: int, style: Style) {
    && sub.parent == parent && sub.startX == startX && sub.startY == startY
    && sub.width == width && sub.height == height && sub.style == style
  }
}
