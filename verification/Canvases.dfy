/** Canvases drawn through one another. Every canvas but the first is a window
    on an earlier one; a growing window blanks a row when it first reaches it. */
module Canvases {
  import opened Shared
  import opened FlexLayouts

  const GROW := 0x7fff_ffff

  datatype Style = Style(foreground: int, rest: int)

  datatype Cell = Cell(ch: char, style: Style)

  /** parent is the index of the canvas drawn on; -1 is the canvas with cells. */
  datatype Sub = Sub(parent: int, startX: int, startY: int, width: int, height: int,
                     highWater: int, style: Style, needsFill: bool)

  datatype Screen = Screen(width: nat, height: int, style: Style, rows: seq<seq<Cell>>, subs: seq<Sub>)

  ghost predicate Valid(s: Screen) {
    && (forall i :: 0 <= i < |s.subs| ==> -1 <= s.subs[i].parent < i && -1 <= s.subs[i].highWater < GROW)
    && (forall y :: 0 <= y < |s.rows| ==> |s.rows[y]| == s.width)
  }

  predicate Rises(a: Sub, b: Sub) {
    b == a.(highWater := b.highWater) && a.highWater <= b.highWater
  }

  /** What drawing never changes; rows already reached stay reached. */
  ghost predicate Grown(s: Screen, t: Screen) {
    && Valid(t) && t.width == s.width && t.height == s.height && t.style == s.style
    && |t.subs| == |s.subs|
    && forall i {:trigger t.subs[i]} :: 0 <= i < |s.subs| ==> Rises(s.subs[i], t.subs[i])
  }

  function Blank(style: Style): Cell {
    Cell('\0', style)
  }

  function Shown(c: Cell): Cell {
    if c.ch == '\0' then c.(ch := ' ') else c
  }

  function Row(s: Screen): (r: seq<Cell>)
    ensures |r| == s.width && forall x :: 0 <= x < s.width ==> r[x] == Blank(s.style)
  {
    seq(s.width, x => Blank(s.style))
  }

  function Padded(s: Screen, n: nat): (r: seq<seq<Cell>>)
    requires forall y :: 0 <= y < |s.rows| ==> |s.rows[y]| == s.width
    ensures |r| == (if n > |s.rows| then n else |s.rows|)
    ensures forall y :: 0 <= y < |r| ==> r[y] == if y < |s.rows| then s.rows[y] else Row(s)
  {
    if n > |s.rows| then s.rows + seq(n - |s.rows|, y => Row(s)) else s.rows
  }

  function SetCell(s: Screen, x: int, y: int, c: Cell): (t: Screen)
    requires Valid(s)
    ensures Grown(s, t) && t.subs == s.subs
  {
    if x < 0 || x >= s.width || y < 0 || y >= s.height then s
    else
      var rows := Padded(s, y + 1);
      s.(rows := rows[y := rows[y][x := Shown(c)]])
  }

  function SetContent(s: Screen, i: int, x: int, y: int, c: Cell): (t: Screen)
    requires Valid(s) && -1 <= i < |s.subs|
    ensures Grown(s, t)
    decreases i + 1, 2, 0, 0
  {
    if i == -1 then SetCell(s, x, y, c)
    else
      var sub := s.subs[i];
      if x < 0 || x >= sub.width || y < 0 || y >= sub.height then s
      else
        var raised := Reached(s, i, y);
        SetContent(raised, sub.parent, sub.startX + x, sub.startY + y, Shown(c))
  }

  /** A growing canvas reaches row y, blanking the rows up to it if need be. */
  function Reached(s: Screen, i: int, y: int): (t: Screen)
    requires Valid(s) && 0 <= i < |s.subs| && y < s.subs[i].height
    ensures Grown(s, t)
    decreases i + 1, 1, 0, 0
  {
    var sub := s.subs[i];
    if sub.height == GROW && y > sub.highWater then
      var raised := s.(subs := s.subs[i := sub.(highWater := y)]);
      if sub.needsFill then Fill(raised, i, sub.highWater + 1, 0, y + 1) else raised
    else s
  }

  lemma SetThrough(s: Screen, i: int, x: int, y: int, c: Cell)
    requires Valid(s) && 0 <= i < |s.subs| && 0 <= x < s.subs[i].width && 0 <= y < s.subs[i].height
    ensures var sub, raised := s.subs[i], Reached(s, i, y);
            && SetContent(s, i, x, y, c) == SetContent(raised, sub.parent, sub.startX + x, sub.startY + y, Shown(c))
            && Grown(raised, SetContent(s, i, x, y, c))
  {
  }

  /** Blanks from (x, y) on to the end of the last row before maxY. */
  function Fill(s: Screen, i: int, y: int, x: int, maxY: int): (t: Screen)
    requires Valid(s) && 0 <= i < |s.subs| && 0 <= x
    ensures Grown(s, t)
    decreases i + 1, 0, if y < maxY then maxY - y else 0, if x < s.subs[i].width then s.subs[i].width - x else 0
  {
    var sub := s.subs[i];
    if y >= maxY then s
    else if x >= sub.width then Fill(s, i, y + 1, 0, maxY)
    else Fill(SetContent(s, sub.parent, sub.startX + x, sub.startY + y, Cell(' ', sub.style)), i, y, x + 1, maxY)
  }

  function Blanked(s: Screen, i: int, x: int, y: int): (t: Screen)
    requires Valid(s) && 0 <= i < |s.subs|
    ensures Grown(s, t)
  {
    var sub := s.subs[i];
    SetContent(s, sub.parent, sub.startX + x, sub.startY + y, Cell(' ', sub.style))
  }

  lemma FillsCell(s: Screen, i: int, y: int, x: int, maxY: int)
    requires Valid(s) && 0 <= i < |s.subs| && 0 <= x < s.subs[i].width && y < maxY
    ensures Fill(s, i, y, x, maxY) == Fill(Blanked(s, i, x, y), i, y, x + 1, maxY)
  {
  }

  lemma FillsRow(s: Screen, i: int, y: int, x: int, maxY: int)
    requires Valid(s) && 0 <= i < |s.subs| && 0 <= x && x >= s.subs[i].width && y < maxY
    ensures Fill(s, i, y, x, maxY) == Fill(s, i, y + 1, 0, maxY)
  {
  }

  /** Row y is blanked up to x. */
  ghost predicate Filling(was: Screen, s: Screen, i: int, y: int, x: nat, maxY: int)
    requires Valid(was) && 0 <= i < |was.subs|
  {
    Grown(was, s) && Fill(was, i, y, 0, maxY) == Fill(s, i, y, x, maxY)
  }

  lemma FillingCell(was: Screen, s: Screen, i: int, y: int, x: nat, maxY: int)
    requires Valid(was) && 0 <= i < |was.subs| && Filling(was, s, i, y, x, maxY) && y < maxY && x < was.subs[i].width
    ensures Filling(was, Blanked(s, i, x, y), i, y, x + 1, maxY)
  {
    FillsCell(s, i, y, x, maxY);
  }

  lemma BlankedAsBefore(was: Screen, s: Screen, i: int, x: int, y: int)
    requires Valid(was) && 0 <= i < |was.subs| && Grown(was, s)
    ensures var sub := was.subs[i];
            Blanked(s, i, x, y) == SetContent(s, sub.parent, sub.startX + x, sub.startY + y, Cell(' ', sub.style))
  {
  }

  lemma FilledRow(was: Screen, s: Screen, i: int, y: int, x: nat, maxY: int)
    requires Valid(was) && 0 <= i < |was.subs| && Filling(was, s, i, y, x, maxY) && y < maxY && x >= was.subs[i].width
    ensures Fill(was, i, y, 0, maxY) == Fill(s, i, y + 1, 0, maxY)
  {
    FillsRow(s, i, y, x, maxY);
  }

  // ---- where things are, in cells of the first canvas ----

  function OriginX(s: Screen, i: int): int
    requires Valid(s) && -1 <= i < |s.subs|
    decreases i + 1
  {
    if i == -1 then 0 else OriginX(s, s.subs[i].parent) + s.subs[i].startX
  }

  function OriginY(s: Screen, i: int): int
    requires Valid(s) && -1 <= i < |s.subs|
    decreases i + 1
  {
    if i == -1 then 0 else OriginY(s, s.subs[i].parent) + s.subs[i].startY
  }

  function At(s: Screen, px: nat, py: nat): Cell
    requires Valid(s) && px < s.width
  {
    if py < |s.rows| then s.rows[py][px] else Blank(s.style)
  }

  /** The cell lies in canvas i, and in all it is drawn through. */
  predicate Holds(s: Screen, i: int, px: int, py: int)
    requires Valid(s) && -1 <= i < |s.subs|
    decreases i + 1
  {
    if i == -1 then 0 <= px < s.width && 0 <= py < s.height
    else
      && 0 <= px - OriginX(s, i) < s.subs[i].width && 0 <= py - OriginY(s, i) < s.subs[i].height
      && Holds(s, s.subs[i].parent, px, py)
  }

  /** The cell lies in canvas i, and every growing canvas has reached its row. */
  predicate Claimed(s: Screen, i: int, px: int, py: int)
    requires Valid(s) && -1 <= i < |s.subs|
    decreases i + 1
  {
    if i == -1 then Holds(s, i, px, py)
    else
      && 0 <= px - OriginX(s, i) < s.subs[i].width && 0 <= py - OriginY(s, i) < s.subs[i].height
      && (s.subs[i].height == GROW ==> py - OriginY(s, i) <= s.subs[i].highWater)
      && Claimed(s, s.subs[i].parent, px, py)
  }

  /** A growing canvas on the way from canvas i would still blank the cell. */
  predicate Refillable(s: Screen, i: int, px: int, py: int)
    requires Valid(s) && -1 <= i < |s.subs|
    decreases i + 1
  {
    i >= 0 &&
    (Refillable(s, s.subs[i].parent, px, py) ||
     (s.subs[i].height == GROW && py - OriginY(s, i) > s.subs[i].highWater && Holds(s, i, px, py)))
  }

  lemma {:induction false} GrownKeeps(s: Screen, t: Screen, i: int, px: int, py: int)
    requires Valid(s) && Grown(s, t) && -1 <= i < |s.subs|
    ensures OriginX(t, i) == OriginX(s, i) && OriginY(t, i) == OriginY(s, i)
    ensures Holds(t, i, px, py) <==> Holds(s, i, px, py)
    ensures Claimed(s, i, px, py) ==> Claimed(t, i, px, py)
    ensures Refillable(t, i, px, py) ==> Refillable(s, i, px, py)
    decreases i + 1
  {
    if i >= 0 {
      GrownKeeps(s, t, s.subs[i].parent, px, py);
    }
  }

  lemma {:induction false} ClaimedIsHeld(s: Screen, i: int, px: int, py: int)
    requires Valid(s) && -1 <= i < |s.subs| && Claimed(s, i, px, py)
    ensures Holds(s, i, px, py) && !Refillable(s, i, px, py)
    decreases i + 1
  {
    if i >= 0 {
      ClaimedIsHeld(s, s.subs[i].parent, px, py);
    }
  }

  // ---- what one write can change ----

  lemma SetCellFrame(s: Screen, x: int, y: int, c: Cell, px: nat, py: nat)
    requires Valid(s) && px < s.width && (px != x || py != y || !Holds(s, -1, px, py))
    ensures At(SetCell(s, x, y, c), px, py) == At(s, px, py)
  {
  }

  /** A write through canvas i changes no cell but the one it names, if that is
      within all the canvases, and those a growing canvas still has to blank. */
  lemma {:induction false} SetContentFrame(s: Screen, i: int, x: int, y: int, c: Cell, px: nat, py: nat)
    requires Valid(s) && -1 <= i < |s.subs| && px < s.width
    requires px != OriginX(s, i) + x || py != OriginY(s, i) + y || !Holds(s, i, px, py)
    requires !Refillable(s, i, px, py)
    ensures At(SetContent(s, i, x, y, c), px, py) == At(s, px, py)
    decreases i + 1, 3, 0, 0
  {
    if i == -1 {
      SetCellFrame(s, x, y, c, px, py);
    } else {
      var sub := s.subs[i];
      if 0 <= x < sub.width && 0 <= y < sub.height {
        ReachedFrame(s, i, y, px, py);
        var raised := Reached(s, i, y);
        GrownKeeps(s, raised, sub.parent, px, py);
        SetContentFrame(raised, sub.parent, sub.startX + x, sub.startY + y, Shown(c), px, py);
      }
    }
  }

  lemma {:induction false} ReachedFrame(s: Screen, i: int, y: int, px: nat, py: nat)
    requires Valid(s) && 0 <= i < |s.subs| && px < s.width && y < s.subs[i].height
    requires !Refillable(s, i, px, py)
    ensures At(Reached(s, i, y), px, py) == At(s, px, py)
    decreases i + 1, 2, 0, 0
  {
    var sub := s.subs[i];
    if sub.height == GROW && y > sub.highWater && sub.needsFill {
      var raised := s.(subs := s.subs[i := sub.(highWater := y)]);
      assert Grown(s, raised);
      GrownKeeps(s, raised, i, px, py);
      GrownKeeps(s, raised, sub.parent, px, py);
      FillFrame(raised, i, sub.highWater + 1, 0, y + 1, px, py);
    }
  }

  /** The cell is none that canvas i blanks from row y on. */
  predicate Spared(s: Screen, i: int, y: int, px: int, py: int)
    requires Valid(s) && 0 <= i < |s.subs|
  {
    && !Refillable(s, s.subs[i].parent, px, py)
    && (!Holds(s, i, px, py) || py - OriginY(s, i) < y)
  }

  lemma SparedIsMissed(s: Screen, i: int, y: int, x: int, px: nat, py: nat)
    requires Valid(s) && 0 <= i < |s.subs| && 0 <= x < s.subs[i].width && 0 <= y < s.subs[i].height && Spared(s, i, y, px, py)
    ensures var sub := s.subs[i];
            || px != OriginX(s, sub.parent) + (sub.startX + x) || py != OriginY(s, sub.parent) + (sub.startY + y)
            || !Holds(s, sub.parent, px, py)
  {
  }

  lemma {:induction false} BlankFrame(s: Screen, i: int, y: int, x: int, px: nat, py: nat)
    requires Valid(s) && 0 <= i < |s.subs| && px < s.width
    requires 0 <= x < s.subs[i].width && 0 <= y < s.subs[i].height && Spared(s, i, y, px, py)
    ensures Spared(Blanked(s, i, x, y), i, y, px, py) && At(Blanked(s, i, x, y), px, py) == At(s, px, py)
    decreases i + 1, 0, 0, 0
  {
    var sub, t := s.subs[i], Blanked(s, i, x, y);
    SparedIsMissed(s, i, y, x, px, py);
    SetContentFrame(s, sub.parent, sub.startX + x, sub.startY + y, Cell(' ', sub.style), px, py);
    GrownKeeps(s, t, i, px, py);
    GrownKeeps(s, t, sub.parent, px, py);
  }

  lemma {:induction false} FillFrame(s: Screen, i: int, y: int, x: int, maxY: int, px: nat, py: nat)
    requires Valid(s) && 0 <= i < |s.subs| && 0 <= x && px < s.width
    requires 0 <= y && maxY <= s.subs[i].height && Spared(s, i, y, px, py)
    ensures At(Fill(s, i, y, x, maxY), px, py) == At(s, px, py)
    decreases i + 1, 1, if y < maxY then maxY - y else 0, if x < s.subs[i].width then s.subs[i].width - x else 0
  {
    var sub := s.subs[i];
    if y < maxY {
      if x >= sub.width {
        FillsRow(s, i, y, x, maxY);
        FillFrame(s, i, y + 1, 0, maxY, px, py);
      } else {
        FillsCell(s, i, y, x, maxY);
        BlankFrame(s, i, y, x, px, py);
        FillFrame(Blanked(s, i, x, y), i, y, x + 1, maxY, px, py);
      }
    }
  }

  // ---- canvases side by side ----

  /** Canvas a is i, or one that i is drawn through. */
  predicate Above(s: Screen, a: int, i: int)
    requires Valid(s) && -1 <= i < |s.subs|
    decreases i + 1
  {
    a == i || (i >= 0 && Above(s, a, s.subs[i].parent))
  }

  predicate Disjoint(a: Sub, b: Sub) {
    || a.startX + a.width <= b.startX || b.startX + b.width <= a.startX
    || a.startY + a.height <= b.startY || b.startY + b.height <= a.startY
  }

  /** Canvases i and j go back to two disjoint windows on the same canvas, as
      dividing one makes them. */
  ghost predicate Apart(s: Screen, i: int, j: int)
    requires Valid(s) && -1 <= i < |s.subs| && -1 <= j < |s.subs|
  {
    exists p, q :: ForkAt(s, p, q, i, j)
  }

  predicate ForkAt(s: Screen, p: int, q: int, i: int, j: int)
    requires Valid(s) && -1 <= i < |s.subs| && -1 <= j < |s.subs|
  {
    && 0 <= p < |s.subs| && 0 <= q < |s.subs| && Above(s, p, i) && Above(s, q, j)
    && s.subs[p].parent == s.subs[q].parent && Disjoint(s.subs[p], s.subs[q])
  }

  lemma {:induction false} ClaimedAbove(s: Screen, a: int, i: int, px: int, py: int)
    requires Valid(s) && -1 <= i < |s.subs| && -1 <= a < |s.subs|
    requires Above(s, a, i) && Claimed(s, i, px, py)
    ensures Claimed(s, a, px, py)
    decreases i + 1
  {
    if a != i {
      ClaimedAbove(s, a, s.subs[i].parent, px, py);
    }
  }

  lemma {:induction false} OutsideBelow(s: Screen, p: int, i: int, px: int, py: int)
    requires Valid(s) && 0 <= p < |s.subs| && -1 <= i < |s.subs| && Above(s, p, i)
    requires !Holds(s, p, px, py) && !Refillable(s, s.subs[p].parent, px, py)
    ensures !Holds(s, i, px, py) && !Refillable(s, i, px, py)
    decreases i + 1
  {
    if p != i {
      OutsideBelow(s, p, s.subs[i].parent, px, py);
    }
  }

  lemma ApartIsSafe(s: Screen, i: int, j: int, px: int, py: int)
    requires Valid(s) && -1 <= i < |s.subs| && -1 <= j < |s.subs|
    requires Apart(s, i, j) && Claimed(s, j, px, py)
    ensures !Holds(s, i, px, py) && !Refillable(s, i, px, py)
  {
    var p, q :| ForkAt(s, p, q, i, j);
    ClaimedAbove(s, q, j, px, py);
    ClaimedIsHeld(s, s.subs[q].parent, px, py);
    OutsideBelow(s, p, i, px, py);
  }

  lemma {:induction false} GrownKeepsAbove(s: Screen, t: Screen, a: int, i: int)
    requires Valid(s) && Grown(s, t) && -1 <= i < |s.subs|
    ensures Above(t, a, i) <==> Above(s, a, i)
    decreases i + 1
  {
    if i >= 0 {
      GrownKeepsAbove(s, t, a, s.subs[i].parent);
    }
  }

  lemma GrownKeepsApart(s: Screen, t: Screen, i: int, j: int)
    requires Valid(s) && Grown(s, t) && -1 <= i < |s.subs| && -1 <= j < |s.subs|
    requires Apart(s, i, j)
    ensures Apart(t, i, j)
  {
    var p, q :| ForkAt(s, p, q, i, j);
    GrownKeepsAbove(s, t, p, i);
    GrownKeepsAbove(s, t, q, j);
    assert ForkAt(t, p, q, i, j);
  }

  // ---- main results ----

  lemma {:induction false} ReachedReaches(s: Screen, i: int, y: int)
    requires Valid(s) && 0 <= i < |s.subs| && y < s.subs[i].height
    ensures s.subs[i].height == GROW ==> Reached(s, i, y).subs[i].highWater >= y
  {
    var sub := s.subs[i];
    if sub.height == GROW && y > sub.highWater {
      var raised := s.(subs := s.subs[i := sub.(highWater := y)]);
      assert raised.subs[i].highWater == y;
    }
  }

  /** The cell shows c, and canvas i has claimed it. */
  ghost predicate Seen(t: Screen, i: int, px: int, py: int, c: Cell) {
    && Valid(t) && -1 <= i < |t.subs|
    && 0 <= px < t.width && 0 <= py && At(t, px, py) == c && Claimed(t, i, px, py)
  }

  lemma SeenThrough(t: Screen, i: int, px: int, py: int, c: Cell)
    requires Valid(t) && 0 <= i < |t.subs| && Seen(t, t.subs[i].parent, px, py, c)
    requires 0 <= px - OriginX(t, i) < t.subs[i].width && 0 <= py - OriginY(t, i) < t.subs[i].height
    requires t.subs[i].height == GROW ==> py - OriginY(t, i) <= t.subs[i].highWater
    ensures Seen(t, i, px, py, c)
  {
  }

  lemma HoldsThrough(s: Screen, i: int, x: int, y: int)
    requires Valid(s) && 0 <= i < |s.subs| && Holds(s, i, OriginX(s, i) + x, OriginY(s, i) + y)
    ensures var sub := s.subs[i];
            && 0 <= x < sub.width && 0 <= y < sub.height
            && OriginX(s, sub.parent) + (sub.startX + x) == OriginX(s, i) + x
            && OriginY(s, sub.parent) + (sub.startY + y) == OriginY(s, i) + y
            && Holds(s, sub.parent, OriginX(s, i) + x, OriginY(s, i) + y)
  {
  }

  lemma ReachedHolds(s: Screen, i: int, x: int, y: int)
    requires Valid(s) && 0 <= i < |s.subs| && Holds(s, i, OriginX(s, i) + x, OriginY(s, i) + y) && y < s.subs[i].height
    ensures var sub, raised := s.subs[i], Reached(s, i, y);
            && Holds(raised, sub.parent, OriginX(raised, sub.parent) + (sub.startX + x), OriginY(raised, sub.parent) + (sub.startY + y))
            && OriginX(raised, sub.parent) + (sub.startX + x) == OriginX(s, i) + x
            && OriginY(raised, sub.parent) + (sub.startY + y) == OriginY(s, i) + y
  {
    HoldsThrough(s, i, x, y);
    GrownKeeps(s, Reached(s, i, y), s.subs[i].parent, OriginX(s, i) + x, OriginY(s, i) + y);
  }

  /** What is seen on the canvas below is seen on canvas i. */
  lemma SeenAbove(s: Screen, t: Screen, i: int, x: int, y: int, c: Cell)
    requires Valid(s) && 0 <= i < |s.subs| && 0 <= x < s.subs[i].width && 0 <= y < s.subs[i].height
    requires Grown(Reached(s, i, y), t)
    requires Seen(t, s.subs[i].parent, OriginX(s, i) + x, OriginY(s, i) + y, c)
    ensures Seen(t, i, OriginX(s, i) + x, OriginY(s, i) + y, c)
  {
    var raised, px, py := Reached(s, i, y), OriginX(s, i) + x, OriginY(s, i) + y;
    GrownKeeps(s, raised, i, px, py);
    GrownKeeps(raised, t, i, px, py);
    ReachedReaches(s, i, y);
    assert Rises(raised.subs[i], t.subs[i]);
    SeenThrough(t, i, px, py, c);
  }

  /** What is written inside all the canvases is there, and is claimed; no
      character counts as a space. */
  lemma {:induction false} WriteIsSeen(s: Screen, i: int, x: int, y: int, c: Cell)
    requires Valid(s) && -1 <= i < |s.subs|
    requires Holds(s, i, OriginX(s, i) + x, OriginY(s, i) + y)
    ensures Seen(SetContent(s, i, x, y, c), i, OriginX(s, i) + x, OriginY(s, i) + y,
                 if c.ch == '\0' then Cell(' ', c.style) else c)
    decreases i + 1
  {
    if i >= 0 {
      var sub := s.subs[i];
      HoldsThrough(s, i, x, y);
      ReachedHolds(s, i, x, y);
      var raised := Reached(s, i, y);
      WriteIsSeen(raised, sub.parent, sub.startX + x, sub.startY + y, Shown(c));
      SetThrough(s, i, x, y, c);
      SeenAbove(s, SetContent(s, i, x, y, c), i, x, y, Shown(c));
    }
  }

  datatype Write = Write(canvas: int, x: int, y: int, cell: Cell)

  predicate Writable(s: Screen, writes: seq<Write>) {
    forall k :: 0 <= k < |writes| ==> -1 <= writes[k].canvas < |s.subs|
  }

  function Drawn(s: Screen, writes: seq<Write>): (t: Screen)
    requires Valid(s) && Writable(s, writes)
    ensures Grown(s, t)
    decreases |writes|
  {
    if writes == [] then s
    else
      var w := writes[0];
      Drawn(SetContent(s, w.canvas, w.x, w.y, w.cell), writes[1..])
  }

  /** However deep the canvases, and however they grow and blank their rows: no
      drawing through canvases apart from j disturbs what j has claimed. */
  lemma {:induction false} NeighboursDoNotDisturb(s: Screen, writes: seq<Write>, j: int, px: nat, py: nat)
    requires Valid(s) && Writable(s, writes) && -1 <= j < |s.subs| && px < s.width
    requires forall k :: 0 <= k < |writes| ==> Apart(s, writes[k].canvas, j)
    requires Claimed(s, j, px, py)
    ensures At(Drawn(s, writes), px, py) == At(s, px, py)
    ensures Claimed(Drawn(s, writes), j, px, py)
    decreases |writes|
  {
    if writes != [] {
      var w := writes[0];
      var t := SetContent(s, w.canvas, w.x, w.y, w.cell);
      ApartIsSafe(s, w.canvas, j, px, py);
      SetContentFrame(s, w.canvas, w.x, w.y, w.cell, px, py);
      GrownKeeps(s, t, j, px, py);
      forall k | 0 <= k < |writes[1..]|
        ensures Apart(t, writes[1..][k].canvas, j)
      {
        GrownKeepsApart(s, t, writes[k + 1].canvas, j);
      }
      NeighboursDoNotDisturb(t, writes[1..], j, px, py);
    }
  }

  // ---- making and closing canvases ----

  function NeedsFill(s: Screen, parent: int, style: Style): bool
    requires -1 <= parent < |s.subs|
  {
    parent == -1 || style.rest != s.subs[parent].style.rest
  }

  function HeightOf(s: Screen, i: int): int
    requires -1 <= i < |s.subs|
  {
    if i == -1 then s.height else s.subs[i].height
  }

  function WithSub(s: Screen, parent: int, startX: int, startY: int, width: int, height: int, style: Style): (t: Screen)
    requires Valid(s) && -1 <= parent < |s.subs|
    ensures Valid(t)
  {
    s.(subs := s.subs + [Sub(parent, startX, startY, width, height, -1, style, NeedsFill(s, parent, style))])
  }

  /** A new window on a canvas, blanked unless it will grow; None where a
      growing one is asked for on a canvas that does not grow. */
  function Divided(s: Screen, parent: int, startX: int, startY: int, width: int, height: int, style: Style): Option<Screen>
    requires Valid(s) && -1 <= parent < |s.subs|
  {
    if height == GROW && HeightOf(s, parent) != GROW then None
    else
      var t := WithSub(s, parent, startX, startY, width, height, style);
      Some(if NeedsFill(s, parent, style) then Fill(t, |s.subs|, 0, 0, if height == GROW then 0 else height) else t)
  }

  lemma {:induction false} WithSubKeeps(s: Screen, t: Screen, i: int, px: int, py: int)
    requires Valid(s) && Valid(t) && t.width == s.width && t.height == s.height && s.subs <= t.subs && -1 <= i < |s.subs|
    ensures OriginX(t, i) == OriginX(s, i) && OriginY(t, i) == OriginY(s, i)
    ensures Claimed(t, i, px, py) <==> Claimed(s, i, px, py)
    decreases i + 1
  {
    if i >= 0 {
      assert t.subs[i] == s.subs[i];
      WithSubKeeps(s, t, s.subs[i].parent, px, py);
    }
  }

  /** Making a window apart from j disturbs nothing j has claimed either. */
  lemma DividingDoesNotDisturb(s: Screen, parent: int, startX: int, startY: int, width: int, height: int, style: Style, j: int, px: nat, py: nat)
    requires Valid(s) && -1 <= parent < |s.subs| && -1 <= j < |s.subs| && px < s.width
    requires Divided(s, parent, startX, startY, width, height, style).Some?
    requires Apart(WithSub(s, parent, startX, startY, width, height, style), |s.subs|, j)
    requires Claimed(s, j, px, py)
    ensures var t := Divided(s, parent, startX, startY, width, height, style).value;
            && Valid(t) && |t.subs| == |s.subs| + 1 && t.width == s.width
            && At(t, px, py) == At(s, px, py) && Claimed(t, j, px, py)
  {
    var n, mid := |s.subs|, WithSub(s, parent, startX, startY, width, height, style);
    WithSubKeeps(s, mid, j, px, py);
    ApartIsSafe(mid, n, j, px, py);
    if NeedsFill(s, parent, style) {
      var maxY := if height == GROW then 0 else height;
      FillFrame(mid, n, 0, 0, maxY, px, py);
      GrownKeeps(mid, Fill(mid, n, 0, 0, maxY), j, px, py);
    }
  }

  /** A growing canvas is as high as the rows it reached. */
  function Closed(s: Screen, i: int): (t: Screen)
    requires Valid(s) && 0 <= i < |s.subs|
    ensures Valid(t) && |t.subs| == |s.subs|
  {
    var sub := s.subs[i];
    if sub.height == GROW then s.(subs := s.subs[i := sub.(height := sub.highWater + 1)]) else s
  }

  /** Closing a canvas gives up nothing that is claimed. */
  lemma {:induction false} ClosingKeepsClaims(s: Screen, i: int, j: int, px: int, py: int)
    requires Valid(s) && 0 <= i < |s.subs| && -1 <= j < |s.subs| && Claimed(s, j, px, py)
    ensures OriginX(Closed(s, i), j) == OriginX(s, j) && OriginY(Closed(s, i), j) == OriginY(s, j)
    ensures Claimed(Closed(s, i), j, px, py)
    decreases j + 1
  {
    if j >= 0 {
      ClosingKeepsClaims(s, i, s.subs[j].parent, px, py);
    }
  }

  /** The window a flexible layout gives to its child i. */
  function ChildWindow(parent: int, lengths: seq<int>, i: nat, depth: int, dir: Dir, style: Style, fill: bool): Sub
    requires i < |lengths|
  {
    if dir.Horizontal? then Sub(parent, Offset(lengths, i), 0, lengths[i], depth, -1, style, fill)
    else Sub(parent, 0, Offset(lengths, i), depth, lengths[i], -1, style, fill)
  }

  /** The windows of two children of one flexible layout are disjoint. */
  lemma LayoutDividesApart(wishes: seq<int>, length: nat, i: nat, j: nat, depth: int, dir: Dir, parent: int, a: Style, b: Style)
    requires forall k :: 0 <= k < |wishes| ==> wishes[k] >= 0
    requires i < j < |wishes|
    ensures var r := AllocationOf(wishes, length);
            && r.Allocated? && |r.lengths| == |wishes|
            && Disjoint(ChildWindow(parent, r.lengths, i, depth, dir, a, true), ChildWindow(parent, r.lengths, j, depth, dir, b, true))
  {
    WishesGranted(wishes, length);
    RangesFill(wishes, length);
    var lengths := AllocationOf(wishes, length).lengths;
    assert InPlace(lengths, i, length);
    OffsetsGrow(lengths, i + 1, j);
  }

  // ---- the objects ----

  class Display {
    var width: nat
    var height: int
    var style: Style
    var rows: seq<seq<Cell>>
    var subs: seq<Sub>

    ghost function View(): Screen
      reads this
    {
      Screen(width, height, style, rows, subs)
    }

    constructor (width: nat, height: int, style: Style)
      ensures View() == Screen(width, height, style, if height == GROW || height < 0 then [] else seq(height, y => seq(width, x => Blank(style))), [])
      ensures Valid(View())
    {
      this.width, this.height, this.style := width, height, style;
      this.rows := if height == GROW || height < 0 then [] else seq(height, y => seq(width, x => Blank(style)));
      this.subs := [];
    }

    method SetRootContent(x: int, y: int, c: Cell)
      requires Valid(View())
      modifies this`rows
      ensures View() == SetCell(old(View()), x, y, c)
    {
      if x < 0 || x >= width || y < 0 || y >= height {
        return;
      }
      ghost var was := View();
      var blank := Blank(style);
      var blankRow := seq(width, x => blank);
      assert blankRow == Row(was);
      while y >= |rows|
        invariant |rows| >= |was.rows| && rows == Padded(was, |rows|)
        invariant |rows| > |was.rows| ==> |rows| <= y + 1
        decreases y - |rows|
      {
        rows := rows + [blankRow];
        assert rows == Padded(was, |rows|);
      }
      assert rows == Padded(was, y + 1);
      rows := rows[y := rows[y][x := Shown(c)]];
    }

    method Set(i: int, x: int, y: int, c: Cell)
      requires Valid(View()) && -1 <= i < |subs|
      modifies this`rows, this`subs
      ensures View() == SetContent(old(View()), i, x, y, c)
      decreases i + 1, 1, 0
    {
      if i == -1 {
        SetRootContent(x, y, c);
        return;
      }
      var sub := subs[i];
      if x < 0 || x >= sub.width || y < 0 || y >= sub.height {
        return;
      }
      Reach(i, y);
      SetThrough(old(View()), i, x, y, c);
      Set(sub.parent, sub.startX + x, sub.startY + y, Shown(c));
    }

    /** A growing canvas reaches row y. */
    method Reach(i: int, y: int)
      requires Valid(View()) && 0 <= i < |subs| && y < subs[i].height
      modifies this`rows, this`subs
      ensures View() == Reached(old(View()), i, y)
      decreases i + 1, 0, 3
    {
      var sub := subs[i];
      if sub.height == GROW && y > sub.highWater {
        subs := subs[i := sub.(highWater := y)];
        if sub.needsFill {
          FillFrom(i, sub.highWater);
        }
      }
    }

    method FillFrom(i: int, lastFilled: int)
      requires Valid(View()) && 0 <= i < |subs|
      modifies this`rows, this`subs
      ensures var sub := old(subs)[i];
              View() == Fill(old(View()), i, lastFilled + 1, 0, if sub.height == GROW then sub.highWater + 1 else sub.height)
      decreases i + 1, 0, 2
    {
      var sub := subs[i];
      FillTo(i, lastFilled + 1, if sub.height == GROW then sub.highWater + 1 else sub.height);
    }

    method FillTo(i: int, startY: int, maxY: int)
      requires Valid(View()) && 0 <= i < |subs|
      modifies this`rows, this`subs
      ensures View() == Fill(old(View()), i, startY, 0, maxY)
      decreases i + 1, 0, 1
    {
      var y := startY;
      while y < maxY
        invariant Valid(View()) && |subs| == |old(subs)|
        invariant Fill(old(View()), i, startY, 0, maxY) == Fill(View(), i, y, 0, maxY)
        decreases maxY - y
      {
        FillRow(i, y, maxY);
        y := y + 1;
      }
    }

    method FillRow(i: int, y: int, ghost maxY: int)
      requires Valid(View()) && 0 <= i < |subs| && y < maxY
      modifies this`rows, this`subs
      ensures Grown(old(View()), View())
      ensures Fill(old(View()), i, y, 0, maxY) == Fill(View(), i, y + 1, 0, maxY)
      decreases i + 1, 0, 0
    {
      var sub := subs[i];
      var x := 0;
      ghost var was := View();
      while x < sub.width
        invariant 0 <= x && Filling(was, View(), i, y, x, maxY)
        decreases sub.width - x
      {
        FillingCell(was, View(), i, y, x, maxY);
        BlankedAsBefore(was, View(), i, x, y);
        Set(sub.parent, sub.startX + x, sub.startY + y, Cell(' ', sub.style));
        x := x + 1;
      }
      FilledRow(was, View(), i, y, x, maxY);
    }

    /** The index of the new canvas; None if it cannot be made. */
    method NewSubCanvas(parent: int, startX: int, startY: int, width: int, height: int, style: Style) returns (r: Option<int>)
      requires Valid(View()) && -1 <= parent < |subs|
      modifies this`rows, this`subs
      ensures var t := Divided(old(View()), parent, startX, startY, width, height, style);
              if t.None? then r == None && View() == old(View()) else r == Some(|old(subs)|) && View() == t.value
    {
      var delHeight := if parent == -1 then this.height else subs[parent].height;
      if height == GROW && delHeight != GROW {
        return None;
      }
      var needsFill := true;
      if parent >= 0 {
        needsFill := style.rest != subs[parent].style.rest;
      }
      var n := |subs|;
      subs := subs + [Sub(parent, startX, startY, width, height, -1, style, needsFill)];
      if needsFill {
        FillFrom(n, -1);
      }
      return Some(n);
    }

    method Close(i: int) returns (w: int, h: int)
      requires Valid(View()) && 0 <= i < |subs|
      modifies this`subs
      ensures View() == Closed(old(View()), i)
      ensures w == subs[i].width && h == subs[i].height
      ensures h == if old(subs)[i].height == GROW then old(subs)[i].highWater + 1 else old(subs)[i].height
    {
      if subs[i].height == GROW {
        subs := subs[i := subs[i].(height := subs[i].highWater + 1)];
      }
      return subs[i].width, subs[i].height;
    }
  }
}
