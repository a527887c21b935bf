/** The framebuffer part-way through the pixel loops of `Loop()`: the
    sprite blits of DXYN and the copy-and-clear loops of 00CN, 00FB and
    00FC. Each loop state is a function of the buffer before the loop and
    of the loop counters; one lemma per loop states what one iteration does
    to it, and two more tie its first and last state to the operation of
    `Display`. */
module Raster {
  import opened Decode
  import opened Display

  // ------------------------------------------------------------------ blits

  /** Sprite cell (dx, dy) comes before (x, y) in the row-major order of the
      blit loops. */
  predicate Before(dx: int, dy: int, x: int, y: int)
  {
    dy < y || (dy == y && dx < x)
  }

  /** Index p is covered by a set sprite bit that the blit has handled
      before reaching cell (x, y). */
  predicate HitBefore(pl: Placement, rows: seq<Byte>, wide: bool, p: int, x: int, y: int)
  {
    Hit(pl, rows, wide, p) && Before(Dx(pl, p), Dy(pl, p), x, y)
  }

  /** The buffer when the blit reaches cell (x, y). */
  function Drawn(fb: seq<bool>, pl: Placement, rows: seq<Byte>, wide: bool, x: int, y: int): seq<bool>
  {
    seq(|fb|, p requires 0 <= p < |fb| => fb[p] != HitBefore(pl, rows, wide, p, x, y))
  }

  /** VF when the blit reaches cell (x, y): a handled set bit met a lit pixel. */
  predicate Collided(fb: seq<bool>, pl: Placement, rows: seq<Byte>, wide: bool, x: int, y: int)
  {
    exists p :: 0 <= p < |fb| && HitBefore(pl, rows, wide, p, x, y) && fb[p]
  }

  lemma HitBeforeStep(pl: Placement, rows: seq<Byte>, wide: bool, p: int, x: int, y: int)
    requires 0 <= x < 16 && 0 <= y < 16
    ensures HitBefore(pl, rows, wide, p, x + 1, y) <==>
      HitBefore(pl, rows, wide, p, x, y) || (SpriteBit(rows, wide, x, y) && p == At(pl, x, y))
  {
    AtCoords(pl, x, y);
    if Hit(pl, rows, wide, p) {
      AtUnique(pl, p);
    }
  }

  /** One iteration of the inner blit loop at cell (x, y): a set bit flips
      the pixel it lands on, which still holds its value from before the
      blit, and VF records whether that pixel was lit. */
  lemma DrawnStep(fb: seq<bool>, pl: Placement, rows: seq<Byte>, wide: bool, x: int, y: int)
    requires 0 <= x < 16 && 0 <= y < 16
    requires SpriteBit(rows, wide, x, y) ==> 0 <= At(pl, x, y) < |fb|
    ensures !SpriteBit(rows, wide, x, y) ==>
      Drawn(fb, pl, rows, wide, x + 1, y) == Drawn(fb, pl, rows, wide, x, y) &&
      (Collided(fb, pl, rows, wide, x + 1, y) <==> Collided(fb, pl, rows, wide, x, y))
    ensures SpriteBit(rows, wide, x, y) ==>
      var c := At(pl, x, y);
      Drawn(fb, pl, rows, wide, x, y)[c] == fb[c] &&
      Drawn(fb, pl, rows, wide, x + 1, y) == Drawn(fb, pl, rows, wide, x, y)[c := !fb[c]] &&
      (Collided(fb, pl, rows, wide, x + 1, y) <==> Collided(fb, pl, rows, wide, x, y) || fb[c])
  {
    forall p | 0 <= p < |fb|
      ensures HitBefore(pl, rows, wide, p, x + 1, y) <==>
        HitBefore(pl, rows, wide, p, x, y) || (SpriteBit(rows, wide, x, y) && p == At(pl, x, y))
    {
      HitBeforeStep(pl, rows, wide, p, x, y);
    }
    var c := At(pl, x, y);
    if SpriteBit(rows, wide, x, y) {
      HitBeforeStep(pl, rows, wide, c, x, y);
      AtCoords(pl, x, y);
      assert !HitBefore(pl, rows, wide, c, x, y);
      if fb[c] {
        assert HitBefore(pl, rows, wide, c, x + 1, y);
      }
    }
  }

  /** The end of a sprite row is the start of the next one. */
  lemma DrawnNextRow(fb: seq<bool>, pl: Placement, rows: seq<Byte>, wide: bool, y: int)
    ensures var w := if wide then 16 else 8;
      Drawn(fb, pl, rows, wide, w, y) == Drawn(fb, pl, rows, wide, 0, y + 1) &&
      (Collided(fb, pl, rows, wide, w, y) <==> Collided(fb, pl, rows, wide, 0, y + 1))
  {
    var w := if wide then 16 else 8;
    forall p | 0 <= p < |fb|
      ensures HitBefore(pl, rows, wide, p, w, y) == HitBefore(pl, rows, wide, p, 0, y + 1)
    {
    }
  }

  /** Before the first row nothing is drawn and VF is clear. */
  lemma DrawnStart(fb: seq<bool>, pl: Placement, rows: seq<Byte>, wide: bool)
    ensures Drawn(fb, pl, rows, wide, 0, 0) == fb && !Collided(fb, pl, rows, wide, 0, 0)
  {
    assert forall p :: 0 <= p < |fb| ==> !HitBefore(pl, rows, wide, p, 0, 0);
  }

  /** After the last row every set bit is drawn, and VF is the collision
      of the whole sprite. */
  lemma DrawnEnd(fb: seq<bool>, pl: Placement, rows: seq<Byte>, wide: bool)
    ensures var h := if wide then 16 else |rows|;
      Drawn(fb, pl, rows, wide, 0, h) == Toggle(fb, Sprite(pl, rows, wide)) &&
      (Collided(fb, pl, rows, wide, 0, h) <==> Collision(fb, Sprite(pl, rows, wide)))
  {
    var h := if wide then 16 else |rows|;
    forall p | 0 <= p < |fb|
      ensures HitBefore(pl, rows, wide, p, 0, h) == Hit(pl, rows, wide, p)
    {
    }
    if Collision(fb, Sprite(pl, rows, wide)) {
      var p :| 0 <= p < |fb| && Sprite(pl, rows, wide)(p) && fb[p];
      assert HitBefore(pl, rows, wide, p, 0, h);
    }
  }

  // ------------------------------------------------------------ scroll down

  /** Cell p while 00CN walks the rows from the bottom up, once every row
      below y has been handled: a handled row r + n received the old row r,
      and a handled row was blanked unless a later row moved into it. */
  function DownCell(fb: seq<bool>, n: nat, ext: bool, y: int, p: int): bool
    requires |fb| >= Area(ext) && 0 <= p < |fb|
  {
    if p < Area(ext) then
      CellOf(p, ext);
      var c, r := Col(p, ext), Row(p, ext);
      if n > 0 && r - n > y && r >= n then (CellCoords(c, r - n, ext); fb[Cell(c, r - n, ext)])
      else if r > y && r + n < Height(ext) then false
      else fb[p]
    else fb[p]
  }

  /** The buffer when 00CN reaches column x of row y. */
  function DownPartial(fb: seq<bool>, n: nat, ext: bool, y: int, x: int): seq<bool>
    requires |fb| >= Area(ext)
  {
    seq(|fb|, p requires 0 <= p < |fb| => DownCell(fb, n, ext, if Col(p, ext) < x then y - 1 else y, p))
  }

  /** One iteration of the 00CN inner loop at one index: the cell of row
      y + n takes the cell of row y, which is then blanked. */
  lemma DownStepAt(fb: seq<bool>, n: nat, ext: bool, y: int, x: int, p: int)
    requires |fb| >= Area(ext) && 0 <= p < |fb|
    requires 0 <= x < Width(ext) && 0 <= y && y + n < Height(ext)
    ensures (CellCoords(x, y + n, ext); CellCoords(x, y, ext);
      var a, b, cur := Cell(x, y + n, ext), Cell(x, y, ext), DownPartial(fb, n, ext, y, x);
      DownPartial(fb, n, ext, y, x + 1)[p] == if p == b then false else if p == a then cur[b] else cur[p])
  {
    CellCoords(x, y + n, ext);
    CellCoords(x, y, ext);
    if p < Area(ext) {
      CellOf(p, ext);
      if p != Cell(x, y + n, ext) && p != Cell(x, y, ext) {
        assert Col(p, ext) != x || (Row(p, ext) != y && Row(p, ext) != y + n);
      }
    }
  }

  /** One iteration of the 00CN inner loop: the cell of row y moves to row
      y + n and is then blanked. */
  lemma DownStep(fb: seq<bool>, n: nat, ext: bool, y: int, x: int)
    requires |fb| >= Area(ext)
    requires 0 <= x < Width(ext) && 0 <= y && y + n < Height(ext)
    ensures (CellCoords(x, y + n, ext); CellCoords(x, y, ext);
      var cur := DownPartial(fb, n, ext, y, x);
      DownPartial(fb, n, ext, y, x + 1) == cur[Cell(x, y + n, ext) := cur[Cell(x, y, ext)]][Cell(x, y, ext) := false])
  {
    CellCoords(x, y + n, ext);
    CellCoords(x, y, ext);
    var cur := DownPartial(fb, n, ext, y, x);
    var next := cur[Cell(x, y + n, ext) := cur[Cell(x, y, ext)]][Cell(x, y, ext) := false];
    forall p | 0 <= p < |fb|
      ensures DownPartial(fb, n, ext, y, x + 1)[p] == next[p]
    {
      DownStepAt(fb, n, ext, y, x, p);
    }
  }

  /** A row that has no row n below it is left alone, so skipping it
      changes nothing; a finished row is the start of the row above. */
  lemma DownNextRow(fb: seq<bool>, n: nat, ext: bool, y: int)
    requires |fb| >= Area(ext)
    ensures DownPartial(fb, n, ext, y, Width(ext)) == DownPartial(fb, n, ext, y - 1, 0)
    ensures y + n >= Height(ext) ==> DownPartial(fb, n, ext, y, 0) == DownPartial(fb, n, ext, y - 1, 0)
  {
    forall p | 0 <= p < |fb|
      ensures DownPartial(fb, n, ext, y, Width(ext))[p] == DownPartial(fb, n, ext, y - 1, 0)[p]
    {
      CellOf(p, ext);
    }
    if y + n >= Height(ext) {
      forall p | 0 <= p < |fb|
        ensures DownPartial(fb, n, ext, y, 0)[p] == DownPartial(fb, n, ext, y - 1, 0)[p]
      {
        CellOf(p, ext);
      }
    }
  }

  /** Before the bottom row nothing has moved; after row 0 the buffer is
      the scroll of `Display`, since n <= 15 leaves every vacated row inside
      the loop's range. */
  lemma DownEnds(fb: seq<bool>, n: nat, ext: bool)
    requires |fb| >= Area(ext) && n < 16
    ensures DownPartial(fb, n, ext, Height(ext), 0) == fb
    ensures DownPartial(fb, n, ext, -1, 0) == ScrollDown(fb, n, ext)
  {
    forall p | 0 <= p < |fb|
      ensures DownPartial(fb, n, ext, Height(ext), 0)[p] == fb[p]
      ensures DownPartial(fb, n, ext, -1, 0)[p] == ScrollDown(fb, n, ext)[p]
    {
      CellOf(p, ext);
    }
  }

  // ----------------------------------------------------------- scroll right

  /** Cell p while 00FB walks the columns from width - 4 down to 0, once
      every column right of x has been handled. Handling column x moves it
      to column (x + 4) % width and blanks it; the first handled column,
      width - 4, lands in column 0, which column 4 later receives. */
  function RightCell(fb: seq<bool>, ext: bool, x: int, p: int): bool
    requires |fb| >= Area(ext) && 0 <= p < |fb|
  {
    if p < Area(ext) then
      CellOf(p, ext);
      var c, r, w := Col(p, ext), Row(p, ext), Width(ext);
      CellCoords(w - 4, r, ext);
      if c == 0 then
        if x < 0 then false else if x < w - 4 then fb[Cell(w - 4, r, ext)] else fb[p]
      else if c < 4 then
        if c > x then false else fb[p]
      else if c - 4 > x then
        if c == 4 then fb[Cell(w - 4, r, ext)] else (CellCoords(c - 4, r, ext); fb[Cell(c - 4, r, ext)])
      else if x < c <= w - 4 then false
      else fb[p]
    else fb[p]
  }

  /** The buffer when 00FB reaches row y of column x. */
  function RightPartial(fb: seq<bool>, ext: bool, x: int, y: int): seq<bool>
    requires |fb| >= Area(ext)
  {
    seq(|fb|, p requires 0 <= p < |fb| => RightCell(fb, ext, if Row(p, ext) < y then x - 1 else x, p))
  }

  /** One iteration of the 00FB inner loop at one index: the cell of
      column (x + 4) % width takes the cell of column x, which is then
      blanked. */
  lemma RightStepAt(fb: seq<bool>, ext: bool, x: int, y: int, p: int)
    requires |fb| >= Area(ext) && 0 <= p < |fb|
    requires 0 <= x <= Width(ext) - 4 && 0 <= y < Height(ext)
    ensures (CellCoords((x + 4) % Width(ext), y, ext); CellCoords(x, y, ext);
      var a, b, cur := Cell((x + 4) % Width(ext), y, ext), Cell(x, y, ext), RightPartial(fb, ext, x, y);
      RightPartial(fb, ext, x, y + 1)[p] == if p == b then false else if p == a then cur[b] else cur[p])
  {
    var w := Width(ext);
    CellCoords((x + 4) % w, y, ext);
    CellCoords(x, y, ext);
    assert (x + 4) % w == if x == w - 4 then 0 else x + 4;
    if p < Area(ext) {
      CellOf(p, ext);
      if p != Cell((x + 4) % w, y, ext) && p != Cell(x, y, ext) {
        assert Row(p, ext) != y || (Col(p, ext) != x && Col(p, ext) != (x + 4) % w);
      }
    }
  }

  /** One iteration of the 00FB inner loop: the cell of column x moves to
      column (x + 4) % width and is then blanked. */
  lemma RightStep(fb: seq<bool>, ext: bool, x: int, y: int)
    requires |fb| >= Area(ext)
    requires 0 <= x <= Width(ext) - 4 && 0 <= y < Height(ext)
    ensures (CellCoords((x + 4) % Width(ext), y, ext); CellCoords(x, y, ext);
      var cur := RightPartial(fb, ext, x, y);
      RightPartial(fb, ext, x, y + 1) ==
        cur[Cell((x + 4) % Width(ext), y, ext) := cur[Cell(x, y, ext)]][Cell(x, y, ext) := false])
  {
    CellCoords((x + 4) % Width(ext), y, ext);
    CellCoords(x, y, ext);
    var cur := RightPartial(fb, ext, x, y);
    var next := cur[Cell((x + 4) % Width(ext), y, ext) := cur[Cell(x, y, ext)]][Cell(x, y, ext) := false];
    forall p | 0 <= p < |fb|
      ensures RightPartial(fb, ext, x, y + 1)[p] == next[p]
    {
      RightStepAt(fb, ext, x, y, p);
    }
  }

  lemma RightNextColumn(fb: seq<bool>, ext: bool, x: int)
    requires |fb| >= Area(ext)
    ensures RightPartial(fb, ext, x, Height(ext)) == RightPartial(fb, ext, x - 1, 0)
  {
    forall p | 0 <= p < |fb|
      ensures RightPartial(fb, ext, x, Height(ext))[p] == RightPartial(fb, ext, x - 1, 0)[p]
    {
      CellOf(p, ext);
    }
  }

  lemma RightEnds(fb: seq<bool>, ext: bool)
    requires |fb| >= Area(ext)
    ensures RightPartial(fb, ext, Width(ext) - 4, 0) == fb
    ensures RightPartial(fb, ext, -1, 0) == ScrollRight(fb, ext)
  {
    forall p | 0 <= p < |fb|
      ensures RightPartial(fb, ext, Width(ext) - 4, 0)[p] == fb[p]
      ensures RightPartial(fb, ext, -1, 0)[p] == ScrollRight(fb, ext)[p]
    {
      CellOf(p, ext);
    }
  }

  // ------------------------------------------------------------ scroll left

  /** Cell p while 00FC walks the columns from 4 up, once every column left
      of x has been handled: column c received the old column c + 4 once
      that was handled, and a handled column was blanked. */
  function LeftCell(fb: seq<bool>, ext: bool, x: int, p: int): bool
    requires |fb| >= Area(ext) && 0 <= p < |fb|
  {
    if p < Area(ext) then
      CellOf(p, ext);
      var c, r := Col(p, ext), Row(p, ext);
      if c + 4 < x && c + 4 < Width(ext) then (CellCoords(c + 4, r, ext); fb[Cell(c + 4, r, ext)])
      else if 4 <= c < x then false
      else fb[p]
    else fb[p]
  }

  /** The buffer when 00FC reaches row y of column x. */
  function LeftPartial(fb: seq<bool>, ext: bool, x: int, y: int): seq<bool>
    requires |fb| >= Area(ext)
  {
    seq(|fb|, p requires 0 <= p < |fb| => LeftCell(fb, ext, if Row(p, ext) < y then x + 1 else x, p))
  }

  /** One iteration of the 00FC inner loop at one index: the cell of
      column x - 4 takes the cell of column x, which is then blanked. */
  lemma LeftStepAt(fb: seq<bool>, ext: bool, x: int, y: int, p: int)
    requires |fb| >= Area(ext) && 0 <= p < |fb|
    requires 4 <= x < Width(ext) && 0 <= y < Height(ext)
    ensures (CellCoords(x - 4, y, ext); CellCoords(x, y, ext);
      var a, b, cur := Cell(x - 4, y, ext), Cell(x, y, ext), LeftPartial(fb, ext, x, y);
      LeftPartial(fb, ext, x, y + 1)[p] == if p == b then false else if p == a then cur[b] else cur[p])
  {
    CellCoords(x - 4, y, ext);
    CellCoords(x, y, ext);
    if p < Area(ext) {
      CellOf(p, ext);
      if p != Cell(x - 4, y, ext) && p != Cell(x, y, ext) {
        assert Row(p, ext) != y || (Col(p, ext) != x && Col(p, ext) != x - 4);
      }
    }
  }

  /** One iteration of the 00FC inner loop: the cell of column x moves to
      column (x - 4) % width, which is x - 4, and is then blanked. */
  lemma LeftStep(fb: seq<bool>, ext: bool, x: int, y: int)
    requires |fb| >= Area(ext)
    requires 4 <= x < Width(ext) && 0 <= y < Height(ext)
    ensures (ColumnMod(x - 4, ext); CellCoords(x - 4, y, ext); CellCoords(x, y, ext);
      var cur := LeftPartial(fb, ext, x, y);
      LeftPartial(fb, ext, x, y + 1) ==
        cur[Cell((x - 4) % Width(ext), y, ext) := cur[Cell(x, y, ext)]][Cell(x, y, ext) := false])
  {
    ColumnMod(x - 4, ext);
    CellCoords(x - 4, y, ext);
    CellCoords(x, y, ext);
    var cur := LeftPartial(fb, ext, x, y);
    var next := cur[Cell(x - 4, y, ext) := cur[Cell(x, y, ext)]][Cell(x, y, ext) := false];
    forall p | 0 <= p < |fb|
      ensures LeftPartial(fb, ext, x, y + 1)[p] == next[p]
    {
      LeftStepAt(fb, ext, x, y, p);
    }
  }

  lemma LeftNextColumn(fb: seq<bool>, ext: bool, x: int)
    requires |fb| >= Area(ext)
    ensures LeftPartial(fb, ext, x, Height(ext)) == LeftPartial(fb, ext, x + 1, 0)
  {
    forall p | 0 <= p < |fb|
      ensures LeftPartial(fb, ext, x, Height(ext))[p] == LeftPartial(fb, ext, x + 1, 0)[p]
    {
      CellOf(p, ext);
    }
  }

  lemma LeftEnds(fb: seq<bool>, ext: bool)
    requires |fb| >= Area(ext)
    ensures LeftPartial(fb, ext, 4, 0) == fb
    ensures LeftPartial(fb, ext, Width(ext), 0) == ScrollLeft(fb, ext)
  {
    forall p | 0 <= p < |fb|
      ensures LeftPartial(fb, ext, 4, 0)[p] == fb[p]
      ensures LeftPartial(fb, ext, Width(ext), 0)[p] == ScrollLeft(fb, ext)[p]
    {
      CellOf(p, ext);
    }
  }
}
