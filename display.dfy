/** The framebuffer as the two interpreters address it. A pixel is a
    `bool` (on = 0xFFFFFFFF, off = 0x000000FF; the XOR with 0xFFFFFF00
    toggles between the two). CHIP-8 has a 64×32 texture; SUPER-CHIP keeps
    one 128×64 buffer and, outside extended mode, addresses only its first
    64·32 cells with stride 64. Cell p of the active area is column
    `p % width` of row `p / width`. */
module Display {
  import opened Decode

  /** Cells of the CHIP-8 texture (`m_Texture[64 * 32]`). */
  const ChipCells: nat := 2048

  /** Cells of the SUPER-CHIP buffer (`m_Gfx[128 * 64]`). */
  const SuperCells: nat := 8192

  /** Active width, height and cell count: 128×64 in extended mode, else 64×32. */
  function Width(ext: bool): nat { if ext then 128 else 64 }
  function Height(ext: bool): nat { if ext then 64 else 32 }
  function Area(ext: bool): nat { if ext then 8192 else 2048 }

  /** Column, row and index of a cell under the active stride. */
  function Col(p: int, ext: bool): int { p % Width(ext) }
  function Row(p: int, ext: bool): int { p / Width(ext) }
  function Cell(c: int, r: int, ext: bool): int { c + r * Width(ext) }

  /** Index and coordinates are inverse: a column and row in range name one
      cell, and it lies in the active area exactly when the row does. */
  lemma CellCoords(c: int, r: int, ext: bool)
    requires 0 <= c < Width(ext) && 0 <= r
    ensures Col(Cell(c, r, ext), ext) == c && Row(Cell(c, r, ext), ext) == r
    ensures 0 <= Cell(c, r, ext) && (Cell(c, r, ext) < Area(ext) <==> r < Height(ext))
  {
    if ext {
      assert Cell(c, r, ext) == c + r * 128;
    } else {
      assert Cell(c, r, ext) == c + r * 64;
    }
  }

  /** Every index splits into a column in range and a row. */
  lemma CellOf(p: int, ext: bool)
    requires 0 <= p
    ensures 0 <= Col(p, ext) < Width(ext) && 0 <= Row(p, ext)
    ensures Cell(Col(p, ext), Row(p, ext), ext) == p
    ensures p < Area(ext) <==> Row(p, ext) < Height(ext)
  {
    if ext {
      assert p == p % 128 + (p / 128) * 128;
    } else {
      assert p == p % 64 + (p / 64) * 64;
    }
  }

  /** The destination column `(x + 4) % width` of 00FB wraps to 0 only for
      the first column the loop moves, x = width - 4. */
  lemma WrapColumn(x: int, ext: bool)
    requires 0 <= x <= Width(ext) - 4
    ensures (x + 4) % Width(ext) == if x == Width(ext) - 4 then 0 else x + 4
  {
    if ext {} else {}
  }

  /** The index `(x % width) + (y * width)` the scroll loops compute is the
      cell of column `x % width`, row y. */
  lemma StrideIndex(c: int, r: int, width: int, ext: bool)
    requires width == Width(ext)
    ensures (c % width) + (r * width) == Cell(c % Width(ext), r, ext)
  {
  }

  /** A column index in range is its own remainder, as `x % width` in the
      scroll loops relies on. */
  lemma ColumnMod(x: int, ext: bool)
    requires 0 <= x < Width(ext)
    ensures x % Width(ext) == x
  {
    if ext {} else {}
  }

  /** A buffer of n cells, all off. */
  function Blank(n: nat): seq<bool>
  {
    seq(n, _ => false)
  }

  // ---------------------------------------------------------------- sprites

  /** Cell (dx, dy) of a sprite is set. An 8-wide sprite has one byte per
      row; a 16×16 sprite has 16 rows of two bytes, left half first. Bits
      are read most significant first. */
  predicate SpriteBit(rows: seq<Byte>, wide: bool, dx: int, dy: int)
  {
    if wide then
      0 <= dy < 16 && 2 * dy + 1 < |rows| && 0 <= dx < 16 &&
      (if dx < 8 then BitSet(rows[2 * dy], dx) else BitSet(rows[2 * dy + 1], dx - 8))
    else
      0 <= dy < |rows| && 0 <= dx < 8 && BitSet(rows[dy], dx)
  }

  /** Where a draw at (x0, y0) puts its sprite. CHIP-8 indexes its texture
      with `xInit + x + (yInit + y) * 64` and no wrap; SUPER-CHIP takes the
      column `(xInit + x) % width` of row `(yInit + y) % height` of the
      active area. */
  datatype Placement = Plain(x0: int, y0: int) | Wrapped(x0: int, y0: int, ext: bool)

  /** The index sprite cell (dx, dy) lands on. */
  function At(pl: Placement, dx: int, dy: int): int
  {
    match pl
    case Plain(x0, y0) => x0 + dx + (y0 + dy) * 64
    case Wrapped(x0, y0, ext) => Cell((x0 + dx) % Width(ext), (y0 + dy) % Height(ext), ext)
  }

  /** The sprite cell that would land on index p. */
  function Dx(pl: Placement, p: int): int
  {
    match pl
    case Plain(x0, y0) => (p - x0 - 64 * y0) % 64
    case Wrapped(x0, _, ext) => (Col(p, ext) - x0) % Width(ext)
  }

  function Dy(pl: Placement, p: int): int
  {
    match pl
    case Plain(x0, y0) => (p - x0 - 64 * y0) / 64
    case Wrapped(_, y0, ext) => (Row(p, ext) - y0) % Height(ext)
  }

  /** The indices a placement can reach: any for CHIP-8, the active area for
      SUPER-CHIP. */
  predicate InFrame(pl: Placement, p: int)
  {
    match pl
    case Plain(_, _) => true
    case Wrapped(_, _, ext) => 0 <= p < Area(ext)
  }

  /** Index p is covered by a set sprite bit. */
  predicate Hit(pl: Placement, rows: seq<Byte>, wide: bool, p: int)
  {
    InFrame(pl, p) && SpriteBit(rows, wide, Dx(pl, p), Dy(pl, p))
  }

  /** Wrapping an offset forward and then back from the same origin
      recovers it, for the three strides in use. */
  lemma ModBack(a: int, d: int, m: int)
    requires m == 32 || m == 64 || m == 128
    requires 0 <= d < m
    ensures ((a + d) % m - a) % m == d
  {
    if m == 32 {} else if m == 64 {} else {}
  }

  lemma ModForward(a: int, c: int, m: int)
    requires m == 32 || m == 64 || m == 128
    requires 0 <= c < m
    ensures (a + (c - a) % m) % m == c
  {
    if m == 32 {} else if m == 64 {} else {}
  }

  /** A CHIP-8 sprite cell's index leads back to it. */
  lemma PlainCoords(x0: int, y0: int, dx: int, dy: int)
    requires 0 <= dx < 16 && 0 <= dy < 16
    ensures var pl := Plain(x0, y0); Dx(pl, At(pl, dx, dy)) == dx && Dy(pl, At(pl, dx, dy)) == dy
  {
    assert At(Plain(x0, y0), dx, dy) - x0 - 64 * y0 == dx + 64 * dy;
  }

  /** A SUPER-CHIP sprite cell lands in the active area, and its index
      leads back to it. */
  lemma WrappedCoords(x0: int, y0: int, ext: bool, dx: int, dy: int)
    requires 0 <= dx < 16 && 0 <= dy < 16
    ensures var pl := Wrapped(x0, y0, ext);
      0 <= At(pl, dx, dy) < Area(ext) && Dx(pl, At(pl, dx, dy)) == dx && Dy(pl, At(pl, dx, dy)) == dy
  {
    CellCoords((x0 + dx) % Width(ext), (y0 + dy) % Height(ext), ext);
    ModBack(x0, dx, Width(ext));
    ModBack(y0, dy, Height(ext));
  }

  /** A sprite cell lands in the frame, and the index it lands on leads
      back to it. */
  lemma AtCoords(pl: Placement, dx: int, dy: int)
    requires 0 <= dx < 16 && 0 <= dy < 16
    ensures InFrame(pl, At(pl, dx, dy))
    ensures Dx(pl, At(pl, dx, dy)) == dx && Dy(pl, At(pl, dx, dy)) == dy
  {
    match pl
    case Plain(x0, y0) => PlainCoords(x0, y0, dx, dy);
    case Wrapped(x0, y0, ext) => WrappedCoords(x0, y0, ext, dx, dy);
  }

  /** Every index of the frame is where its own sprite cell lands. */
  lemma AtUnique(pl: Placement, p: int)
    requires InFrame(pl, p)
    ensures At(pl, Dx(pl, p), Dy(pl, p)) == p
  {
    match pl
    case Plain(x0, y0) =>
      var d := p - x0 - 64 * y0;
      assert d == d % 64 + 64 * (d / 64);
    case Wrapped(x0, y0, ext) =>
      CellOf(p, ext);
      ModForward(x0, Col(p, ext), Width(ext));
      ModForward(y0, Row(p, ext), Height(ext));
  }

  /** The pixels a sprite covers, as a predicate on indices. */
  function Sprite(pl: Placement, rows: seq<Byte>, wide: bool): int -> bool
  {
    p => Hit(pl, rows, wide, p)
  }

  /** XOR drawing: every covered pixel flips, every other pixel stays. */
  function Toggle(fb: seq<bool>, hit: int -> bool): seq<bool>
  {
    seq(|fb|, p requires 0 <= p < |fb| => fb[p] != hit(p))
  }

  /** Collision: some covered pixel was on before the draw. */
  predicate Collision(fb: seq<bool>, hit: int -> bool)
  {
    exists p :: 0 <= p < |fb| && hit(p) && fb[p]
  }

  /** Drawing the same pixels twice restores the buffer, and the second
      draw collides exactly when some covered pixel was off before the
      first. */
  lemma ToggleTwice(fb: seq<bool>, hit: int -> bool)
    ensures Toggle(Toggle(fb, hit), hit) == fb
    ensures Collision(Toggle(fb, hit), hit) <==> exists p :: 0 <= p < |fb| && hit(p) && !fb[p]
  {
    var once := Toggle(fb, hit);
    if Collision(once, hit) {
      var p :| 0 <= p < |once| && hit(p) && once[p];
      assert !fb[p];
    }
    if exists p :: 0 <= p < |fb| && hit(p) && !fb[p] {
      var p :| 0 <= p < |fb| && hit(p) && !fb[p];
      assert once[p];
    }
  }

  /** A draw flips the pixel that sprite cell (dx, dy) lands on exactly
      when that sprite bit is set ... */
  lemma DrawFlips(fb: seq<bool>, pl: Placement, rows: seq<Byte>, wide: bool, dx: int, dy: int)
    requires 0 <= dx < 16 && 0 <= dy < 16
    requires 0 <= At(pl, dx, dy) < |fb|
    ensures var p := At(pl, dx, dy);
      Toggle(fb, Sprite(pl, rows, wide))[p] == (fb[p] != SpriteBit(rows, wide, dx, dy))
  {
    AtCoords(pl, dx, dy);
  }

  /** ... and every pixel it flips is where a set sprite bit lands. */
  lemma DrawOnlySprite(fb: seq<bool>, pl: Placement, rows: seq<Byte>, wide: bool, q: int)
    requires wide || |rows| <= 16
    requires 0 <= q < |fb|
    ensures Toggle(fb, Sprite(pl, rows, wide))[q] != fb[q] ==>
      exists dx, dy :: 0 <= dx < 16 && 0 <= dy < 16 && SpriteBit(rows, wide, dx, dy) && At(pl, dx, dy) == q
  {
    if Hit(pl, rows, wide, q) {
      var dx, dy := Dx(pl, q), Dy(pl, q);
      AtUnique(pl, q);
      assert 0 <= dx < 16 && 0 <= dy < 16 && SpriteBit(rows, wide, dx, dy) && At(pl, dx, dy) == q;
    }
  }

  /** A draw collides exactly when some set sprite bit lands on a pixel of
      the buffer that is lit. */
  lemma CollisionAt(fb: seq<bool>, pl: Placement, rows: seq<Byte>, wide: bool)
    requires wide || |rows| <= 16
    ensures Collision(fb, Sprite(pl, rows, wide)) <==>
      exists dx, dy :: 0 <= dx < 16 && 0 <= dy < 16 && SpriteBit(rows, wide, dx, dy) &&
        0 <= At(pl, dx, dy) < |fb| && fb[At(pl, dx, dy)]
  {
    if Collision(fb, Sprite(pl, rows, wide)) {
      var p :| 0 <= p < |fb| && Hit(pl, rows, wide, p) && fb[p];
      var dx, dy := Dx(pl, p), Dy(pl, p);
      AtUnique(pl, p);
      assert 0 <= dx < 16 && 0 <= dy < 16 && SpriteBit(rows, wide, dx, dy) &&
        0 <= At(pl, dx, dy) < |fb| && fb[At(pl, dx, dy)];
    }
    if exists dx, dy :: 0 <= dx < 16 && 0 <= dy < 16 && SpriteBit(rows, wide, dx, dy) &&
         0 <= At(pl, dx, dy) < |fb| && fb[At(pl, dx, dy)] {
      var dx, dy :| 0 <= dx < 16 && 0 <= dy < 16 && SpriteBit(rows, wide, dx, dy) &&
        0 <= At(pl, dx, dy) < |fb| && fb[At(pl, dx, dy)];
      AtCoords(pl, dx, dy);
      assert Sprite(pl, rows, wide)(At(pl, dx, dy));
    }
  }

  // -------------------------------------------------------------- scrolling

  /** 00CN: within the active area, row r >= n holds the old row r - n and
      rows 0..n-1 are off; with n = 0 every active row is copied onto itself
      and then blanked, so the active area is cleared. Cells outside the
      active area keep their value. */
  function ScrollDown(fb: seq<bool>, n: nat, ext: bool): seq<bool>
    requires |fb| >= Area(ext)
  {
    seq(|fb|, p requires 0 <= p < |fb| =>
      if p < Area(ext) then
        CellOf(p, ext);
        n > 0 && Row(p, ext) >= n && (CellCoords(Col(p, ext), Row(p, ext) - n, ext); fb[Cell(Col(p, ext), Row(p, ext) - n, ext)])
      else fb[p])
  }

  /** 00FC: within the active area, column c < width - 4 holds the old
      column c + 4 and the last four columns are off. */
  function ScrollLeft(fb: seq<bool>, ext: bool): seq<bool>
    requires |fb| >= Area(ext)
  {
    seq(|fb|, p requires 0 <= p < |fb| =>
      if p < Area(ext) then
        CellOf(p, ext);
        Col(p, ext) < Width(ext) - 4 && (CellCoords(Col(p, ext) + 4, Row(p, ext), ext); fb[Cell(Col(p, ext) + 4, Row(p, ext), ext)])
      else fb[p])
  }

  /** 00FB as the source's loop leaves the active area: columns 0..3 are
      off, column c >= 5 holds the old column c - 4, and column 4 holds the
      old column width - 4, which the first iteration wrote into column 0
      (`(x + 4) % width` with x = width - 4) before column 0 was read. The
      old column 0 is lost. */
  function ScrollRight(fb: seq<bool>, ext: bool): seq<bool>
    requires |fb| >= Area(ext)
  {
    seq(|fb|, p requires 0 <= p < |fb| =>
      if p < Area(ext) then
        CellOf(p, ext);
        var c, r := Col(p, ext), Row(p, ext);
        if c < 4 then false
        else if c == 4 then (CellCoords(Width(ext) - 4, r, ext); fb[Cell(Width(ext) - 4, r, ext)])
        else (CellCoords(c - 4, r, ext); fb[Cell(c - 4, r, ext)])
      else fb[p])
  }

  /** Two scrolls down by a and b lines (a, b > 0) are one scroll by a + b:
      the lines vacated by either are off and every other line moves by the
      sum. */
  lemma ScrollDownTwice(fb: seq<bool>, a: nat, b: nat, ext: bool)
    requires |fb| >= Area(ext) && a > 0 && b > 0
    ensures ScrollDown(ScrollDown(fb, a, ext), b, ext) == ScrollDown(fb, a + b, ext)
  {
    var mid := ScrollDown(fb, a, ext);
    forall p | 0 <= p < |fb|
      ensures ScrollDown(mid, b, ext)[p] == ScrollDown(fb, a + b, ext)[p]
    {
      if p < Area(ext) {
        CellOf(p, ext);
        var c, r := Col(p, ext), Row(p, ext);
        if r >= b {
          CellCoords(c, r - b, ext);
          if r - b >= a {
            CellCoords(c, r - b - a, ext);
          }
        }
      }
    }
  }

  /** 00FC after 00FB: columns 1 .. width - 5 are restored and the last four
      are off, but column 0 receives the old column width - 4, which 00FB
      moved into column 4 instead of the old column 0. */
  lemma ScrollLeftAfterRight(fb: seq<bool>, ext: bool, c: int, r: int)
    requires |fb| >= Area(ext)
    requires 0 <= c < Width(ext) && 0 <= r < Height(ext)
    ensures (CellCoords(c, r, ext); CellCoords(Width(ext) - 4, r, ext);
      var back := ScrollLeft(ScrollRight(fb, ext), ext);
      back[Cell(c, r, ext)] ==
        if c == 0 then fb[Cell(Width(ext) - 4, r, ext)]
        else if c < Width(ext) - 4 then fb[Cell(c, r, ext)]
        else false)
  {
    CellCoords(c, r, ext);
    CellCoords(Width(ext) - 4, r, ext);
    if c < Width(ext) - 4 {
      CellCoords(c + 4, r, ext);
    }
  }

  /** 00FB does not read the old column 0 of the active area: two buffers
      that differ only there scroll right to the same buffer. A lone lit
      pixel in column 0 therefore disappears instead of moving to column 4. */
  lemma ScrollRightDropsColumnZero(fb: seq<bool>, fb': seq<bool>, ext: bool)
    requires |fb| == |fb'| >= Area(ext)
    requires forall p :: 0 <= p < |fb| && (p >= Area(ext) || Col(p, ext) != 0) ==> fb[p] == fb'[p]
    ensures ScrollRight(fb, ext) == ScrollRight(fb', ext)
  {
    forall p | 0 <= p < |fb|
      ensures ScrollRight(fb, ext)[p] == ScrollRight(fb', ext)[p]
    {
      if p < Area(ext) {
        CellOf(p, ext);
        var c, r := Col(p, ext), Row(p, ext);
        if c == 4 {
          CellCoords(Width(ext) - 4, r, ext);
        } else if c > 4 {
          CellCoords(c - 4, r, ext);
        }
      }
    }
  }

  /** The lone lit pixel at the top-left corner, scrolled right, is gone. */
  lemma ScrollRightLosesCorner(ext: bool)
    ensures var fb := Blank(SuperCells)[0 := true];
      forall p :: 0 <= p < SuperCells ==> !ScrollRight(fb, ext)[p]
  {
    var fb := Blank(SuperCells)[0 := true];
    var blank := Blank(SuperCells);
    forall p | 0 <= p < SuperCells && (p >= Area(ext) || Col(p, ext) != 0)
      ensures fb[p] == blank[p]
    {
    }
    ScrollRightDropsColumnZero(fb, blank, ext);
    forall p | 0 <= p < SuperCells
      ensures !ScrollRight(blank, ext)[p]
    {
      if p < Area(ext) {
        CellOf(p, ext);
        var c, r := Col(p, ext), Row(p, ext);
        if c == 4 {
          CellCoords(Width(ext) - 4, r, ext);
        } else if c > 4 {
          CellCoords(c - 4, r, ext);
        }
      }
    }
  }
}
