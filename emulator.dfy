/** The interpreter object of `Chip8.cpp` / `SuperChip.cpp`: memory,
    registers, framebuffer, stack and RPL flags are arrays updated in place,
    and each method performs the source's writes in the source's order.
    `Abs()` reads the object as a `Machine.State`, and every method is
    proved to leave the state the matching function of `Machine` computes,
    so the lemmas about those functions hold of the object. */
module Emulator {
  import opened Decode
  import opened Alu
  import opened Keys
  import opened Display
  import opened Raster
  import opened Machine

  /** `memcpy(dst + at, src, |src|)`, and the `file.read` of `LoadRom`. */
  method Copy(dst: array<Byte>, at: nat, src: seq<Byte>)
    requires at + |src| <= dst.Length
    modifies dst
    ensures dst[..] == Overlay(old(dst[..]), at, src)
  {
    for j := 0 to |src|
      invariant forall k :: 0 <= k < dst.Length ==>
        dst[k] == if at <= k < at + j then src[k - at] else old(dst[k])
    {
      dst[at + j] := src[j];
    }
    assert dst[..] == Overlay(old(dst[..]), at, src);
  }

  class Interpreter {
    /** Which of the two interpreters this object is. */
    const kind: Kind
    const mem: array<Byte>
    const reg: array<Byte>
    /** `m_Texture` (CHIP-8, 64×32) or `m_Gfx` (SUPER-CHIP, 128×64). */
    const fb: array<bool>
    const stack: array<U16>
    const rpl: array<Byte>
    var i: U16
    var pc: U16
    var delay: Byte
    var sound: Byte
    /** Written by the host: bit k is set while key k is held. */
    var key: bv16
    var sp: nat
    var redraw: bool
    var extended: bool
    /** Set where the source calls the exit callback (00FD). */
    var halted: bool

    ghost predicate Valid()
      reads this
    {
      mem.Length == MemorySize && reg.Length == 16 && fb.Length == Cells(kind) &&
      stack.Length == StackSize && rpl.Length == RplSize && sp <= StackSize &&
      (kind == Chip8 ==> !extended) &&
      mem != reg && mem != rpl && reg != rpl
    }

    /** The object as a value. */
    ghost function Abs(): (s: State)
      reads this, mem, reg, fb, stack, rpl
      ensures Valid() ==> WellFormed(kind, s)
    {
      State(mem[..], reg[..], i, pc, fb[..], delay, sound, key, stack[..], sp,
            redraw, extended, rpl[..], halted)
    }

    /** The constructor: all fields zero (the host's interpreter is a
        static object), then the low font at 0 and, on SUPER-CHIP, the high
        font at `SUPERFONT_START`. */
    constructor(kind: Kind)
      ensures Valid() && Abs() == PowerOn(kind)
      ensures fresh(mem) && fresh(reg) && fresh(fb) && fresh(stack) && fresh(rpl)
    {
      this.kind := kind;
      mem := new Byte[MemorySize](_ => 0);
      reg := new Byte[16](_ => 0);
      fb := new bool[Cells(kind)](_ => false);
      stack := new U16[StackSize](_ => 0);
      rpl := new Byte[RplSize](_ => 0);
      i, pc, delay, sound, key, sp := 0, 0, 0, 0, 0, 0;
      redraw, extended, halted := false, false, false;
      new;
      assert mem[..] == seq(MemorySize, _ => 0);
      Copy(mem, 0, LowFont);
      if kind == SuperChip {
        Copy(mem, SuperFontStart, HighFont);
      }
      assert reg[..] == seq(16, _ => 0);
      assert fb[..] == Blank(Cells(kind));
      assert stack[..] == seq(StackSize, _ => 0);
      assert rpl[..] == seq(RplSize, _ => 0);
    }

    /** `LoadRom`: the file's bytes (`None` when it does not open) go to
        0x200, then the machine is reset. */
    method LoadRom(rom: Option<seq<Byte>>)
      requires Valid()
      requires rom.Some? ==> |rom.value| <= RomCapacity
      modifies this, mem, reg, fb
      ensures Valid() && Abs() == Load(kind, old(Abs()), rom)
    {
      if rom.Some? {
        Copy(mem, RomStart, rom.value);
      }
      Reset();
    }

    /** The "set values to 0" part of `LoadRom`. */
    method Reset()
      requires Valid()
      modifies this, reg, fb
      ensures Valid() && Abs() == Machine.Reset(kind, old(Abs()))
    {
      pc := 0x200;
      ClearRegisters();
      ClearScreen();
      sp := 0;
      if kind == SuperChip {
        extended := false;
      }
      delay := 0;
      sound := 0;
      assert reg[..] == Machine.Reset(kind, old(Abs())).v;
    }

    /** The register loop of the reset, `for (int i = 0; i < 0xF; ++i)`:
        V0..VE become 0 and VF keeps its value. */
    method ClearRegisters()
      requires reg.Length == 16
      modifies reg
      ensures forall j :: 0 <= j < 16 ==> reg[j] == if j < 15 then 0 else old(reg[j])
    {
      for k := 0 to 0xF
        invariant forall j :: 0 <= j < 16 ==> reg[j] == if j < k then 0 else old(reg[j])
      {
        reg[k] := 0;
      }
    }

    /** `DecreaseTimers()`: `--` on each 8-bit timer. */
    method DecreaseTimers()
      requires Valid()
      modifies this
      ensures Valid() && Abs() == Machine.DecreaseTimers(old(Abs()))
    {
      delay := (delay as int - 1) % 0x100;
      sound := (sound as int - 1) % 0x100;
    }

    /** One `Loop()`: clear the redraw flag, fetch the opcode at PC, step
        PC past it, execute. The state must be free of the source's
        undefined behaviour (`FaultOf`). */
    method Step(rnd: nat)
      requires Valid() && FaultOf(kind, Abs()).None?
      modifies this, mem, reg, fb, stack, rpl
      ensures Valid() && Abs() == Run(kind, old(Abs()), rnd)
    {
      ghost var s := Abs();
      redraw := false;
      var op := Fetch(mem[pc], mem[pc + 1]);
      pc := pc + 2;
      assert Abs() == Fetched(s) && op == Opcode(s);
      var family := Family(op);
      if family == 0x0 {
        ExecSystem(op);
      } else if family == 0xD {
        ExecDraw(op);
      } else if family == 0xF {
        ExecMisc(RegX(op), Imm8(op));
      } else if family == 0x1 || family == 0x2 || family == 0xB {
        ExecJump(op);
      } else if family == 0x3 || family == 0x4 || family == 0x5 || family == 0x9 || family == 0xE {
        ExecSkip(op);
      } else {
        ExecLoad(op, rnd);
      }
    }

    /** 1NNN jump, 2NNN call (push PC, jump), BNNN jump to NNN + V0. */
    method ExecJump(op: U16)
      requires Valid() && 2 <= pc <= MemorySize && OpFault(kind, Abs(), op).None?
      requires Family(op) == 0x1 || Family(op) == 0x2 || Family(op) == 0xB
      modifies this, stack
      ensures Valid() && forall rnd :: Abs() == Exec(kind, old(Abs()), op, rnd)
    {
      ghost var t := Abs();
      if Family(op) == 0x1 {
        pc := Addr(op);
      } else if Family(op) == 0x2 {
        stack[sp] := pc;
        sp := sp + 1;
        pc := Addr(op);
        assert stack[..] == t.stack[t.sp := t.pc];
      } else {
        pc := Addr(op) + reg[0];
      }
    }

    /** 3XNN, 4XNN, 5XY0, 9XY0, EX9E, EXA1: step PC over the next
        instruction when the condition holds. */
    method ExecSkip(op: U16)
      requires Valid() && 2 <= pc <= MemorySize && OpFault(kind, Abs(), op).None?
      requires Family(op) in {0x3, 0x4, 0x5, 0x9, 0xE}
      modifies this
      ensures Valid() && forall rnd :: Abs() == Exec(kind, old(Abs()), op, rnd)
    {
      var x, y, nn := RegX(op), RegY(op), Imm8(op);
      match Family(op)
      case 0x3 => if reg[x] == nn { pc := pc + 2; }
      case 0x4 => if reg[x] != nn { pc := pc + 2; }
      case 0x5 => if reg[x] == reg[y] { pc := pc + 2; }
      case 0x9 => if reg[x] != reg[y] { pc := pc + 2; }
      case 0xE =>
        if nn == 0x9E {
          if KeyTest(key, reg[x]) { pc := pc + 2; }
        } else if nn == 0xA1 {
          if !KeyTest(key, reg[x]) { pc := pc + 2; }
        }
    }

    /** 6XNN, 7XNN, 8XYN, ANNN, CXNN: loads into VX or I. */
    method ExecLoad(op: U16, rnd: nat)
      requires Valid() && 2 <= pc <= MemorySize && OpFault(kind, Abs(), op).None?
      requires Family(op) in {0x6, 0x7, 0x8, 0xA, 0xC}
      modifies this, reg
      ensures Valid() && Abs() == Exec(kind, old(Abs()), op, rnd)
    {
      var x, y, n, nn := RegX(op), RegY(op), Nibble(op), Imm8(op);
      match Family(op)
      case 0x6 => reg[x] := nn;
      case 0x7 => reg[x] := (reg[x] as int + nn) % 0x100;
      case 0x8 => ExecArith(x, y, n);
      case 0xA => i := Addr(op);
      case 0xC => reg[x] := RandomBits(rnd, nn as bv8) as int;
    }

    /** 00E0: every pixel of the buffer off. */
    method ClearScreen()
      requires Valid()
      modifies fb
      ensures fb[..] == Blank(fb.Length)
    {
      for p := 0 to Cells(kind)
        invariant forall q :: 0 <= q < p ==> !fb[q]
      {
        fb[p] := false;
      }
    }

    /** The opcodes with family 0, decoded as each interpreter does. */
    method ExecSystem(op: U16)
      requires Valid() && Family(op) == 0 && OpFault(kind, Abs(), op).None?
      modifies this, fb
      ensures Valid() && Abs() == System(kind, old(Abs()), op)
    {
      if kind == Chip8 {
        if op == 0x00E0 {
          ClearScreen();
          redraw := true;
        } else if op == 0x00EE {
          sp := sp - 1;
          pc := stack[sp];
        }
      } else if (op / 0x10) % 0x10 == 0xC {
        ScrollDown(Nibble(op));
        redraw := true;
      } else {
        match op % 0x100
        case 0xE0 =>
          ClearScreen();
          redraw := true;
        case 0xEE =>
          sp := sp - 1;
          pc := stack[sp];
        case 0xFB =>
          ScrollRight();
          redraw := true;
        case 0xFC =>
          ScrollLeft();
          redraw := true;
        case 0xFD => halted := true;
        case 0xFE => extended := false;
        case 0xFF => extended := true;
        case _ =>
      }
    }

    /** 00CN: rows from the bottom up, each moved N rows down and blanked. */
    method ScrollDown(n: nat)
      requires Valid() && kind == SuperChip && n < 16
      modifies fb
      ensures fb[..] == Display.ScrollDown(old(fb[..]), n, extended)
    {
      var width := if extended then 128 else 64;
      var height := if extended then 64 else 32;
      ghost var f0 := fb[..];
      DownEnds(f0, n, extended);
      var y := height;
      while y >= 0
        invariant -1 <= y <= height
        invariant fb[..] == DownPartial(f0, n, extended, y, 0)
      {
        if y + n < height {
          MoveRowDown(y, n, width, f0);
        }
        DownNextRow(f0, n, extended, y);
        y := y - 1;
      }
    }

    /** The inner loop of 00CN for row y: each cell of the row is copied
        N rows down and then blanked. */
    method MoveRowDown(y: int, n: nat, width: int, ghost f0: seq<bool>)
      requires Valid() && kind == SuperChip && width == Width(extended)
      requires 0 <= y && y + n < Height(extended)
      requires |f0| == fb.Length && fb[..] == DownPartial(f0, n, extended, y, 0)
      modifies fb
      ensures fb[..] == DownPartial(f0, n, extended, y, width)
    {
      var x := 0;
      while x < width
        invariant 0 <= x <= width
        invariant fb[..] == DownPartial(f0, n, extended, y, x)
      {
        MoveDown(x, y, n, width, f0);
        x := x + 1;
      }
    }

    /** One iteration of the 00CN inner loop: cell (x, y) copied to
        (x, y + n), then blanked. */
    method MoveDown(x: int, y: int, n: nat, width: int, ghost f0: seq<bool>)
      requires Valid() && kind == SuperChip && width == Width(extended)
      requires 0 <= x < width && 0 <= y && y + n < Height(extended)
      requires |f0| == fb.Length && fb[..] == DownPartial(f0, n, extended, y, x)
      modifies fb
      ensures fb[..] == DownPartial(f0, n, extended, y, x + 1)
    {
      DownStep(f0, n, extended, y, x);
      ColumnMod(x, extended);
      StrideIndex(x, y + n, width, extended);
      StrideIndex(x, y, width, extended);
      CellCoords(x, y + n, extended);
      CellCoords(x, y, extended);
      MoveCell((x % width) + ((y + n) * width), (x % width) + (y * width));
    }

    /** The body of the scroll loops: `m_Gfx[dst] = m_Gfx[src]; m_Gfx[src] = 0;`. */
    method MoveCell(dst: int, src: int)
      requires 0 <= dst < fb.Length && 0 <= src < fb.Length
      modifies fb
      ensures fb[..] == old(fb[..])[dst := old(fb[src])][src := false]
    {
      fb[dst] := fb[src];
      fb[src] := false;
    }

    /** 00FB: columns from width - 4 down to 0, each moved to column
        `(x + 4) % width` and blanked. */
    method ScrollRight()
      requires Valid() && kind == SuperChip
      modifies fb
      ensures fb[..] == Display.ScrollRight(old(fb[..]), extended)
    {
      var width := if extended then 128 else 64;
      var height := if extended then 64 else 32;
      ghost var f0 := fb[..];
      RightEnds(f0, extended);
      var x := width - 4;
      while x >= 0
        invariant -1 <= x <= width - 4
        invariant fb[..] == RightPartial(f0, extended, x, 0)
      {
        MoveColumnRight(x, width, height, f0);
        RightNextColumn(f0, extended, x);
        x := x - 1;
      }
    }

    /** The inner loop of 00FB for column x: each cell of the column is
        copied to column `(x + 4) % width` and then blanked. */
    method MoveColumnRight(x: int, width: int, height: int, ghost f0: seq<bool>)
      requires Valid() && kind == SuperChip && width == Width(extended) && height == Height(extended)
      requires 0 <= x <= width - 4
      requires |f0| == fb.Length && fb[..] == RightPartial(f0, extended, x, 0)
      modifies fb
      ensures fb[..] == RightPartial(f0, extended, x, height)
    {
      var y := 0;
      while y < height
        invariant 0 <= y <= height
        invariant fb[..] == RightPartial(f0, extended, x, y)
      {
        MoveRight(x, y, width, f0);
        y := y + 1;
      }
    }

    /** One iteration of the 00FB inner loop: cell (x, y) copied to
        ((x + 4) % width, y), then blanked. */
    method MoveRight(x: int, y: int, width: int, ghost f0: seq<bool>)
      requires Valid() && kind == SuperChip && width == Width(extended)
      requires 0 <= x <= width - 4 && 0 <= y < Height(extended)
      requires |f0| == fb.Length && fb[..] == RightPartial(f0, extended, x, y)
      modifies fb
      ensures fb[..] == RightPartial(f0, extended, x, y + 1)
    {
      RightStep(f0, extended, x, y);
      ColumnMod(x, extended);
      WrapColumn(x, extended);
      StrideIndex(x + 4, y, width, extended);
      StrideIndex(x, y, width, extended);
      CellCoords((x + 4) % width, y, extended);
      CellCoords(x, y, extended);
      MoveCell(((x + 4) % width) + (y * width), (x % width) + (y * width));
    }

    /** 00FC: columns from 4 up, each moved to column x - 4 and blanked. */
    method ScrollLeft()
      requires Valid() && kind == SuperChip
      modifies fb
      ensures fb[..] == Display.ScrollLeft(old(fb[..]), extended)
    {
      var width := if extended then 128 else 64;
      var height := if extended then 64 else 32;
      ghost var f0 := fb[..];
      LeftEnds(f0, extended);
      var x := 4;
      while x < width
        invariant 4 <= x <= width
        invariant fb[..] == LeftPartial(f0, extended, x, 0)
      {
        MoveColumnLeft(x, width, height, f0);
        LeftNextColumn(f0, extended, x);
        x := x + 1;
      }
    }

    /** The inner loop of 00FC for column x: each cell of the column is
        copied to column `(x - 4) % width` and then blanked. */
    method MoveColumnLeft(x: int, width: int, height: int, ghost f0: seq<bool>)
      requires Valid() && kind == SuperChip && width == Width(extended) && height == Height(extended)
      requires 4 <= x < width
      requires |f0| == fb.Length && fb[..] == LeftPartial(f0, extended, x, 0)
      modifies fb
      ensures fb[..] == LeftPartial(f0, extended, x, height)
    {
      var y := 0;
      while y < height
        invariant 0 <= y <= height
        invariant fb[..] == LeftPartial(f0, extended, x, y)
      {
        MoveLeft(x, y, width, f0);
        y := y + 1;
      }
    }

    /** One iteration of the 00FC inner loop: cell (x, y) copied to
        ((x - 4) % width, y), then blanked. */
    method MoveLeft(x: int, y: int, width: int, ghost f0: seq<bool>)
      requires Valid() && kind == SuperChip && width == Width(extended)
      requires 4 <= x < width && 0 <= y < Height(extended)
      requires |f0| == fb.Length && fb[..] == LeftPartial(f0, extended, x, y)
      modifies fb
      ensures fb[..] == LeftPartial(f0, extended, x, y + 1)
    {
      LeftStep(f0, extended, x, y);
      ColumnMod(x, extended);
      ColumnMod(x - 4, extended);
      StrideIndex(x - 4, y, width, extended);
      StrideIndex(x, y, width, extended);
      CellCoords(x - 4, y, extended);
      CellCoords(x, y, extended);
      MoveCell(((x - 4) % width) + (y * width), (x % width) + (y * width));
    }

    /** 8XYN: the writes of each arithmetic opcode in the source's order. */
    method ExecArith(x: nat, y: nat, n: nat)
      requires Valid() && x < 16 && y < 16
      modifies reg
      ensures reg[..] == Arith(old(reg[..]), x, y, n)
    {
      match n
      case 0x0 => reg[x] := reg[y];
      case 0x1 => reg[x] := Or(reg[x], reg[y]);
      case 0x2 => reg[x] := And(reg[x], reg[y]);
      case 0x3 => reg[x] := Xor(reg[x], reg[y]);
      case 0x4 =>
        reg[x] := (reg[x] as int + reg[y]) % 0x100;
        reg[VF] := 0;
        if reg[y] > 0xFF - reg[x] {
          reg[VF] := 1;
        }
      case 0x5 =>
        reg[x] := (reg[x] as int - reg[y]) % 0x100;
        reg[VF] := 1;
        if reg[y] > 0xFF - reg[x] {
          reg[VF] := 0;
        }
      case 0x6 =>
        reg[VF] := reg[x] % 2;
        reg[x] := reg[x] / 2;
      case 0x7 =>
        reg[x] := (reg[y] as int - reg[x]) % 0x100;
        reg[VF] := 1;
        if reg[y] < reg[x] {
          reg[VF] := 0;
        }
      case 0xE =>
        reg[VF] := reg[x] / 0x80;
        reg[x] := (reg[x] as int * 2) % 0x100;
      case _ =>
    }

    /** DXYN, with the operands taken from the opcode. */
    method ExecDraw(op: U16)
      requires Valid() && 2 <= pc <= MemorySize && OpFault(kind, Abs(), op).None?
      requires Family(op) == 0xD
      modifies this, reg, fb
      ensures Valid() && forall rnd :: Abs() == Exec(kind, old(Abs()), op, rnd)
    {
      DrawSprite(RegX(op), RegY(op), Nibble(op));
    }

    /** DXYN: read VX and VY, clear VF, XOR the sprite in as each
        interpreter does, mark the screen for redraw. */
    method DrawSprite(rx: nat, ry: nat, n: nat)
      requires Valid() && rx < 16 && ry < 16 && n < 16
      requires RowBytes(kind, Abs(), n) == 0 || i + RowBytes(kind, Abs(), n) <= MemorySize
      requires kind == Chip8 ==> PixelsInRange(Abs(), rx, ry, n)
      modifies this, reg, fb
      ensures Valid() && Abs() == Draw(kind, old(Abs()), rx, ry, n)
    {
      ghost var t := Abs();
      var xInit: int, yInit: int := reg[rx], reg[ry];
      var height := n;
      reg[VF] := 0;
      if kind == Chip8 {
        BlitPlain(xInit, yInit, height, t.v, Rows(kind, t, n));
      } else if height == 0 && extended {
        BlitWide(xInit, yInit, t.v, Rows(kind, t, n));
      } else {
        BlitWrapped(xInit, yInit, height, t.v, Rows(kind, t, n));
      }
      redraw := true;
    }

    /** The CHIP-8 blit: N rows of 8 pixels from I, placed without wrapping. */
    method BlitPlain(xInit: int, yInit: int, height: nat, ghost r0: seq<Byte>, ghost rows: seq<Byte>)
      requires Valid() && kind == Chip8 && 0 <= xInit && 0 <= yInit && height < 16
      requires |rows| == height && (height == 0 || (i + height <= MemorySize && rows == mem[i .. i + height]))
      requires forall dx, dy :: 0 <= dx < 8 && 0 <= dy < height && BitSet(rows[dy], dx) ==>
        At(Plain(xInit, yInit), dx, dy) < ChipCells
      requires |r0| == 16 && reg[..] == r0[VF := 0]
      modifies reg, fb
      ensures fb[..] == Toggle(old(fb[..]), Sprite(Plain(xInit, yInit), rows, false))
      ensures reg[..] == r0[VF := if Collision(old(fb[..]), Sprite(Plain(xInit, yInit), rows, false)) then 1 else 0]
    {
      ghost var f0, pl := fb[..], Plain(xInit, yInit);
      DrawnStart(f0, pl, rows, false);
      DrawnEnd(f0, pl, rows, false);
      var y := 0;
      while y < height
        invariant 0 <= y <= height
        invariant fb[..] == Drawn(f0, pl, rows, false, 0, y)
        invariant reg[..] == r0[VF := if Collided(f0, pl, rows, false, 0, y) then 1 else 0]
      {
        var sprite := mem[i + y];
        PlainRow(xInit, yInit, y, sprite, f0, r0, rows);
        y := y + 1;
      }
    }

    /** One row of the CHIP-8 blit: bit x of the row byte toggles pixel
        `xInit + x + (yInit + y) * 64`, setting VF if it was lit. */
    method PlainRow(xInit: int, yInit: int, y: nat, sprite: Byte,
                    ghost f0: seq<bool>, ghost r0: seq<Byte>, ghost rows: seq<Byte>)
      requires reg.Length == 16 && |r0| == 16 && y < |rows| && y < 16 && rows[y] == sprite
      requires 0 <= xInit && 0 <= yInit
      requires forall dx :: 0 <= dx < 8 && BitSet(sprite, dx) ==> At(Plain(xInit, yInit), dx, y) < |f0|
      requires fb[..] == Drawn(f0, Plain(xInit, yInit), rows, false, 0, y)
      requires reg[..] == r0[VF := if Collided(f0, Plain(xInit, yInit), rows, false, 0, y) then 1 else 0]
      modifies reg, fb
      ensures fb[..] == Drawn(f0, Plain(xInit, yInit), rows, false, 0, y + 1)
      ensures reg[..] == r0[VF := if Collided(f0, Plain(xInit, yInit), rows, false, 0, y + 1) then 1 else 0]
    {
      ghost var pl := Plain(xInit, yInit);
      var x := 0;
      while x < 8
        invariant 0 <= x <= 8
        invariant fb[..] == Drawn(f0, pl, rows, false, x, y)
        invariant reg[..] == r0[VF := if Collided(f0, pl, rows, false, x, y) then 1 else 0]
      {
        DrawnStep(f0, pl, rows, false, x, y);
        if BitSet(sprite, x) {
          var p: int := xInit + x + ((yInit + y) * 64);
          assert p == At(pl, x, y);
          if fb[p] {
            reg[VF] := 1;
          }
          fb[p] := !fb[p];
        }
        x := x + 1;
      }
      DrawnNextRow(f0, pl, rows, false, y);
    }

    /** The SUPER-CHIP blit of N rows of 8 pixels (none when N = 0 outside
        extended mode), wrapping around the active area. */
    method BlitWrapped(xInit: int, yInit: int, height: nat, ghost r0: seq<Byte>, ghost rows: seq<Byte>)
      requires Valid() && kind == SuperChip && height < 16
      requires |rows| == height && (height == 0 || (i + height <= MemorySize && rows == mem[i .. i + height]))
      requires |r0| == 16 && reg[..] == r0[VF := 0]
      modifies reg, fb
      ensures fb[..] == Toggle(old(fb[..]), Sprite(Wrapped(xInit, yInit, extended), rows, false))
      ensures reg[..] == r0[VF := if Collision(old(fb[..]), Sprite(Wrapped(xInit, yInit, extended), rows, false)) then 1 else 0]
    {
      ghost var f0, pl := fb[..], Wrapped(xInit, yInit, extended);
      DrawnStart(f0, pl, rows, false);
      DrawnEnd(f0, pl, rows, false);
      var y := 0;
      while y < height
        invariant 0 <= y <= height
        invariant fb[..] == Drawn(f0, pl, rows, false, 0, y)
        invariant reg[..] == r0[VF := if Collided(f0, pl, rows, false, 0, y) then 1 else 0]
      {
        var pixel := mem[i + y];
        WrappedRow(xInit, yInit, y, pixel, f0, r0, rows);
        y := y + 1;
      }
    }

    /** One row of the SUPER-CHIP blit: bit x of the row byte toggles pixel
        `(xInit + x) % width` of row `(yInit + y) % height`. */
    method WrappedRow(xInit: int, yInit: int, y: nat, pixel: Byte,
                      ghost f0: seq<bool>, ghost r0: seq<Byte>, ghost rows: seq<Byte>)
      requires reg.Length == 16 && |r0| == 16 && |f0| >= Area(extended)
      requires y < |rows| && y < 16 && rows[y] == pixel
      requires fb[..] == Drawn(f0, Wrapped(xInit, yInit, extended), rows, false, 0, y)
      requires reg[..] == r0[VF := if Collided(f0, Wrapped(xInit, yInit, extended), rows, false, 0, y) then 1 else 0]
      modifies reg, fb
      ensures fb[..] == Drawn(f0, Wrapped(xInit, yInit, extended), rows, false, 0, y + 1)
      ensures reg[..] == r0[VF := if Collided(f0, Wrapped(xInit, yInit, extended), rows, false, 0, y + 1) then 1 else 0]
    {
      ghost var pl := Wrapped(xInit, yInit, extended);
      var x := 0;
      while x < 8
        invariant 0 <= x <= 8
        invariant fb[..] == Drawn(f0, pl, rows, false, x, y)
        invariant reg[..] == r0[VF := if Collided(f0, pl, rows, false, x, y) then 1 else 0]
      {
        AtCoords(pl, x, y);
        DrawnStep(f0, pl, rows, false, x, y);
        if BitSet(pixel, x) {
          var width := if extended then 128 else 64;
          var height := if extended then 64 else 32;
          var p: int := ((xInit + x) % width) + (((yInit + y) % height) * width);
          assert p == At(pl, x, y);
          if fb[p] {
            reg[VF] := 1;
          }
          fb[p] := !fb[p];
        }
        x := x + 1;
      }
      DrawnNextRow(f0, pl, rows, false, y);
    }

    /** The SUPER-CHIP 16×16 blit (DXY0 in extended mode): 16 rows of two
        bytes from I, left half then right half, wrapping around the
        128×64 buffer. */
    method BlitWide(xInit: int, yInit: int, ghost r0: seq<Byte>, ghost rows: seq<Byte>)
      requires Valid() && kind == SuperChip && extended
      requires i + 32 <= MemorySize && rows == mem[i .. i + 32]
      requires |r0| == 16 && reg[..] == r0[VF := 0]
      modifies reg, fb
      ensures fb[..] == Toggle(old(fb[..]), Sprite(Wrapped(xInit, yInit, true), rows, true))
      ensures reg[..] == r0[VF := if Collision(old(fb[..]), Sprite(Wrapped(xInit, yInit, true), rows, true)) then 1 else 0]
    {
      ghost var f0, pl := fb[..], Wrapped(xInit, yInit, true);
      DrawnStart(f0, pl, rows, true);
      DrawnEnd(f0, pl, rows, true);
      var y := 0;
      while y < 16
        invariant 0 <= y <= 16
        invariant fb[..] == Drawn(f0, pl, rows, true, 0, y)
        invariant reg[..] == r0[VF := if Collided(f0, pl, rows, true, 0, y) then 1 else 0]
      {
        var pixel := mem[i + y * 2];
        WideHalf(xInit, yInit, y, 0, pixel, f0, r0, rows);
        pixel := mem[i + 1 + y * 2];
        WideHalf(xInit, yInit, y, 8, pixel, f0, r0, rows);
        DrawnNextRow(f0, pl, rows, true, y);
        y := y + 1;
      }
    }

    /** One half row of the 16×16 blit: bit x of the byte toggles pixel
        `(xInit + x + off) % 128` of row `(yInit + y) % 64`, where `off` is
        0 for the left byte and 8 for the right one. */
    method WideHalf(xInit: int, yInit: int, y: nat, off: nat, pixel: Byte,
                    ghost f0: seq<bool>, ghost r0: seq<Byte>, ghost rows: seq<Byte>)
      requires reg.Length == 16 && |r0| == 16 && |f0| >= SuperCells
      requires y < 16 && |rows| == 32 && (off == 0 || off == 8) && rows[2 * y + off / 8] == pixel
      requires fb[..] == Drawn(f0, Wrapped(xInit, yInit, true), rows, true, off, y)
      requires reg[..] == r0[VF := if Collided(f0, Wrapped(xInit, yInit, true), rows, true, off, y) then 1 else 0]
      modifies reg, fb
      ensures fb[..] == Drawn(f0, Wrapped(xInit, yInit, true), rows, true, off + 8, y)
      ensures reg[..] == r0[VF := if Collided(f0, Wrapped(xInit, yInit, true), rows, true, off + 8, y) then 1 else 0]
    {
      ghost var pl := Wrapped(xInit, yInit, true);
      var x := 0;
      while x < 8
        invariant 0 <= x <= 8
        invariant fb[..] == Drawn(f0, pl, rows, true, x + off, y)
        invariant reg[..] == r0[VF := if Collided(f0, pl, rows, true, x + off, y) then 1 else 0]
      {
        WideBit(xInit, yInit, x, y, off, pixel, f0, r0, rows);
        x := x + 1;
      }
    }

    /** One iteration of the half-row loop: bit x of the byte. */
    method WideBit(xInit: int, yInit: int, x: nat, y: nat, off: nat, pixel: Byte,
                   ghost f0: seq<bool>, ghost r0: seq<Byte>, ghost rows: seq<Byte>)
      requires reg.Length == 16 && |r0| == 16 && |f0| >= SuperCells
      requires x < 8 && y < 16 && |rows| == 32 && (off == 0 || off == 8) && rows[2 * y + off / 8] == pixel
      requires fb[..] == Drawn(f0, Wrapped(xInit, yInit, true), rows, true, x + off, y)
      requires reg[..] == r0[VF := if Collided(f0, Wrapped(xInit, yInit, true), rows, true, x + off, y) then 1 else 0]
      modifies reg, fb
      ensures fb[..] == Drawn(f0, Wrapped(xInit, yInit, true), rows, true, x + 1 + off, y)
      ensures reg[..] == r0[VF := if Collided(f0, Wrapped(xInit, yInit, true), rows, true, x + 1 + off, y) then 1 else 0]
    {
      ghost var pl := Wrapped(xInit, yInit, true);
      AtCoords(pl, x + off, y);
      DrawnStep(f0, pl, rows, true, x + off, y);
      if BitSet(pixel, x) {
        var p: int := ((xInit + x + off) % 128) + (((yInit + y) % 64) * 128);
        assert p == At(pl, x + off, y);
        if fb[p] {
          reg[VF] := 1;
        }
        fb[p] := !fb[p];
      }
    }

    /** FX0A: with no key down, PC steps back onto this instruction;
        otherwise the scan stores the first key found in VX. */
    method WaitKey(x: nat)
      requires Valid() && x < 16 && pc >= 2
      modifies this, reg
      ensures Valid() && Abs() == Machine.WaitKey(kind, old(Abs()), x)
    {
      ghost var s := Abs();
      if key == 0 {
        pc := pc - 2;
      } else {
        ScanKeys(x, if kind == Chip8 then 0xF else 0x10);
        assert Abs() == s.(v := reg[..]);
      }
    }

    /** The key scan of FX0A over keys 0 .. limit - 1 (`i < 0xF` on
        CHIP-8, `i <= 0xF` on SUPER-CHIP): the first key down goes to VX
        and ends the scan. */
    method ScanKeys(x: nat, limit: nat)
      requires reg.Length == 16 && x < 16 && limit <= 16
      modifies reg
      ensures reg[..] == match FirstKey(key, 0, limit)
        case Some(k) => old(reg[..])[x := k]
        case None => old(reg[..])
    {
      var k := 0;
      while k < limit
        invariant 0 <= k <= limit
        invariant forall j :: 0 <= j < k ==> !KeyDown(key, j)
        invariant reg[..] == old(reg[..])
      {
        if KeyDown(key, k) {
          reg[x] := k;
          assert FirstKey(key, 0, limit) == Some(k);
          break;
        }
        k := k + 1;
      }
    }

    /** FX1E: I += VX in 16 bits, then VF = 1 iff I is past 0xFFF. */
    method AddIndex(x: nat)
      requires Valid() && x < 16
      modifies this, reg
      ensures Valid() && Abs() == Machine.AddIndex(old(Abs()), x)
    {
      i := (i as int + reg[x]) % 0x1_0000;
      if i > 0xFFF {
        reg[VF] := 1;
      } else {
        reg[VF] := 0;
      }
    }

    /** FX33: hundreds, tens and ones of VX to I, I + 1, I + 2. */
    method StoreBcd(x: nat)
      requires Valid() && x < 16 && i + 3 <= MemorySize
      modifies mem
      ensures Valid() && Abs() == Machine.StoreBcd(old(Abs()), x)
    {
      var number := reg[x];
      var ones := number % 10;
      number := number / 10;
      var tens := number % 10;
      var hundreds := number / 10;
      mem[i] := hundreds;
      mem[i + 1] := tens;
      mem[i + 2] := ones;
    }

    /** FX55: V0..VX to memory at I, then I += X + 1. */
    method StoreRegs(x: nat)
      requires Valid() && x < 16 && i + x + 1 <= MemorySize
      modifies this, mem
      ensures Valid() && Abs() == Machine.StoreRegs(old(Abs()), x)
    {
      for k := 0 to x + 1
        modifies mem
        invariant forall a :: 0 <= a < MemorySize ==>
          mem[a] == if i <= a < i + k then reg[a - i] else old(mem[a])
      {
        mem[i + k] := reg[k];
      }
      ghost var s := old(Abs());
      assert mem[..] == Machine.StoreRegs(s, x).mem;
      i := i + x + 1;
    }

    /** FX65: V0..VX from memory at I, then I += X + 1. */
    method LoadRegs(x: nat)
      requires Valid() && x < 16 && i + x + 1 <= MemorySize
      modifies this, reg
      ensures Valid() && Abs() == Machine.LoadRegs(old(Abs()), x)
    {
      for k := 0 to x + 1
        modifies reg
        invariant forall a :: 0 <= a < 16 ==> reg[a] == if a < k then mem[i + a] else old(reg[a])
      {
        reg[k] := mem[i + k];
      }
      ghost var s := old(Abs());
      assert reg[..] == Machine.LoadRegs(s, x).v;
      i := i + x + 1;
    }

    /** FX75: V0..V(X-1) to the RPL flags, X clamped to 7. */
    method SaveFlags(x: nat)
      requires Valid() && x < 16
      modifies rpl
      ensures Abs() == Machine.SaveFlags(old(Abs()), x)
    {
      var c := x;
      if c > 7 {
        c := 7;
      }
      for k := 0 to c
        invariant forall a :: 0 <= a < RplSize ==> rpl[a] == if a < k then reg[a] else old(rpl[a])
      {
        rpl[k] := reg[k];
      }
      ghost var s := old(Abs());
      assert rpl[..] == Machine.SaveFlags(s, x).rpl;
    }

    /** FX85: V0..VX from the RPL flags, X clamped to 7. */
    method LoadFlags(x: nat)
      requires Valid() && x < 16
      modifies reg
      ensures Abs() == Machine.LoadFlags(old(Abs()), x)
    {
      var c := x;
      if c > 7 {
        c := 7;
      }
      for k := 0 to c + 1
        invariant forall a :: 0 <= a < 16 ==> reg[a] == if a < k then rpl[a] else old(reg[a])
      {
        reg[k] := rpl[k];
      }
      ghost var s := old(Abs());
      assert reg[..] == Machine.LoadFlags(s, x).v;
    }

    /** The opcodes with family F. */
    method ExecMisc(x: nat, nn: Byte)
      requires Valid() && x < 16 && pc >= 2
      requires nn == 0x33 ==> i + 3 <= MemorySize
      requires nn == 0x55 || nn == 0x65 ==> i + x + 1 <= MemorySize
      modifies this, mem, reg, rpl
      ensures Valid() && Abs() == Misc(kind, old(Abs()), x, nn)
    {
      match nn
      case 0x07 => reg[x] := delay;
      case 0x0A => WaitKey(x);
      case 0x15 => delay := reg[x];
      case 0x18 => sound := reg[x];
      case 0x1E => AddIndex(x);
      case 0x29 => i := reg[x] as int * 5;
      case 0x30 =>
        if kind == SuperChip {
          i := reg[x] as int * 10 + SuperFontStart;
        }
      case 0x33 => StoreBcd(x);
      case 0x55 => StoreRegs(x);
      case 0x65 => LoadRegs(x);
      case 0x75 =>
        if kind == SuperChip {
          SaveFlags(x);
        }
      case 0x85 =>
        if kind == SuperChip {
          LoadFlags(x);
        }
      case _ =>
    }
  }
}
