/** Properties of whole `Loop()` steps and of single opcodes of the
    machine model, relating several steps or stating what an opcode leaves
    alone. */
module Properties {
  import opened Decode
  import opened Alu
  import opened Keys
  import opened Display
  import opened Machine

  // ---------------------------------------------------------------- fetch

  /** Every step reads the opcode high byte first, clears the redraw flag
      and executes with PC already past the opcode: an opcode that neither
      jumps, skips nor draws leaves PC two bytes on and the redraw flag
      clear. */
  lemma StepAdvances(kind: Kind, s: State, rnd: nat)
    requires WellFormed(kind, s) && FaultOf(kind, s).None?
    requires Family(Opcode(s)) in {0x6, 0x7, 0x8, 0xA, 0xC}
    ensures Opcode(s) == s.mem[s.pc] as int * 0x100 + s.mem[s.pc + 1]
    ensures var r := Run(kind, s, rnd);
      r.pc == s.pc + 2 && !r.redraw && r.mem == s.mem && r.fb == s.fb && r.stack == s.stack && r.sp == s.sp
  {
    var op := Opcode(s);
    var f := Family(op);
    if f == 0x8 {
      assert |Arith(Fetched(s).v, RegX(op), RegY(op), Nibble(op))| == 16;
    }
  }

  // ---------------------------------------------------------- call, return

  /** A step on a 2NNN opcode is a call to NNN from the fetched state: the
      address of the next instruction goes to the stack slot SP, SP grows
      by one and PC becomes NNN. */
  lemma RunCall(kind: Kind, s: State, rnd: nat)
    requires WellFormed(kind, s) && FaultOf(kind, s).None? && Family(Opcode(s)) == 0x2
    ensures Run(kind, s, rnd) == Call(Fetched(s), Addr(Opcode(s)))
    ensures var r := Run(kind, s, rnd);
      r.stack[s.sp] == s.pc + 2 && r.sp == s.sp + 1 && r.pc == Addr(Opcode(s))
  {
  }

  /** Bits 4..7 of an opcode whose low byte is EE are E, so SUPER-CHIP's
      00CN test does not catch 00EE. */
  lemma ReturnIsNotScroll(op: U16)
    requires op % 0x100 == 0xEE
    ensures (op / 0x10) % 0x10 == 0xE
  {
    var q := op / 0x100;
    assert op == (q * 0x10 + 0xE) * 0x10 + 0xE;
    DivModUnique(q * 0x10 + 0xE, 0xE, 0x10);
    DivModUnique(q, 0xE, 0x10);
  }

  /** The dispatch of an opcode the interpreter decodes as 00EE (the whole
      word 00EE on CHIP-8, any family-0 opcode with low byte EE on
      SUPER-CHIP) is a return. */
  lemma ExecReturn(kind: Kind, t: State, op: U16, rnd: nat)
    requires WellFormed(kind, t) && 2 <= t.pc <= MemorySize && OpFault(kind, t, op).None?
    requires Family(op) == 0 && IsReturn(kind, op)
    ensures t.sp > 0 && Exec(kind, t, op, rnd) == Return(t)
  {
    if kind == SuperChip {
      ReturnIsNotScroll(op);
    }
  }

  /** A call to NNN followed by the return fetched there resumes at the
      address the call pushed, with SP restored; the only trace left is the
      return address in the stack slot the call used. With `RunCall` and
      `ExecReturn` this is the round trip of 2NNN and 00EE over two steps. */
  lemma CallThenReturn(t: State, nnn: nat)
    requires |t.stack| == StackSize && t.sp < StackSize && nnn + 1 < MemorySize
    ensures var r := Return(Fetched(Call(t, nnn)));
      r == t.(redraw := false, stack := t.stack[t.sp := t.pc]) && r.pc == t.pc && r.sp == t.sp
  {
  }

  // ----------------------------------------------------------------- draw

  /** DXYN twice with X, Y other than F and memory unchanged in between
      restores the buffer, and the second draw reports a collision exactly
      when the first turned some pixel on. */
  lemma DrawTwice(kind: Kind, t: State, x: nat, y: nat, n: nat)
    requires WellFormed(kind, t) && x < VF && y < VF && n < 16
    requires RowBytes(kind, t, n) == 0 || t.i + RowBytes(kind, t, n) <= MemorySize
    ensures var once := Draw(kind, t, x, y, n); var twice := Draw(kind, once, x, y, n);
      twice.fb == t.fb &&
      (twice.v[VF] == 1 <==> exists p :: 0 <= p < |t.fb| && once.fb[p] && !t.fb[p])
  {
    var hit := Sprite(Place(kind, t, x, y), Rows(kind, t, n), Wide(kind, t, n));
    var once := Draw(kind, t, x, y, n);
    assert once.fb == Toggle(t.fb, hit);
    assert Place(kind, once, x, y) == Place(kind, t, x, y);
    assert Rows(kind, once, n) == Rows(kind, t, n);
    ToggleTwice(t.fb, hit);
    if exists p :: 0 <= p < |t.fb| && hit(p) && !t.fb[p] {
      var p :| 0 <= p < |t.fb| && hit(p) && !t.fb[p];
      assert once.fb[p] && !t.fb[p];
    }
    if exists p :: 0 <= p < |t.fb| && once.fb[p] && !t.fb[p] {
      var p :| 0 <= p < |t.fb| && once.fb[p] && !t.fb[p];
      assert hit(p);
    }
  }

  /** VF after DXYN is 1 exactly when some set bit of the sprite lands on a
      pixel that was lit. */
  lemma DrawFlag(kind: Kind, t: State, x: nat, y: nat, n: nat)
    requires WellFormed(kind, t) && x < 16 && y < 16 && n < 16
    requires RowBytes(kind, t, n) == 0 || t.i + RowBytes(kind, t, n) <= MemorySize
    ensures var pl, rows, wide := Place(kind, t, x, y), Rows(kind, t, n), Wide(kind, t, n);
      Draw(kind, t, x, y, n).v[VF] == 1 <==>
      exists dx, dy :: 0 <= dx < 16 && 0 <= dy < 16 && SpriteBit(rows, wide, dx, dy) &&
        0 <= At(pl, dx, dy) < |t.fb| && t.fb[At(pl, dx, dy)]
  {
    CollisionAt(t.fb, Place(kind, t, x, y), Rows(kind, t, n), Wide(kind, t, n));
  }

  /** DXY0 on CHIP-8, or on SUPER-CHIP outside extended mode, reads no rows,
      wherever I points: it toggles nothing, yet clears VF and asks for a
      redraw. */
  lemma NarrowEmptySprite(kind: Kind, t: State, x: nat, y: nat)
    requires WellFormed(kind, t) && x < 16 && y < 16 && !t.extended
    ensures var r := Draw(kind, t, x, y, 0); r.fb == t.fb && r.v == t.v[VF := 0] && r.redraw
  {
    var hit := Sprite(Place(kind, t, x, y), Rows(kind, t, 0), false);
    assert Rows(kind, t, 0) == [];
    assert forall p :: !hit(p);
    assert Toggle(t.fb, hit) == t.fb;
  }

  /** A whole step on DXY0 outside extended mode meets no fault, even with
      I past the end of memory, and only clears VF and sets the redraw
      flag. */
  lemma EmptySpriteRuns(kind: Kind, s: State, rnd: nat)
    requires WellFormed(kind, s) && s.pc + 1 < MemorySize && !s.extended
    requires Family(Opcode(s)) == 0xD && Nibble(Opcode(s)) == 0
    ensures FaultOf(kind, s).None?
    ensures Run(kind, s, rnd) == Fetched(s).(v := s.v[VF := 0], redraw := true)
  {
    var op := Opcode(s);
    NarrowEmptySprite(kind, Fetched(s), RegX(op), RegY(op));
  }

  /** A CHIP-8 sprite bit lands at VX + dx + (VY + dy)·64 with no wrap, and
      that pixel flips exactly when the bit is set. */
  lemma Chip8PixelFlips(t: State, x: nat, y: nat, n: nat, dx: nat, dy: nat)
    requires WellFormed(Chip8, t) && x < 16 && y < 16 && n < 16 && t.i + n <= MemorySize
    requires dx < 8 && dy < n
    requires t.v[x] as int + dx + (t.v[y] as int + dy) * 64 < ChipCells
    ensures var p := t.v[x] as int + dx + (t.v[y] as int + dy) * 64;
      Draw(Chip8, t, x, y, n).fb[p] == (t.fb[p] != BitSet(t.mem[t.i + dy], dx))
  {
    var pl := Plain(t.v[x], t.v[y]);
    assert Rows(Chip8, t, n)[dy] == t.mem[t.i + dy];
    DrawFlips(t.fb, pl, Rows(Chip8, t, n), false, dx, dy);
  }

  /** A SUPER-CHIP sprite bit lands at ((VX + dx) mod width, (VY + dy) mod
      height) of the active area, and that pixel flips exactly when the bit
      is set. */
  lemma SuperPixelFlips(t: State, x: nat, y: nat, n: nat, dx: nat, dy: nat)
    requires WellFormed(SuperChip, t) && x < 16 && y < 16 && n < 16
    requires RowBytes(SuperChip, t, n) == 0 || t.i + RowBytes(SuperChip, t, n) <= MemorySize
    requires dx < 16 && dy < 16
    ensures var e := t.extended; var p := Cell((t.v[x] + dx) % Width(e), (t.v[y] + dy) % Height(e), e);
      0 <= p < Area(e) &&
      Draw(SuperChip, t, x, y, n).fb[p] == (t.fb[p] != SpriteBit(Rows(SuperChip, t, n), Wide(SuperChip, t, n), dx, dy))
  {
    var pl := Wrapped(t.v[x], t.v[y], t.extended);
    WrappedCoords(t.v[x], t.v[y], t.extended, dx, dy);
    DrawFlips(t.fb, pl, Rows(SuperChip, t, n), Wide(SuperChip, t, n), dx, dy);
  }

  // ------------------------------------------------------------------ keys

  /** EX9E skips exactly when key VX is down; EXA1 exactly when it is not
      (a VX from 16 to 31 names no key). */
  lemma KeySkipIff(kind: Kind, s: State, rnd: nat)
    requires WellFormed(kind, s) && FaultOf(kind, s).None?
    requires Family(Opcode(s)) == 0xE
    ensures var op := Opcode(s); var vx := s.v[RegX(op)]; var r := Run(kind, s, rnd);
      (Imm8(op) == 0x9E ==> (r.pc == s.pc + 4 <==> vx < 16 && KeyDown(s.key, vx))) &&
      (Imm8(op) == 0xA1 ==> (r.pc == s.pc + 4 <==> !(vx < 16 && KeyDown(s.key, vx))))
  {
  }

  /** FX0A with no key down steps PC back onto itself: the step changes
      nothing but the redraw flag. */
  lemma WaitKeyIdle(kind: Kind, s: State, rnd: nat)
    requires WellFormed(kind, s) && FaultOf(kind, s).None?
    requires Family(Opcode(s)) == 0xF && Imm8(Opcode(s)) == 0x0A && s.key == 0
    ensures Run(kind, s, rnd) == s.(redraw := false)
  {
  }

  /** FX0A with a key down changes VX at most and moves on. */
  lemma WaitKeyPressed(kind: Kind, t: State, x: nat)
    requires |t.v| == 16 && x < 16 && t.pc >= 2 && t.key != 0
    ensures var r := WaitKey(kind, t, x);
      r == t.(v := r.v) && forall k :: 0 <= k < 16 && k != x ==> r.v[k] == t.v[k]
  {
  }

  /** FX0A stores the lowest key down: always on SUPER-CHIP, whose scan
      covers all 16 keys, and on CHIP-8 whenever one of keys 0..E is down. */
  lemma WaitKeyLowest(kind: Kind, t: State, x: nat)
    requires |t.v| == 16 && x < 16 && t.pc >= 2 && t.key != 0
    requires kind == SuperChip || exists k :: 0 <= k < 15 && KeyDown(t.key, k)
    ensures var r := WaitKey(kind, t, x);
      r.v[x] < 16 && KeyDown(t.key, r.v[x]) && forall k :: 0 <= k < r.v[x] ==> !KeyDown(t.key, k)
  {
    if kind == SuperChip {
      ScanFindsKey(t.key);
    }
    var k := FirstKey(t.key, 0, if kind == Chip8 then 15 else 16).value;
    assert WaitKey(kind, t, x).v == t.v[x := k];
  }

  /** CHIP-8 FX0A never looks at key F: with only key F down it leaves
      every register alone, yet does not wait. */
  lemma WaitKeyIgnoresF(t: State, x: nat)
    requires |t.v| == 16 && x < 16 && t.pc >= 2 && t.key == 0x8000
    ensures WaitKey(Chip8, t, x) == t
  {
    ScanFindsKey(t.key);
  }

  // --------------------------------------------------------------- memory

  /** FX33 writes the hundreds, tens and ones digits of VX at I, I + 1 and
      I + 2 and no other cell. */
  lemma BcdDigits(t: State, x: nat)
    requires |t.mem| == MemorySize && |t.v| == 16 && x < 16 && t.i + 3 <= MemorySize
    ensures var m := StoreBcd(t, x).mem;
      100 * m[t.i] as int + 10 * m[t.i + 1] + m[t.i + 2] == t.v[x] &&
      m[t.i] <= 2 && m[t.i + 1] <= 9 && m[t.i + 2] <= 9
    ensures forall k :: 0 <= k < MemorySize && !(t.i <= k < t.i + 3) ==> StoreBcd(t, x).mem[k] == t.mem[k]
  {
    var d := Bcd(t.v[x]);
    var m := StoreBcd(t, x).mem;
    assert m[t.i] == d.0 && m[t.i + 1] == d.1 && m[t.i + 2] == d.2;
  }

  /** FX55 stores exactly V0..VX at I..I+X, FX65 loads exactly V0..VX from
      there, and both leave I = I + X + 1 and everything else alone. */
  lemma BlockTransfers(t: State, x: nat)
    requires |t.mem| == MemorySize && |t.v| == 16 && x < 16 && t.i + x + 1 <= MemorySize
    ensures var r := StoreRegs(t, x);
      r == t.(mem := r.mem, i := t.i + x + 1) &&
      (forall k :: 0 <= k <= x ==> r.mem[t.i + k] == t.v[k]) &&
      (forall k :: 0 <= k < MemorySize && !(t.i <= k <= t.i + x) ==> r.mem[k] == t.mem[k])
    ensures var r := LoadRegs(t, x);
      r == t.(v := r.v, i := t.i + x + 1) &&
      (forall k :: 0 <= k <= x ==> r.v[k] == t.mem[t.i + k]) &&
      (forall k :: x < k < 16 ==> r.v[k] == t.v[k])
  {
  }

  /** Loading back from the same I what FX55 stored changes nothing: the
      registers already hold those bytes. */
  lemma StoreThenLoad(t: State, x: nat)
    requires |t.mem| == MemorySize && |t.v| == 16 && x < 16 && t.i + x + 1 <= MemorySize
    ensures var stored := StoreRegs(t, x); LoadRegs(stored.(i := t.i), x) == stored
  {
    var stored := StoreRegs(t, x);
    var back := LoadRegs(stored.(i := t.i), x);
    assert back.v == t.v by {
      forall k | 0 <= k < 16 ensures back.v[k] == t.v[k] {
        if k <= x {
          assert stored.mem[t.i + k] == t.v[k];
        }
      }
    }
  }

  // ------------------------------------------------------------ RPL flags

  /** FX75 stores min(X, 7) registers, so FX750 stores nothing; FX85
      loads min(X, 7) + 1. */
  lemma FlagCounts(t: State, x: nat)
    requires |t.v| == 16 && |t.rpl| == RplSize
    ensures SaveFlags(t, 0) == t
    ensures var c := if x > 7 then 7 else x; var r := SaveFlags(t, x);
      r == t.(rpl := r.rpl) &&
      (forall k :: 0 <= k < c ==> r.rpl[k] == t.v[k]) && (forall k :: c <= k < RplSize ==> r.rpl[k] == t.rpl[k])
    ensures var c := if x > 7 then 7 else x; var r := LoadFlags(t, x);
      r == t.(v := r.v) &&
      (forall k :: 0 <= k <= c ==> r.v[k] == t.rpl[k]) && (forall k :: c < k < 16 ==> r.v[k] == t.v[k])
  {
    assert SaveFlags(t, 0).rpl == t.rpl;
  }

  /** FX75 then FX85 with the same X does not give the registers back: the
      flag one past the stored ones, which FX75 never wrote, lands in
      V(min(X, 7)). */
  lemma FlagsRoundTrip(t: State, x: nat)
    requires |t.v| == 16 && |t.rpl| == RplSize
    ensures var c := RplCount(x); LoadFlags(SaveFlags(t, x), x).v == t.v[c := t.rpl[c]]
  {
    var c := RplCount(x);
    var r := LoadFlags(SaveFlags(t, x), x);
    forall k | 0 <= k < 16 ensures r.v[k] == t.v[c := t.rpl[c]][k] {
    }
  }

  // ---------------------------------------------------------------- fonts

  /** FX29 points I at the 5-byte glyph of digit VX inside the low font
      the constructor copied to address 0, for VX ≤ F. */
  lemma LowGlyph(kind: Kind, t: State, x: nat)
    requires WellFormed(kind, t) && x < 16 && t.pc >= 2 && t.v[x] < 16
    ensures var r := Misc(kind, t, x, 0x29);
      r.i + 5 <= |LowFont| && BootMemory(kind)[r.i .. r.i + 5] == LowFont[5 * t.v[x] .. 5 * t.v[x] + 5]
  {
    var d: int := t.v[x];
    assert Misc(kind, t, x, 0x29).i == 5 * d;
    var m := BootMemory(kind);
    assert m[5 * d .. 5 * d + 5] == LowFont[5 * d .. 5 * d + 5];
  }

  /** SUPER-CHIP FX30 points I at the 10-byte glyph of digit VX inside the
      high font the constructor copied to `SUPERFONT_START`, for VX ≤ F. */
  lemma HighGlyph(t: State, x: nat)
    requires WellFormed(SuperChip, t) && x < 16 && t.pc >= 2 && t.v[x] < 16
    ensures var r := Misc(SuperChip, t, x, 0x30);
      SuperFontStart <= r.i && r.i + 10 <= SuperFontStart + |HighFont| &&
      BootMemory(SuperChip)[r.i .. r.i + 10] == HighFont[10 * t.v[x] .. 10 * t.v[x] + 10]
  {
    var d: int := t.v[x];
    assert Misc(SuperChip, t, x, 0x30).i == SuperFontStart + 10 * d;
    SliceAt(BootMemory(SuperChip), SuperFontStart, HighFont, 10 * d, 10 * d + 10);
  }

  /** Where `m` holds `src` from `off` on, its slices there are the slices
      of `src`. */
  lemma SliceAt(m: seq<Byte>, off: nat, src: seq<Byte>, a: nat, b: nat)
    requires off + |src| <= |m| && a <= b <= |src|
    requires forall k :: 0 <= k < |src| ==> m[off + k] == src[k]
    ensures m[off + a .. off + b] == src[a .. b]
  {
    forall j | 0 <= j < b - a ensures m[off + a .. off + b][j] == src[a .. b][j] {
      assert m[off + (a + j)] == src[a + j];
    }
  }

  // ---------------------------------------------------------- system ops

  /** SUPER-CHIP 00FE and 00FF change the mode flag and nothing else; the
      buffer is left as it is. */
  lemma ModeSwitch(t: State)
    requires WellFormed(SuperChip, t)
    ensures System(SuperChip, t, 0x00FE) == t.(extended := false)
    ensures System(SuperChip, t, 0x00FF) == t.(extended := true)
  {
    assert (0x00FE / 0x10) % 0x10 == 0xF && 0x00FE % 0x100 == 0xFE;
    assert (0x00FF / 0x10) % 0x10 == 0xF && 0x00FF % 0x100 == 0xFF;
  }

  /** SUPER-CHIP 00E0 clears all 128·64 cells whatever the mode, and asks
      for a redraw. */
  lemma SuperClear(t: State)
    requires WellFormed(SuperChip, t)
    ensures var r := System(SuperChip, t, 0x00E0);
      |r.fb| == SuperCells && (forall p :: 0 <= p < SuperCells ==> !r.fb[p]) && r.redraw
  {
    assert (0x00E0 / 0x10) % 0x10 == 0xE && 0x00E0 % 0x100 == 0xE0;
  }

  /** The interpreters decode family 0 differently: CHIP-8 matches whole
      words, so 01E0 and 02C3 do nothing there, while SUPER-CHIP looks at
      the low byte and bits 4..7, so 01E0 clears the screen and 02C3
      scrolls down by 3. */
  lemma DecodingDiffers(t: State)
    requires WellFormed(Chip8, t) && WellFormed(SuperChip, t.(fb := Blank(SuperCells)))
    ensures System(Chip8, t, 0x01E0) == t && System(Chip8, t, 0x02C3) == t
    ensures var u := t.(fb := Blank(SuperCells));
      System(SuperChip, u, 0x01E0) == Clear(u) &&
      System(SuperChip, u, 0x02C3) == u.(fb := ScrollDown(u.fb, 3, false), redraw := true)
  {
    assert (0x01E0 / 0x10) % 0x10 == 0xE && 0x01E0 % 0x100 == 0xE0;
    assert (0x02C3 / 0x10) % 0x10 == 0xC && 0x02C3 % 0x10 == 3;
  }

  // --------------------------------------------------------------- timers

  /** Both timers tick down modulo 256: a timer at 0 becomes 255 because
      the `< 0` clamp can never fire on an unsigned byte. */
  lemma TimersWrap(s: State)
    requires s.delay == 0 && s.sound == 1
    ensures DecreaseTimers(s) == s.(delay := 255, sound := 0)
  {
  }
}
