/** One CHIP-8 or SUPER-CHIP machine as a value, and `Loop()`,
    `DecreaseTimers()`, the reset of `LoadRom` and the constructor as
    functions of it. `Emulator.Interpreter` performs the same steps in
    place and is proved to agree with these functions.

    Whatever C++ leaves undefined in `Loop()` (an index past an array, a
    shift by 32 or more) is a `Fault` of the state about to step; the step
    functions are defined for the states without one. */
module Machine {
  import opened Decode
  import opened Alu
  import opened Keys
  import opened Display

  /** Which of the two interpreters: they share the state layout and most
      opcodes and differ in decoding, drawing and the extra opcodes. */
  datatype Kind = Chip8 | SuperChip

  /** The fields of `struct Chip8` / `struct SuperChip`. A pixel is `true`
      when lit; `halted` records that 00FD called the exit callback; `rpl`
      is only used by SUPER-CHIP. */
  datatype State = State(
    mem: seq<Byte>,
    v: seq<Byte>,
    i: U16,
    pc: U16,
    fb: seq<bool>,
    delay: Byte,
    sound: Byte,
    key: bv16,
    stack: seq<U16>,
    sp: nat,
    redraw: bool,
    extended: bool,
    rpl: seq<Byte>,
    halted: bool)

  const MemorySize: nat := 4096
  const StackSize: nat := 16
  const RplSize: nat := 8
  /** Where `LoadRom` puts the program and where execution starts. */
  const RomStart: nat := 0x200
  const RomCapacity: nat := 4096 - 0x200
  /** `SUPERFONT_START`: the high font follows the 80-byte low font. */
  const SuperFontStart: nat := 80

  /** Cells of the framebuffer: the 64×32 texture or the 128×64 buffer. */
  function Cells(kind: Kind): nat
  {
    if kind == Chip8 then ChipCells else SuperCells
  }

  /** The array sizes of the state record, a stack pointer that has not run
      past the stack, and extended mode only on SUPER-CHIP. */
  predicate WellFormed(kind: Kind, s: State)
  {
    |s.mem| == MemorySize && |s.v| == 16 && |s.fb| == Cells(kind) &&
    |s.stack| == StackSize && s.sp <= StackSize && |s.rpl| == RplSize &&
    (kind == Chip8 ==> !s.extended)
  }

  /** The 4×5 hexadecimal font the constructors copy to address 0. */
  const LowFont: seq<Byte> := [
    0xF0, 0x90, 0x90, 0x90, 0xF0, 0x20, 0x60, 0x20, 0x20, 0x70,
    0xF0, 0x10, 0xF0, 0x80, 0xF0, 0xF0, 0x10, 0xF0, 0x10, 0xF0,
    0x90, 0x90, 0xF0, 0x10, 0x10, 0xF0, 0x80, 0xF0, 0x10, 0xF0,
    0xF0, 0x80, 0xF0, 0x90, 0xF0, 0xF0, 0x10, 0x20, 0x40, 0x40,
    0xF0, 0x90, 0xF0, 0x90, 0xF0, 0xF0, 0x90, 0xF0, 0x10, 0xF0,
    0xF0, 0x90, 0xF0, 0x90, 0x90, 0xE0, 0x90, 0xE0, 0x90, 0xE0,
    0xF0, 0x80, 0x80, 0x80, 0xF0, 0xE0, 0x90, 0x90, 0x90, 0xE0,
    0xF0, 0x80, 0xF0, 0x80, 0xF0, 0xF0, 0x80, 0xF0, 0x80, 0x80]

  /** The 8×10 font SUPER-CHIP copies to `SUPERFONT_START`. */
  const HighFont: seq<Byte> := [
    0xFF, 0xFF, 0xC3, 0xC3, 0xC3, 0xC3, 0xC3, 0xC3, 0xFF, 0xFF,
    0x18, 0x78, 0x78, 0x18, 0x18, 0x18, 0x18, 0x18, 0xFF, 0xFF,
    0xFF, 0xFF, 0x03, 0x03, 0xFF, 0xFF, 0xC0, 0xC0, 0xFF, 0xFF,
    0xFF, 0xFF, 0x03, 0x03, 0xFF, 0xFF, 0x03, 0x03, 0xFF, 0xFF,
    0xC3, 0xC3, 0xC3, 0xC3, 0xFF, 0xFF, 0x03, 0x03, 0x03, 0x03,
    0xFF, 0xFF, 0xC0, 0xC0, 0xFF, 0xFF, 0x03, 0x03, 0xFF, 0xFF,
    0xFF, 0xFF, 0xC0, 0xC0, 0xFF, 0xFF, 0xC3, 0xC3, 0xFF, 0xFF,
    0xFF, 0xFF, 0x03, 0x03, 0x06, 0x0C, 0x18, 0x18, 0x18, 0x18,
    0xFF, 0xFF, 0xC3, 0xC3, 0xFF, 0xFF, 0xC3, 0xC3, 0xFF, 0xFF,
    0xFF, 0xFF, 0xC3, 0xC3, 0xFF, 0xFF, 0x03, 0x03, 0xFF, 0xFF,
    0x7E, 0xFF, 0xC3, 0xC3, 0xC3, 0xFF, 0xFF, 0xC3, 0xC3, 0xC3,
    0xFC, 0xFC, 0xC3, 0xC3, 0xFC, 0xFC, 0xC3, 0xC3, 0xFC, 0xFC,
    0x3C, 0xFF, 0xC3, 0xC0, 0xC0, 0xC0, 0xC0, 0xC3, 0xFF, 0x3C,
    0xFC, 0xFE, 0xC3, 0xC3, 0xC3, 0xC3, 0xC3, 0xC3, 0xFE, 0xFC,
    0xFF, 0xFF, 0xC0, 0xC0, 0xFF, 0xFF, 0xC0, 0xC0, 0xFF, 0xFF,
    0xFF, 0xFF, 0xC0, 0xC0, 0xFF, 0xFF, 0xC0, 0xC0, 0xC0, 0xC0]

  /** `memcpy(mem + at, src, |src|)`: the bytes of `src` from address
      `at` on, every other byte as it was. */
  function Overlay(mem: seq<Byte>, at: nat, src: seq<Byte>): (m: seq<Byte>)
    requires at + |src| <= |mem|
    ensures |m| == |mem|
    ensures forall k :: 0 <= k < |src| ==> m[at + k] == src[k]
    ensures forall k :: 0 <= k < |mem| && !(at <= k < at + |src|) ==> m[k] == mem[k]
  {
    seq(|mem|, k requires 0 <= k < |mem| => if at <= k < at + |src| then src[k - at] else mem[k])
  }

  /** Memory after the constructor: the low font at 0, on SUPER-CHIP the
      high font at 80, zero elsewhere. */
  function BootMemory(kind: Kind): (m: seq<Byte>)
    ensures |m| == MemorySize
    ensures forall k :: 0 <= k < |LowFont| ==> m[k] == LowFont[k]
    ensures kind == SuperChip ==> forall k :: 0 <= k < |HighFont| ==> m[SuperFontStart + k] == HighFont[k]
    ensures forall k :: (if kind == SuperChip then 240 else 80) <= k < MemorySize ==> m[k] == 0
  {
    var low := Overlay(seq(MemorySize, _ => 0), 0, LowFont);
    if kind == SuperChip then Overlay(low, SuperFontStart, HighFont) else low
  }

  /** The machine the constructor leaves: the fonts in memory and every
      other field zero. Both constructors only copy the fonts (SUPER-CHIP's
      extended mode starts off by its member initializer). The host declares
      its CHIP-8 interpreter as a global object, whose other fields start at
      zero; a SUPER-CHIP object is taken to start at zero in the same way. */
  function PowerOn(kind: Kind): (s: State)
    ensures WellFormed(kind, s)
  {
    State(BootMemory(kind), seq(16, _ => 0), 0, 0, Blank(Cells(kind)), 0, 0, 0,
          seq(StackSize, _ => 0), 0, false, false, seq(RplSize, _ => 0), false)
  }

  /** Memory after `file.read` put the ROM's bytes at 0x200; `None` is a
      file that did not open, which leaves memory alone. */
  function ReadRom(mem: seq<Byte>, rom: Option<seq<Byte>>): (m: seq<Byte>)
    requires |mem| == MemorySize
    requires rom.Some? ==> |rom.value| <= RomCapacity
    ensures |m| == MemorySize
  {
    if rom.Some? then Overlay(mem, RomStart, rom.value) else mem
  }

  /** The reset part of `LoadRom`: PC = 0x200, V0..VE = 0 (the loop stops
      before VF), the screen blank, SP = 0, on SUPER-CHIP extended mode
      off, both timers 0. */
  function Reset(kind: Kind, s: State): (r: State)
    requires WellFormed(kind, s)
    ensures WellFormed(kind, r)
  {
    s.(pc := RomStart, v := seq(16, k requires 0 <= k < 16 => if k < 15 then 0 else s.v[k]),
       fb := Blank(|s.fb|), sp := 0,
       extended := if kind == SuperChip then false else s.extended, delay := 0, sound := 0)
  }

  /** `LoadRom`: the ROM read to 0x200, then the reset. I, VF, the stack
      slots, the key latch and the redraw flag keep their values. */
  function Load(kind: Kind, s: State, rom: Option<seq<Byte>>): (r: State)
    requires WellFormed(kind, s)
    requires rom.Some? ==> |rom.value| <= RomCapacity
    ensures WellFormed(kind, r)
    ensures r.pc == RomStart && r.sp == 0 && r.delay == 0 && r.sound == 0 && !r.extended
    ensures forall k :: 0 <= k < 15 ==> r.v[k] == 0
    ensures r.v[VF] == s.v[VF] && r.i == s.i && r.stack == s.stack && r.key == s.key
    ensures forall p :: 0 <= p < |r.fb| ==> !r.fb[p]
    ensures rom.Some? ==> forall k :: 0 <= k < |rom.value| ==> r.mem[RomStart + k] == rom.value[k]
    ensures forall k :: 0 <= k < MemorySize && (rom.None? || !(RomStart <= k < RomStart + |rom.value|)) ==>
      r.mem[k] == s.mem[k]
  {
    Reset(kind, s.(mem := ReadRom(s.mem, rom)))
  }

  /** `DecreaseTimers()`: both timers tick down modulo 256. */
  function DecreaseTimers(s: State): (r: State)
    ensures (r.delay as int + 1) % 256 == s.delay && (r.sound as int + 1) % 256 == s.sound
    ensures r == s.(delay := r.delay, sound := r.sound)
  {
    s.(delay := Tick(s.delay), sound := Tick(s.sound))
  }

  // ---------------------------------------------------------------- faults

  /** Undefined behaviour of the source, named. */
  datatype Fault =
    | PcOutOfRange      // the fetch reads past memory
    | StackOverflow     // 2NNN with all 16 slots in use
    | StackUnderflow    // 00EE with an empty stack
    | MemoryOutOfRange  // DXYN, FX33, FX55 or FX65 reaches past memory
    | PixelOutOfRange   // a CHIP-8 sprite bit lands past the texture
    | KeyIndexTooLarge  // EX9E/EXA1 shifts the latch by 32 or more

  /** The opcode at PC, high byte first. */
  function Opcode(s: State): U16
    requires |s.mem| == MemorySize && s.pc + 1 < MemorySize
  {
    Fetch(s.mem[s.pc], s.mem[s.pc + 1])
  }

  /** What `Loop()` does before dispatching: clear the redraw flag and step
      PC past the two opcode bytes. */
  function Fetched(s: State): State
    requires s.pc + 1 < MemorySize
  {
    s.(redraw := false, pc := s.pc + 2)
  }

  /** 00EE as each interpreter decodes it: CHIP-8 compares the whole word,
      SUPER-CHIP only the low byte. */
  predicate IsReturn(kind: Kind, op: U16)
  {
    if kind == Chip8 then op == 0x00EE else op % 0x100 == 0xEE
  }

  /** The bytes DXYN reads from I: N rows, or 32 for a SUPER-CHIP 16×16
      sprite (N = 0 in extended mode). */
  function RowBytes(kind: Kind, s: State, n: nat): nat
  {
    if kind == SuperChip && n == 0 && s.extended then 32 else n
  }

  /** The sprite rows of DXYN and whether they form a 16×16 sprite. A
      sprite of no rows reads no memory, wherever I points. */
  function Rows(kind: Kind, s: State, n: nat): (rows: seq<Byte>)
    requires |s.mem| == MemorySize
    requires RowBytes(kind, s, n) == 0 || s.i + RowBytes(kind, s, n) <= MemorySize
    ensures |rows| == RowBytes(kind, s, n)
    ensures forall k :: 0 <= k < |rows| ==> rows[k] == s.mem[s.i + k]
  {
    if RowBytes(kind, s, n) == 0 then [] else s.mem[s.i .. s.i + RowBytes(kind, s, n)]
  }

  function Wide(kind: Kind, s: State, n: nat): bool
  {
    RowBytes(kind, s, n) == 32
  }

  function Place(kind: Kind, s: State, x: nat, y: nat): Placement
    requires |s.v| == 16 && x < 16 && y < 16
  {
    if kind == Chip8 then Plain(s.v[x], s.v[y]) else Wrapped(s.v[x], s.v[y], s.extended)
  }

  /** Every set bit of a CHIP-8 sprite lands inside the 64×32 texture. */
  predicate PixelsInRange(s: State, x: nat, y: nat, n: nat)
    requires |s.mem| == MemorySize && |s.v| == 16 && x < 16 && y < 16
    requires n == 0 || s.i + n <= MemorySize
  {
    forall dx, dy :: 0 <= dx < 8 && 0 <= dy < n && BitSet(s.mem[s.i + dy], dx) ==>
      At(Plain(s.v[x], s.v[y]), dx, dy) < ChipCells
  }

  /** The undefined behaviour an opcode would meet in a fetched state. */
  function OpFault(kind: Kind, t: State, op: U16): Option<Fault>
    requires WellFormed(kind, t)
  {
    var x, y, n, nn := RegX(op), RegY(op), Nibble(op), Imm8(op);
    match Family(op)
    case 0x0 => if IsReturn(kind, op) && t.sp == 0 then Some(StackUnderflow) else None
    case 0x2 => if t.sp >= StackSize then Some(StackOverflow) else None
    case 0xD =>
      if RowBytes(kind, t, n) > 0 && t.i + RowBytes(kind, t, n) > MemorySize then Some(MemoryOutOfRange)
      else if kind == Chip8 && !PixelsInRange(t, x, y, n) then Some(PixelOutOfRange)
      else None
    case 0xE => if (nn == 0x9E || nn == 0xA1) && t.v[x] >= 32 then Some(KeyIndexTooLarge) else None
    case 0xF =>
      if nn == 0x33 && t.i + 3 > MemorySize then Some(MemoryOutOfRange)
      else if (nn == 0x55 || nn == 0x65) && t.i + x + 1 > MemorySize then Some(MemoryOutOfRange)
      else None
    case _ => None
  }

  /** The undefined behaviour the next `Loop()` would meet, if any. */
  function FaultOf(kind: Kind, s: State): Option<Fault>
    requires WellFormed(kind, s)
  {
    if s.pc + 1 >= MemorySize then Some(PcOutOfRange) else OpFault(kind, Fetched(s), Opcode(s))
  }

  // ------------------------------------------------------------- execution

  /** 3XNN, 4XNN, 5XY0, 9XY0, EX9E, EXA1: skip the next instruction. */
  function SkipIf(t: State, cond: bool): State
    requires t.pc + 2 < 0x1_0000
  {
    if cond then t.(pc := t.pc + 2) else t
  }

  /** 2NNN: push the return address, jump. */
  function Call(t: State, nnn: nat): (r: State)
    requires |t.stack| == StackSize && t.sp < StackSize && nnn < 0x1000
    ensures |r.stack| == StackSize && r.sp == t.sp + 1 && r.stack[t.sp] == t.pc && r.pc == nnn
    ensures r == t.(stack := r.stack, sp := r.sp, pc := r.pc)
    ensures forall k :: 0 <= k < StackSize && k != t.sp ==> r.stack[k] == t.stack[k]
  {
    t.(stack := t.stack[t.sp := t.pc], sp := t.sp + 1, pc := nnn)
  }

  /** 00EE: pop the return address. */
  function Return(t: State): (r: State)
    requires |t.stack| == StackSize && 0 < t.sp <= StackSize
    ensures r.sp == t.sp - 1 && r.pc == t.stack[t.sp - 1]
    ensures r == t.(sp := r.sp, pc := r.pc)
  {
    t.(sp := t.sp - 1, pc := t.stack[t.sp - 1])
  }

  /** 00E0: every cell of the buffer off (all 128·64 on SUPER-CHIP,
      whatever the mode). */
  function Clear(t: State): (r: State)
    ensures |r.fb| == |t.fb| && forall p :: 0 <= p < |r.fb| ==> !r.fb[p]
    ensures r.redraw && r == t.(fb := r.fb, redraw := true)
  {
    t.(fb := Blank(|t.fb|), redraw := true)
  }

  /** The opcodes with family 0. CHIP-8 knows 00E0 and 00EE only, as whole
      words. SUPER-CHIP first tests bits 4..7 for 00CN, then switches on the
      low byte. Anything else does nothing. */
  function System(kind: Kind, t: State, op: U16): (r: State)
    requires WellFormed(kind, t) && Family(op) == 0 && OpFault(kind, t, op).None?
    ensures WellFormed(kind, r)
  {
    if kind == Chip8 then
      if op == 0x00E0 then Clear(t)
      else if op == 0x00EE then Return(t)
      else t
    else if (op / 0x10) % 0x10 == 0xC then
      t.(fb := ScrollDown(t.fb, Nibble(op), t.extended), redraw := true)
    else
      match op % 0x100
      case 0xE0 => Clear(t)
      case 0xEE => Return(t)
      case 0xFB => t.(fb := ScrollRight(t.fb, t.extended), redraw := true)
      case 0xFC => t.(fb := ScrollLeft(t.fb, t.extended), redraw := true)
      case 0xFD => t.(halted := true)
      case 0xFE => t.(extended := false)
      case 0xFF => t.(extended := true)
      case _ => t
  }

  /** 8XYN on the register file. */
  function Arith(v: seq<Byte>, x: nat, y: nat, n: nat): (r: seq<Byte>)
    requires |v| == 16 && x < 16 && y < 16
    ensures |r| == 16
  {
    match n
    case 0x0 => v[x := v[y]]
    case 0x1 => v[x := Or(v[x], v[y])]
    case 0x2 => v[x := And(v[x], v[y])]
    case 0x3 => v[x := Xor(v[x], v[y])]
    case 0x4 => AddRegs(v, x, y)
    case 0x5 => SubRegs(v, x, y)
    case 0x6 => ShrRegs(v, x)
    case 0x7 => SubNRegs(v, x, y)
    case 0xE => ShlRegs(v, x)
    case _ => v
  }

  /** DXYN: XOR the sprite at (VX, VY) into the buffer; VF is 1 iff a set
      bit met a lit pixel. The coordinates are read before VF is cleared. */
  function Draw(kind: Kind, t: State, x: nat, y: nat, n: nat): (r: State)
    requires WellFormed(kind, t) && x < 16 && y < 16 && n < 16
    requires RowBytes(kind, t, n) == 0 || t.i + RowBytes(kind, t, n) <= MemorySize
    ensures WellFormed(kind, r)
    ensures r == t.(fb := r.fb, v := r.v, redraw := true)
    ensures r.v == t.v[VF := r.v[VF]] && r.v[VF] <= 1
  {
    var hit := Sprite(Place(kind, t, x, y), Rows(kind, t, n), Wide(kind, t, n));
    t.(fb := Toggle(t.fb, hit), v := t.v[VF := if Collision(t.fb, hit) then 1 else 0], redraw := true)
  }

  /** EX9E / EXA1: skip if key VX is (not) down; other EX__ do nothing. */
  function KeySkip(t: State, x: nat, nn: Byte): State
    requires |t.v| == 16 && x < 16 && t.pc + 2 < 0x1_0000
    requires (nn == 0x9E || nn == 0xA1) ==> t.v[x] < 32
  {
    if nn == 0x9E then SkipIf(t, KeyTest(t.key, t.v[x]))
    else if nn == 0xA1 then SkipIf(t, !KeyTest(t.key, t.v[x]))
    else t
  }

  /** FX0A: with no key down, step PC back onto this instruction; else put
      the lowest key down into VX, scanning keys 0..14 on CHIP-8 and 0..15
      on SUPER-CHIP. A CHIP-8 latch holding only key F leaves VX alone. */
  function WaitKey(kind: Kind, t: State, x: nat): (r: State)
    requires |t.v| == 16 && x < 16 && t.pc >= 2
    ensures |r.v| == 16
  {
    if t.key == 0 then t.(pc := t.pc - 2)
    else match FirstKey(t.key, 0, if kind == Chip8 then 15 else 16)
      case Some(k) => t.(v := t.v[x := k])
      case None => t
  }

  /** FX1E: I += VX as a 16-bit sum, then VF = 1 iff I is past 0xFFF. */
  function AddIndex(t: State, x: nat): (r: State)
    requires |t.v| == 16 && x < 16
    ensures r.i == (t.i as int + t.v[x]) % 0x1_0000
    ensures r == t.(i := r.i, v := r.v) && |r.v| == 16
    ensures forall k :: 0 <= k < 16 && k != VF ==> r.v[k] == t.v[k]
    ensures r.v[VF] == 1 <==> 0x1000 <= t.i as int + t.v[x] < 0x1_0000
    ensures r.v[VF] <= 1
  {
    var i := (t.i as int + t.v[x]) % 0x1_0000;
    t.(i := i, v := t.v[VF := if i > 0xFFF then 1 else 0])
  }

  /** FX33: the decimal digits of VX at I, I + 1, I + 2. */
  function StoreBcd(t: State, x: nat): (r: State)
    requires |t.mem| == MemorySize && |t.v| == 16 && x < 16 && t.i + 3 <= MemorySize
    ensures |r.mem| == MemorySize
  {
    var d := Bcd(t.v[x]);
    t.(mem := t.mem[t.i := d.0][t.i + 1 := d.1][t.i + 2 := d.2])
  }

  /** FX55: V0..VX to memory at I, then I += X + 1. */
  function StoreRegs(t: State, x: nat): (r: State)
    requires |t.mem| == MemorySize && |t.v| == 16 && x < 16 && t.i + x + 1 <= MemorySize
    ensures |r.mem| == MemorySize
  {
    t.(mem := seq(MemorySize, k requires 0 <= k < MemorySize => if t.i <= k <= t.i + x then t.v[k - t.i] else t.mem[k]),
       i := t.i + x + 1)
  }

  /** FX65: V0..VX from memory at I, then I += X + 1. */
  function LoadRegs(t: State, x: nat): (r: State)
    requires |t.mem| == MemorySize && |t.v| == 16 && x < 16 && t.i + x + 1 <= MemorySize
    ensures |r.v| == 16
  {
    t.(v := seq(16, k requires 0 <= k < 16 => if k <= x then t.mem[t.i + k] else t.v[k]), i := t.i + x + 1)
  }

  /** The X of FX75/FX85 after `if (x > 7) x = 7;`. */
  function RplCount(x: nat): nat
  {
    if x > 7 then 7 else x
  }

  /** FX75: V0..V(X-1) to the RPL flags, X clamped to 7. */
  function SaveFlags(t: State, x: nat): (r: State)
    requires |t.v| == 16 && |t.rpl| == RplSize
    ensures |r.rpl| == RplSize
  {
    var c := RplCount(x);
    t.(rpl := seq(RplSize, k requires 0 <= k < RplSize => if k < c then t.v[k] else t.rpl[k]))
  }

  /** FX85: V0..VX from the RPL flags, X clamped to 7. */
  function LoadFlags(t: State, x: nat): (r: State)
    requires |t.v| == 16 && |t.rpl| == RplSize
    ensures |r.v| == 16
  {
    var c := RplCount(x);
    t.(v := seq(16, k requires 0 <= k < 16 => if k <= c then t.rpl[k] else t.v[k]))
  }

  /** The opcodes with family F. FX30, FX75 and FX85 exist only on
      SUPER-CHIP; anything else does nothing. */
  function Misc(kind: Kind, t: State, x: nat, nn: Byte): (r: State)
    requires WellFormed(kind, t) && x < 16 && t.pc >= 2
    requires nn == 0x33 ==> t.i + 3 <= MemorySize
    requires nn == 0x55 || nn == 0x65 ==> t.i + x + 1 <= MemorySize
    ensures WellFormed(kind, r)
  {
    match nn
    case 0x07 => t.(v := t.v[x := t.delay])
    case 0x0A => WaitKey(kind, t, x)
    case 0x15 => t.(delay := t.v[x])
    case 0x18 => t.(sound := t.v[x])
    case 0x1E => AddIndex(t, x)
    case 0x29 => t.(i := t.v[x] as int * 5)
    case 0x30 => if kind == SuperChip then t.(i := t.v[x] as int * 10 + SuperFontStart) else t
    case 0x33 => StoreBcd(t, x)
    case 0x55 => StoreRegs(t, x)
    case 0x65 => LoadRegs(t, x)
    case 0x75 => if kind == SuperChip then SaveFlags(t, x) else t
    case 0x85 => if kind == SuperChip then LoadFlags(t, x) else t
    case _ => t
  }

  /** The dispatch of `Loop()` on a fetched state. */
  function Exec(kind: Kind, t: State, op: U16, rnd: nat): (r: State)
    requires WellFormed(kind, t) && 2 <= t.pc <= MemorySize
    requires OpFault(kind, t, op).None?
    ensures WellFormed(kind, r)
  {
    var x, y, n, nn := RegX(op), RegY(op), Nibble(op), Imm8(op);
    match Family(op)
    case 0x0 => System(kind, t, op)
    case 0x1 => t.(pc := Addr(op))
    case 0x2 => Call(t, Addr(op))
    case 0x3 => SkipIf(t, t.v[x] == nn)
    case 0x4 => SkipIf(t, t.v[x] != nn)
    case 0x5 => SkipIf(t, t.v[x] == t.v[y])
    case 0x6 => t.(v := t.v[x := nn])
    case 0x7 => t.(v := t.v[x := (t.v[x] as int + nn) % 0x100])
    case 0x8 => t.(v := Arith(t.v, x, y, n))
    case 0x9 => SkipIf(t, t.v[x] != t.v[y])
    case 0xA => t.(i := Addr(op))
    case 0xB => t.(pc := Addr(op) + t.v[0])
    case 0xC => t.(v := t.v[x := RandomBits(rnd, nn as bv8) as int])
    case 0xD => Draw(kind, t, x, y, n)
    case 0xE => KeySkip(t, x, nn)
    case 0xF => Misc(kind, t, x, nn)
  }

  /** One `Loop()` on a state without a fault; `rnd` is the value `rand()`
      returns if the opcode is CXNN. */
  function Run(kind: Kind, s: State, rnd: nat): (r: State)
    requires WellFormed(kind, s) && FaultOf(kind, s).None?
    ensures WellFormed(kind, r)
  {
    Exec(kind, Fetched(s), Opcode(s), rnd)
  }

  /** The outcome of one `Loop()`: the next state, or the fault met. */
  datatype Outcome = Ran(next: State) | Faulted(fault: Fault)

  function Next(kind: Kind, s: State, rnd: nat): (o: Outcome)
    requires WellFormed(kind, s)
    ensures o.Faulted? <==> FaultOf(kind, s).Some?
    ensures o.Ran? ==> WellFormed(kind, o.next)
  {
    match FaultOf(kind, s)
    case Some(f) => Faulted(f)
    case None => Ran(Run(kind, s, rnd))
  }
}
