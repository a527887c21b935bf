/** Value types shared by both interpreters and the decoding of a 16-bit
    instruction word into the nibble, byte and address fields that the
    opcode dispatch of `Loop()` extracts with masks and shifts. Unsigned
    values are integers in their range; a mask with 0x0F00 followed by a
    shift by 8 is written as division and remainder by powers of two. */
module Decode {

  /** An unsigned 8-bit cell (`U8`): memory bytes, V0..VF, the timers. */
  type Byte = x: int | 0 <= x < 0x100

  /** An unsigned 16-bit value (`U16`): the instruction word, I, PC and the
      stack slots. */
  type U16 = x: int | 0 <= x < 0x1_0000

  datatype Option<T> = None | Some(value: T)

  /** The instruction at a byte pair, `(mem[PC] << 8) | mem[PC + 1]`: the
      first byte is the high byte. */
  function Fetch(hi: Byte, lo: Byte): (op: U16)
    ensures op / 0x100 == hi && op % 0x100 == lo
  {
    hi * 0x100 + lo
  }

  /** `OpCode & 0xF000`, as the top nibble. */
  function Family(op: U16): (f: nat)
    ensures f < 16
  {
    op / 0x1000
  }

  /** `(OpCode & 0x0F00) >> 8`: the X register index. */
  function RegX(op: U16): (x: nat)
    ensures x < 16
  {
    (op / 0x100) % 0x10
  }

  /** `(OpCode & 0x00F0) >> 4`: the Y register index. */
  function RegY(op: U16): (y: nat)
    ensures y < 16
  {
    (op / 0x10) % 0x10
  }

  /** `OpCode & 0x000F`: the low nibble N. */
  function Nibble(op: U16): (n: nat)
    ensures n < 16
  {
    op % 0x10
  }

  /** `OpCode & 0x00FF`: the low byte NN. */
  function Imm8(op: U16): Byte
  {
    op % 0x100
  }

  /** `OpCode & 0x0FFF`: the 12-bit address NNN. */
  function Addr(op: U16): (a: nat)
    ensures a < 0x1000
  {
    op % 0x1000
  }

  /** The instruction word with the given four nibbles, most significant first. */
  function Encode(f: nat, x: nat, y: nat, n: nat): U16
    requires f < 16 && x < 16 && y < 16 && n < 16
  {
    f * 0x1000 + x * 0x100 + y * 0x10 + n
  }

  /** Quotient and remainder of q·m + r by m, for the nibble and byte
      strides the decoder uses. */
  lemma DivModUnique(q: nat, r: nat, m: nat)
    requires m == 0x10 || m == 0x100 || m == 0x1000
    requires r < m
    ensures (q * m + r) / m == q && (q * m + r) % m == r
  {
    if m == 0x10 {} else if m == 0x100 {} else {}
  }

  /** Decoding recovers the four nibbles an instruction was assembled from,
      and NN and NNN are its low two and three nibbles. */
  lemma DecodeEncode(f: nat, x: nat, y: nat, n: nat)
    requires f < 16 && x < 16 && y < 16 && n < 16
    ensures Family(Encode(f, x, y, n)) == f
    ensures RegX(Encode(f, x, y, n)) == x
    ensures RegY(Encode(f, x, y, n)) == y
    ensures Nibble(Encode(f, x, y, n)) == n
    ensures Imm8(Encode(f, x, y, n)) == y * 0x10 + n
    ensures Addr(Encode(f, x, y, n)) == x * 0x100 + y * 0x10 + n
  {
    var op := Encode(f, x, y, n);
    assert op == f * 0x1000 + (x * 0x100 + y * 0x10 + n);
    DivModUnique(f, x * 0x100 + y * 0x10 + n, 0x1000);
    assert op == (f * 0x10 + x) * 0x100 + (y * 0x10 + n);
    DivModUnique(f * 0x10 + x, y * 0x10 + n, 0x100);
    DivModUnique(f, x, 0x10);
    assert op == (f * 0x100 + x * 0x10 + y) * 0x10 + n;
    DivModUnique(f * 0x100 + x * 0x10 + y, n, 0x10);
    assert f * 0x100 + x * 0x10 + y == (f * 0x10 + x) * 0x10 + y;
    DivModUnique(f * 0x10 + x, y, 0x10);
  }

  /** Every instruction word is the encoding of its own four nibbles. */
  lemma EncodeDecode(op: U16)
    ensures Encode(Family(op), RegX(op), RegY(op), Nibble(op)) == op
  {
    var a := op / 0x10;
    var b := a / 0x10;
    assert op == a * 0x10 + Nibble(op);
    assert a == b * 0x10 + RegY(op);
    assert b == op / 0x100;
    assert b == Family(op) * 0x10 + RegX(op);
  }

  /** Sprite bit `dx` of a row byte, most significant bit first:
      `sprite & (0x80 >> x)`. */
  predicate BitSet(b: Byte, dx: int)
    requires 0 <= dx < 8
  {
    (b as bv8) & (0x80 >> dx) != 0
  }

  /** Bit-wise or, and, exclusive or of two bytes (8XY1, 8XY2, 8XY3). */
  function Or(a: Byte, b: Byte): Byte { ((a as bv8) | (b as bv8)) as Byte }
  function And(a: Byte, b: Byte): Byte { ((a as bv8) & (b as bv8)) as Byte }
  function Xor(a: Byte, b: Byte): Byte { ((a as bv8) ^ (b as bv8)) as Byte }
}
