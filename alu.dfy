/** The register-file arithmetic of opcodes 8XY4..8XYE, BCD (FX33), the
    masked random byte (CXNN) and the timer tick. Each 8XY_ operation is a
    function of the whole register file that performs the source's writes
    in the source's order, so that X = F or Y = F behaves as in `Loop()`.
    `U8` arithmetic wraps: `Vx += Vy` is `(Vx + Vy) % 256`. */
module Alu {
  import opened Decode

  /** Index of VF, the flag register. */
  const VF: nat := 0xF

  /** 8XY4: `Vx += Vy; VF = 0; if (Vy > 0xFF - Vx) VF = 1;` */
  function AddRegs(v: seq<Byte>, x: nat, y: nat): (r: seq<Byte>)
    requires |v| == 16 && x < 16 && y < 16
    ensures |r| == 16
  {
    var v1 := v[x := (v[x] as int + v[y]) % 0x100];
    var v2 := v1[VF := 0];
    if v2[y] > 0xFF - v2[x] then v2[VF := 1] else v2
  }

  /** 8XY5: `Vx -= Vy; VF = 1; if (Vy > 0xFF - Vx) VF = 0;` */
  function SubRegs(v: seq<Byte>, x: nat, y: nat): (r: seq<Byte>)
    requires |v| == 16 && x < 16 && y < 16
    ensures |r| == 16
  {
    var v1 := v[x := (v[x] as int - v[y]) % 0x100];
    var v2 := v1[VF := 1];
    if v2[y] > 0xFF - v2[x] then v2[VF := 0] else v2
  }

  /** 8XY7: `Vx = Vy - Vx; VF = 1; if (Vy < Vx) VF = 0;` */
  function SubNRegs(v: seq<Byte>, x: nat, y: nat): (r: seq<Byte>)
    requires |v| == 16 && x < 16 && y < 16
    ensures |r| == 16
  {
    var v1 := v[x := (v[y] as int - v[x]) % 0x100];
    var v2 := v1[VF := 1];
    if v2[y] < v2[x] then v2[VF := 0] else v2
  }

  /** 8XY6: `VF = Vx & 1; Vx = Vx >> 1;` (Y is ignored). */
  function ShrRegs(v: seq<Byte>, x: nat): (r: seq<Byte>)
    requires |v| == 16 && x < 16
    ensures |r| == 16
  {
    var v1 := v[VF := v[x] % 2];
    v1[x := v1[x] / 2]
  }

  /** 8XYE: `VF = Vx >> 7; Vx = Vx << 1;` (Y is ignored; the shifted value
      is truncated to a byte on assignment). */
  function ShlRegs(v: seq<Byte>, x: nat): (r: seq<Byte>)
    requires |v| == 16 && x < 16
    ensures |r| == 16
  {
    var v1 := v[VF := v[x] / 0x80];
    v1[x := (v1[x] as int * 2) % 0x100]
  }

  /** With X, Y other than F, 8XY4 leaves the sum modulo 256 in Vx, and VF
      is 1 exactly when Vy exceeds 255 minus that WRAPPED sum: for distinct
      X and Y, when the true sum fits in a byte this is `Vx + 2*Vy > 255`,
      otherwise `Vx + 2*Vy > 511`; for X = Y the test reads the new Vx as
      Vy and VF is 1 iff the new Vx is at least 0x80. No other register
      changes. */
  lemma AddFlag(v: seq<Byte>, x: nat, y: nat)
    requires |v| == 16 && x < VF && y < VF
    ensures AddRegs(v, x, y)[x] == (v[x] as int + v[y]) % 256
    ensures var a, b := v[x] as int, v[y] as int;
      x != y ==>
        AddRegs(v, x, y)[VF] == (if (if a + b < 256 then a + 2 * b > 255 else a + 2 * b > 511) then 1 else 0)
    ensures x == y ==> AddRegs(v, x, y)[VF] == (if AddRegs(v, x, y)[x] >= 0x80 then 1 else 0)
    ensures forall k :: 0 <= k < 16 && k != x && k != VF ==> AddRegs(v, x, y)[k] == v[k]
  {
    var a, b := v[x] as int, v[y] as int;
    if a + b < 256 {
      assert AddRegs(v, x, y)[x] == a + b;
    } else {
      assert AddRegs(v, x, y)[x] == a + b - 256;
    }
  }

  /** The 8XY4 flag is not the carry of the addition: 0x80 + 0x50 does not
      overflow yet sets VF, and 0xFF + 0x01 overflows yet clears it. */
  lemma AddFlagIsNotCarry(v: seq<Byte>)
    requires |v| == 16
    ensures v[0] == 0x80 && v[1] == 0x50 ==> AddRegs(v, 0, 1)[VF] == 1
    ensures v[0] == 0xFF && v[1] == 0x01 ==> AddRegs(v, 0, 1)[VF] == 0
  {
  }

  /** Adding into VF, or adding VF, always leaves VF = 0: the flag test
      reads the VF that was just cleared. */
  lemma AddFlagOperand(v: seq<Byte>, x: nat, y: nat)
    requires |v| == 16 && x < 16 && y < 16
    requires x == VF || y == VF
    ensures AddRegs(v, x, y)[VF] == 0
  {
  }

  /** With X, Y other than F, 8XY5 leaves the difference modulo 256 in Vx
      and, although it tests the wrapped result, VF is exactly "no borrow":
      1 iff Vx >= Vy. No other register changes. */
  lemma SubFlag(v: seq<Byte>, x: nat, y: nat)
    requires |v| == 16 && x < VF && y < VF
    ensures SubRegs(v, x, y)[x] == (v[x] as int - v[y]) % 256
    ensures SubRegs(v, x, y)[VF] == if v[x] >= v[y] then 1 else 0
    ensures forall k :: 0 <= k < 16 && k != x && k != VF ==> SubRegs(v, x, y)[k] == v[k]
  {
  }

  /** 8XY5 with VF as an operand: with Y = F the flag test reads the VF
      just set to 1, so VF ends 0 iff the new Vx is 0xFF; with X = F the
      difference is overwritten and VF ends 0 iff Vy is 0xFF. */
  lemma SubFlagOperand(v: seq<Byte>, x: nat, y: nat)
    requires |v| == 16 && x < 16 && y < 16
    ensures x != VF && y == VF ==>
      SubRegs(v, x, y)[VF] == (if (v[x] as int - v[VF]) % 256 == 0xFF then 0 else 1)
    ensures x == VF && y != VF ==>
      SubRegs(v, x, y)[VF] == (if v[y] == 0xFF then 0 else 1)
  {
  }

  /** With X, Y other than F, 8XY7 leaves Vy - Vx modulo 256 in Vx and sets
      VF to "no borrow": 1 iff Vy >= Vx. No other register changes. */
  lemma SubNFlag(v: seq<Byte>, x: nat, y: nat)
    requires |v| == 16 && x < VF && y < VF
    ensures SubNRegs(v, x, y)[x] == (v[y] as int - v[x]) % 256
    ensures SubNRegs(v, x, y)[VF] == if v[y] >= v[x] then 1 else 0
    ensures forall k :: 0 <= k < 16 && k != x && k != VF ==> SubNRegs(v, x, y)[k] == v[k]
  {
  }

  /** 8XY6 and 8XYE: for X other than F, Vx loses the bit shifted out and
      VF receives it, so `2 * Vx' + VF == Vx` after a right shift and
      `Vx' + 256 * VF == 2 * Vx` after a left shift. For X = F the shift is
      applied to the flag just written, so 8FY6 always leaves VF = 0 and
      8FYE leaves 0 or 2. */
  lemma ShiftFlags(v: seq<Byte>, x: nat)
    requires |v| == 16 && x < 16
    ensures x != VF ==> 2 * ShrRegs(v, x)[x] as int + ShrRegs(v, x)[VF] == v[x] && ShrRegs(v, x)[VF] <= 1
    ensures x != VF ==> ShlRegs(v, x)[x] as int + 256 * (ShlRegs(v, x)[VF] as int) == 2 * (v[x] as int) && ShlRegs(v, x)[VF] <= 1
    ensures x == VF ==> ShrRegs(v, x)[VF] == 0
    ensures x == VF ==> ShlRegs(v, x)[VF] == (if v[VF] >= 0x80 then 2 else 0)
  {
  }

  /** FX33: hundreds, tens and ones of a byte, computed as the source does
      (`ones = n % 10; n /= 10; tens = n % 10; hundreds = n / 10;`). The
      three digits are decimal digits and recompose the byte. */
  function Bcd(n: Byte): (d: (Byte, Byte, Byte))
    ensures d.0 <= 2 && d.1 <= 9 && d.2 <= 9
    ensures 100 * d.0 as int + 10 * d.1 + d.2 == n
  {
    var ones := n % 10;
    var rest := n / 10;
    var tens := rest % 10;
    var hundreds := rest / 10;
    (hundreds, tens, ones)
  }

  /** CXNN on bits: `(rand() % 0xFF) & NN` for a `rand()` result `rnd`. The
      byte has no bit outside NN and is never 0xFF, since `% 0xFF` yields
      0..254. */
  function RandomBits(rnd: nat, nn: bv8): (r: bv8)
    ensures r & !nn == 0
    ensures r != 0xFF
  {
    ((rnd % 0xFF) as bv8) & nn
  }

  /** One tick of an 8-bit timer: `--t`. The guard `if (t < 0) t = 0;`
      that follows it in the source can never hold for an unsigned byte and
      has no counterpart here. The result is the predecessor modulo 256, so
      a timer at 0 becomes 255 instead of staying at 0. */
  function Tick(t: Byte): (r: Byte)
    ensures (r as int + 1) % 256 == t
    ensures t == 0 ==> r == 0xFF
  {
    (t as int - 1) % 0x100
  }
}
