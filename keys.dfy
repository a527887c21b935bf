/** The 16-bit key latch `m_Key` (bit k set = key k down) as the
    interpreters read it: the bit test of EX9E/EXA1 and the scan of FX0A. */
module Keys {
  import opened Decode

  /** Key k (0..F) is down: `((m_Key >> k) & 1) == 1`. */
  predicate KeyDown(latch: bv16, k: int)
    requires 0 <= k < 16
  {
    (latch >> k) & 1 == 1
  }

  /** EX9E/EXA1: `(m_Key >> Vx) & 1`. The latch is promoted to a 32-bit
      `int` before the shift, so the shift is defined for Vx < 32 and a Vx
      in 16..31 shifts every key out: such a key is never down. */
  function KeyTest(latch: bv16, vx: Byte): (down: bool)
    requires vx < 32
    ensures down <==> vx < 16 && KeyDown(latch, vx)
  {
    ((latch as bv32) >> vx) & 1 != 0
  }

  /** The key FX0A stores: the first k in `from .. limit - 1` whose bit is
      set, scanning upwards as the source's `for` loop does. */
  function FirstKey(latch: bv16, from: nat, limit: nat): (r: Option<nat>)
    requires limit <= 16
    ensures r.Some? ==> from <= r.value < limit && KeyDown(latch, r.value)
    ensures r.Some? ==> forall k :: from <= k < r.value ==> !KeyDown(latch, k)
    ensures r.None? <==> forall k :: from <= k < limit ==> !KeyDown(latch, k)
    decreases limit - from
  {
    if from >= limit then None
    else if KeyDown(latch, from) then Some(from)
    else FirstKey(latch, from + 1, limit)
  }

  /** A latch is non-zero exactly when one of its 16 keys is down, so the
      SUPER-CHIP scan over keys 0..15 always finds a key in a non-empty
      latch, while the CHIP-8 scan over keys 0..14 finds none when only key
      F is down. */
  lemma ScanFindsKey(latch: bv16)
    ensures latch != 0 <==> FirstKey(latch, 0, 16).Some?
    ensures latch == 0x8000 ==> FirstKey(latch, 0, 15).None?
  {
    if FirstKey(latch, 0, 16).None? {
      assert !KeyDown(latch, 0) && !KeyDown(latch, 1) && !KeyDown(latch, 2) && !KeyDown(latch, 3);
      assert !KeyDown(latch, 4) && !KeyDown(latch, 5) && !KeyDown(latch, 6) && !KeyDown(latch, 7);
      assert !KeyDown(latch, 8) && !KeyDown(latch, 9) && !KeyDown(latch, 10) && !KeyDown(latch, 11);
      assert !KeyDown(latch, 12) && !KeyDown(latch, 13) && !KeyDown(latch, 14) && !KeyDown(latch, 15);
    }
  }
}
