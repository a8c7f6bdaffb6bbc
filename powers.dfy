/** Powers of two, shared by the binary-trees schedule and the PBM bit packing. */
module Powers {

  /** `2^k`, which is also `1 << k` while the result fits the machine word. */
  function Pow2(k: nat): (r: nat)
    ensures r >= 1
  {
    if k == 0 then 1 else 2 * Pow2(k - 1)
  }

  lemma {:induction false} Pow2Add(a: nat, b: nat)
    ensures Pow2(a + b) == Pow2(a) * Pow2(b)
  {
    if a > 0 {
      Pow2Add(a - 1, b);
      assert Pow2(a + b) == 2 * Pow2(a - 1 + b);
    }
  }

  lemma {:induction false} Pow2Monotone(a: nat, b: nat)
    requires a <= b
    ensures Pow2(a) <= Pow2(b)
  {
    if a < b {
      Pow2Monotone(a, b - 1);
    }
  }

  /** `2^7` and `2^8`, the top bit and the size of a byte. */
  lemma Pow2Of8()
    ensures Pow2(7) == 128 && Pow2(8) == 256
  {
  }

  /** `2^31`, the first value a signed 32-bit integer cannot hold. */
  lemma Pow2Of31()
    ensures Pow2(31) == 0x8000_0000
  {
    Pow2Of8();
    Pow2Add(8, 8);
    Pow2Add(7, 8);
    Pow2Add(15, 16);
  }
}
