/** The 32-bit machine words the modelled C code computes with, and a flat word memory. */
module Words {

  const W32: int := 0x1_0000_0000
  const W31: int := 0x8000_0000

  /** The value of an `unsigned long` after arithmetic wraps. */
  function U32(x: int): (r: int)
    ensures 0 <= r < W32
    ensures 0 <= x < W32 ==> r == x
  {
    x % W32
  }

  /** The cast of a word to `long`. */
  function Long(x: int): (r: int)
    ensures -W31 <= r < W31
    ensures -W31 <= x < W31 ==> r == x
  {
    var u := U32(x);
    if u < W31 then u else u - W32
  }

  /** The cast to `short`. */
  function Short(x: int): int {
    if x % 0x1_0000 < 0x8000 then x % 0x1_0000 else x % 0x1_0000 - 0x1_0000
  }

  /** 1 << k, if it does not overflow. */
  function Pow2(k: nat): (r: int)
    ensures r >= 1
  {
    if k == 0 then 1 else 2 * Pow2(k - 1)
  }

  lemma {:induction false} Pow2Grows(j: nat, k: nat)
    requires j <= k
    ensures Pow2(j) <= Pow2(k)
    decreases k
  {
    if j < k {
      Pow2Grows(j, k - 1);
    }
  }

  lemma WordPower()
    ensures Pow2(8) == 256 && Pow2(32) == W32
  {
    assert Pow2(8) == 0x100;
    assert Pow2(16) == 0x1_0000;
    assert Pow2(24) == 0x100_0000;
  }

  /** Memory by word address; a cell never written reads as zero. */
  type Mem = map<int, int>

  function Ld(m: Mem, a: int): int {
    if a in m then m[a] else 0
  }
}
