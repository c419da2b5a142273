/** Request padding and bin selection of the allocator. */
module Sizes {
  import opened Words

  const MINSIZE: int := 16
  const NAV: int := 128

  /** request2size: pad by one word, round up to eight bytes, at least MINSIZE.
      The comparison is made on `long` values, so it goes wrong once the padded
      request no longer fits in 31 bits. */
  function Request2Size(bytes: int): (nb: int)
    requires 0 <= bytes < W31
    ensures nb % 8 == 0
    ensures MINSIZE <= nb <= W31 - 8
  {
    if Long(bytes + 11) < MINSIZE + 7 then MINSIZE else (bytes + 11) - (bytes + 11) % 8
  }

  /** A padded request holds the bytes asked for exactly when the padding does not overflow. */
  lemma Request2SizeCovers(bytes: int)
    requires 0 <= bytes < W31
    ensures Request2Size(bytes) - 4 >= bytes <==> bytes < W31 - 11
    ensures bytes < W31 - 11 ==> Request2Size(bytes) < bytes + 20
  {
  }

  /** bin_index: eight-byte bins below 512, then six bands of coarser bins. */
  function BinIndex(sz: int): int
    requires 0 <= sz
  {
    if sz / 512 == 0 then sz / 8
    else if sz / 512 <= 4 then 56 + sz / 64
    else if sz / 512 <= 20 then 91 + sz / 512
    else if sz / 512 <= 84 then 110 + sz / 4096
    else if sz / 512 <= 340 then 119 + sz / 32768
    else if sz / 512 <= 1364 then 124 + sz / 262144
    else 126
  }

  lemma BinIndexRange(sz: int)
    requires MINSIZE <= sz
    ensures 2 <= BinIndex(sz) <= 126
    ensures sz < 512 ==> BinIndex(sz) == sz / 8 <= 63
    ensures sz >= 512 ==> BinIndex(sz) >= 64
  {
  }

  /** Larger chunks never live in lower bins. */
  lemma BinIndexMonotone(a: int, b: int)
    requires 0 <= a <= b
    ensures BinIndex(a) <= BinIndex(b)
  {
  }

  /** The smallest size of a bin. The comment beside bin_index speaks of bands of 8, 4 and 2 bins, of 4096, 32768 and
      262144 bytes each; the code makes bin 120 six times as wide, bin 124 three times, and has one bin in the last. */
  function BinStart(i: int): int {
    if i <= 64 then 8 * i
    else if i <= 96 then 512 + 64 * (i - 64)
    else if i <= 112 then 2560 + 512 * (i - 96)
    else if i <= 120 then 4096 * (i - 110)
    else if i <= 124 then 32768 * (i - 119)
    else 262144 * (i - 124)
  }

  /** The bins divide the sizes without a gap or an overlap. */
  lemma BinsDivideSizes(sz: int, i: int)
    requires 0 <= sz && 0 <= i <= 126
    ensures BinIndex(sz) == i <==> BinStart(i) <= sz && (i == 126 || sz < BinStart(i + 1))
  {
    var b := BinIndex(sz);
    BinHolds(sz);
    if i < b {
      BinStartsGrow(i + 1, b);
    } else if b < i {
      BinStartsGrow(b + 1, i);
    }
  }

  lemma BinHolds(sz: int)
    requires 0 <= sz
    ensures var b := BinIndex(sz);
            0 <= b <= 126 && BinStart(b) <= sz && (b < 126 ==> sz < BinStart(b + 1))
  {
  }

  lemma BinStartsGrow(i: int, j: int)
    requires 0 <= i <= j
    ensures BinStart(i) <= BinStart(j)
  {
  }

  /** The test of realloc before it grows into the top: is there room for nb and a remainder?
      Both sides are read as `long` values. */
  predicate RoomInTop(sum: int, nb: int) {
    Long(sum) >= Long(nb + MINSIZE)
  }

  /** The requests whose padded size plus MINSIZE no longer is a positive long. */
  predicate Overflows(bytes: int) {
    W31 - 27 <= bytes < W31 - 11
  }

  /** The test is right for every sum of chunk sizes exactly when the request is not one of those. */
  lemma RoomInTopIsRight(bytes: int)
    requires 0 <= bytes < W31
    ensures (forall sum {:trigger RoomInTop(sum, Request2Size(bytes))} :: 0 <= sum < W31 - MINSIZE ==>
               (RoomInTop(sum, Request2Size(bytes)) <==> sum >= Request2Size(bytes) + MINSIZE))
       <==> !Overflows(bytes)
  {
    var nb := Request2Size(bytes);
    if Overflows(bytes) {
      assert RoomInTop(0, nb) && 0 < nb + MINSIZE;
    } else {
      assert nb + MINSIZE < W31;
    }
  }

  /** An alignment memalign is specified for. */
  predicate PowerOfTwo(a: int)
    decreases a
  {
    a == 1 || (a > 1 && a % 2 == 0 && PowerOfTwo(a / 2))
  }

  /** `x & -a` for a power of two a: the multiple of a at or below x. */
  function MaskDown(x: int, a: int): int
    requires 0 < a
  {
    x - x % a
  }

  lemma MulDifference(a: int, q: int, q': int)
    ensures a * (q' - q) == a * q' - a * q
  {
  }

  lemma MulAtLeast(a: int, d: int)
    requires 0 < a && 0 < d
    ensures a * d >= a
  {
  }

  lemma SameQuotient(a: int, q: int, r: int, q': int, r': int)
    requires 0 <= r < a && 0 <= r' < a && a * q + r == a * q' + r'
    ensures q == q' && r == r'
  {
    MulDifference(a, q, q');
    MulDifference(a, q', q);
    if q < q' {
      MulAtLeast(a, q' - q);
    } else if q' < q {
      MulAtLeast(a, q - q');
    }
  }

  lemma MultipleMod(k: int, a: int)
    requires 0 < a
    ensures (a * k) % a == 0
  {
    var x := a * k;
    SameQuotient(a, k, 0, x / a, x % a);
  }

  /** MaskDown gives a multiple of a, and of eight when a is at least MINSIZE. */
  lemma MaskDownAligns(x: int, a: int)
    requires 0 <= x && a >= MINSIZE && PowerOfTwo(a)
    ensures MaskDown(x, a) % a == 0 && MaskDown(x, a) % 8 == 0
    ensures x - a < MaskDown(x, a) <= x
    ensures (MaskDown(x, a) + a) % a == 0 && (MaskDown(x, a) + a) % 8 == 0
  {
    var k := x / a;
    MultipleMod(k, a);
    MultipleMod(k + 1, a);
    TimesAligned(k, a);
    TimesAligned(k + 1, a);
    assert a * (k + 1) == a * k + a;
    assert MaskDown(x, a) == a * k;
  }

  /** Eight below such a multiple t, or one step further, is where memalign puts a chunk. */
  lemma SpotAligned(p: int, t: int, a: int)
    requires 0 < a && p % 8 == 0 && t % 8 == 0 && t % a == 0 && (t + a) % 8 == 0 && (t + a) % a == 0
    ensures ((t - 8) + 8) % a == 0 && ((t - 8 + a) + 8) % a == 0
    ensures ((t - 8) - p) % 8 == 0 && ((t - 8 + a) - p) % 8 == 0
  {
    assert (t - 8) + 8 == t && (t - 8 + a) + 8 == t + a;
    Difference(t, p);
    Difference(t + a, p);
  }

  lemma Difference(t: int, p: int)
    requires t % 8 == 0 && p % 8 == 0
    ensures (t - 8 - p) % 8 == 0
  {
  }

  /** What memalign asks malloc for. */
  function MemalignRequest(alignment: int, bytes: int): int
    requires 0 <= bytes < W31
  {
    if alignment <= 8 then bytes
    else U32(Request2Size(bytes) + (if alignment < MINSIZE then MINSIZE else alignment) + MINSIZE)
  }

  /** The padding neither wraps nor makes a request that reads as a tiny one. */
  predicate PaddedRequest(alignment: int, bytes: int) {
    0 <= bytes < W31 && alignment > 8 ==>
      var padded := Request2Size(bytes) + (if alignment < MINSIZE then MINSIZE else alignment) + MINSIZE;
      padded < W31 - 11 || W31 <= padded < W32
  }

  /** The padded request is refused or covers the block, its alignment and a leader exactly in that case; in any other,
      malloc is asked for its smallest chunk, too small for the block by more than it may have to spare. */
  lemma PaddedRequestIsExact(alignment: int, bytes: int)
    requires 0 <= bytes < W31 && 8 < alignment <= W31 && PowerOfTwo(alignment)
    ensures var m, nb := MemalignRequest(alignment, bytes), Request2Size(bytes);
            && (PaddedRequest(alignment, bytes) <==> m >= W31 || Request2Size(m) >= nb + alignment + MINSIZE + 8)
            && (!PaddedRequest(alignment, bytes) ==>
                  m < W31 && Request2Size(m) == MINSIZE && nb >= Request2Size(m) + MINSIZE)
  {
    SmallPower(alignment);
    EightDivides(alignment);
    EightSum(Request2Size(bytes), alignment);
    var padded := Request2Size(bytes) + alignment + MINSIZE;
    if padded < W31 {
      CoveredBelow(padded);
      if alignment >= 64 {
        SixtyFourDivides(alignment);
      }
      NotNearTop(alignment, Request2Size(bytes));
    } else if padded >= W32 {
      CoveredOver(padded);
    }
  }

  lemma EightSum(nb: int, a: int)
    requires nb % 8 == 0 && a % 8 == 0
    ensures (nb + a + MINSIZE) % 8 == 0
  {
  }

  lemma CoveredBelow(padded: int)
    requires MINSIZE <= padded < W31 && padded % 8 == 0
    ensures padded < W31 - 11 ==> Request2Size(padded) == padded + 8
    ensures padded >= W31 - 11 ==> padded == W31 - 8 && Request2Size(padded) == MINSIZE
  {
  }

  lemma CoveredOver(padded: int)
    requires W32 <= padded <= W32 + 8
    ensures 0 <= U32(padded) <= 8 && Request2Size(U32(padded)) == MINSIZE
  {
  }

  /** The one sum below 2^31 that is too large is not that of a block of one or two words. */
  lemma NotNearTop(a: int, nb: int)
    requires (a >= 64 ==> a % 64 == 0) && nb % 8 == 0 && nb >= MINSIZE
    ensures nb + a + MINSIZE == W31 - 8 ==> nb >= 2 * MINSIZE
  {
  }

  /** A power of two no less than 64 is a multiple of 64. */
  lemma {:induction false} SixtyFourDivides(a: int)
    requires PowerOfTwo(a) && a >= 64
    ensures a % 64 == 0
  {
    assert PowerOfTwo(a / 2);
    if a >= 128 {
      SixtyFourDivides(a / 2);
    } else {
      assert PowerOfTwo(a / 2 / 2) && PowerOfTwo(a / 2 / 2 / 2) && PowerOfTwo(a / 2 / 2 / 2 / 2);
      assert PowerOfTwo(a / 2 / 2 / 2 / 2 / 2);
    }
  }

  /** One such request: memalign(16, 2^31 - 44) asks malloc for 16 bytes. */
  lemma PaddedRequestFails()
    ensures !PaddedRequest(16, W31 - 44) && Request2Size(MemalignRequest(16, W31 - 44)) == MINSIZE
  {
  }

  lemma TimesAligned(k: int, a: int)
    requires a >= MINSIZE && PowerOfTwo(a)
    ensures (a * k) % 8 == 0
  {
    EightDivides(a);
    TimesEight(k, a / 8);
  }

  lemma TimesEight(k: int, b: int)
    ensures (8 * b * k) % 8 == 0
  {
    assert 8 * b * k == 8 * (b * k);
  }

  lemma EightDivides(a: int)
    requires a >= MINSIZE && PowerOfTwo(a)
    ensures a % 8 == 0
  {
    assert PowerOfTwo(a / 2) && PowerOfTwo(a / 2 / 2) && PowerOfTwo(a / 2 / 2 / 2);
  }

  lemma SmallPower(a: int)
    requires PowerOfTwo(a)
    ensures a <= 8 ==> a == 1 || a == 2 || a == 4 || a == 8
    ensures a > 8 ==> a >= MINSIZE
  {
    if a > 1 {
      assert PowerOfTwo(a / 2);
      if a > 2 {
        assert PowerOfTwo(a / 2 / 2);
        if a > 4 {
          assert PowerOfTwo(a / 2 / 2 / 2);
        }
      }
    }
  }

  /** Every block malloc returns meets a small alignment. */
  lemma SmallAlignment(x: int, a: int)
    requires (a == 1 || a == 2 || a == 4 || a == 8) && x % 8 == 0
    ensures x % a == 0
  {
    if a == 1 {
    } else if a == 2 {
      assert x % 2 == 0;
    } else if a == 4 {
      assert x % 4 == 0;
    }
  }
}
