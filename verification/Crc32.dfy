/** crc32 as the C code computes it, in 32-bit words: a table look-up a byte, eight bytes a turn. */
module Crc32 {
  import opened Crc32Register

  // ----- words and the numbers they stand for -----

  /** 1 << k */
  function Single(k: nat): bv32 {
    if k == 0 then 1 else Twice(Single(k - 1))
  }

  function Twice(m: bv32): bv32 {
    m << 1
  }

  /** At most one bit. */
  predicate IsSingle(m: bv32) {
    m & (m - 1) == 0
  }

  predicate IsSet(x: bv32, k: nat) {
    x & Single(k) != 0
  }

  function WordBits(x: bv32): seq<bool> {
    seq(32, k requires 0 <= k < 32 => IsSet(x, k))
  }

  /** The number a word stands for. */
  function V(x: bv32): nat {
    Number(WordBits(x))
  }

  lemma TwiceSingle(m: bv32)
    requires IsSingle(m)
    ensures IsSingle(Twice(m))
  {
  }

  lemma BitXor(x: bv32, y: bv32, m: bv32)
    requires IsSingle(m)
    ensures ((x ^ y) & m != 0) <==> ((x & m != 0) != (y & m != 0))
  {
  }

  lemma BitShift(x: bv32, y: bv32, m: bv32, n: bv32)
    requires n == Twice(m) && y == x >> 1
    ensures (y & m != 0) <==> (x & n != 0)
  {
  }

  lemma {:induction false} Singles(k: nat)
    ensures IsSingle(Single(k))
  {
    if k > 0 {
      Singles(k - 1);
      TwiceSingle(Single(k - 1));
    }
  }

  lemma SingleOver()
    ensures Single(32) == 0
  {
    assert Single(8) == 0x100;
    assert Single(16) == 0x10000;
    assert Single(24) == 0x1000000;
  }

  lemma BitsOfXor(x: bv32, y: bv32)
    ensures WordBits(x ^ y) == Difference(WordBits(x), WordBits(y))
  {
    forall k | 0 <= k < 32 ensures WordBits(x ^ y)[k] == Difference(WordBits(x), WordBits(y))[k] {
      Singles(k);
      BitXor(x, y, Single(k));
    }
  }

  lemma VXor(x: bv32, y: bv32)
    ensures V(x ^ y) == Xor(V(x), V(y))
  {
    BitsOfXor(x, y);
    NumberXor(WordBits(x), WordBits(y));
  }

  lemma SetShift(x: bv32, y: bv32, k: nat)
    requires y == x >> 1
    ensures IsSet(y, k) <==> IsSet(x, k + 1)
  {
    var m, n := Single(k), Single(k + 1);
    NextSingle(k);
    BitShift(x, y, m, n);
  }

  lemma NextSingle(k: nat)
    ensures Single(k + 1) == Twice(Single(k))
  {
  }

  lemma NotSet(x: bv32)
    ensures !IsSet(x, 32)
  {
    SingleOver();
    assert x & 0 == 0;
  }

  lemma BitsOfShift(x: bv32)
    ensures WordBits(x >> 1) == WordBits(x)[1..] + [false]
  {
    var y := x >> 1;
    forall k: nat | k < 32 ensures IsSet(y, k) == if k < 31 then IsSet(x, k + 1) else false {
      SetShift(x, y, k);
      NotSet(x);
    }
    SameBits(x, y);
  }

  lemma SameBits(x: bv32, y: bv32)
    requires forall k: nat :: k < 32 ==> IsSet(y, k) == if k < 31 then IsSet(x, k + 1) else false
    ensures WordBits(y) == WordBits(x)[1..] + [false]
  {
  }

  predicate Odd(x: bv32) {
    x & 1 == 1
  }

  /** Shifting halves the number, and the bit that falls out is its parity. */
  lemma VHalf(x: bv32)
    ensures V(x >> 1) == V(x) / 2 && (Odd(x) <==> V(x) % 2 == 1)
  {
    BitsOfShift(x);
    NumberPadded(WordBits(x)[1..], [false]);
    LowBit(x);
  }

  lemma LowBit(x: bv32)
    ensures WordBits(x)[0] <==> Odd(x)
  {
    assert Single(0) == 1;
    OneBit(x);
  }

  lemma OneBit(x: bv32)
    ensures x & 1 != 0 <==> x & 1 == 1
  {
  }

  const POLYWORD: bv32 := 0xedb88320

  /** The word that the table is made with is the polynomial. */
  lemma PolyIsSet(k: nat)
    requires k < 32
    ensures IsSet(POLYWORD, k) <==> 31 - k in TERMS
  {
    assert !IsSet(POLYWORD, 0) && !IsSet(POLYWORD, 1) && !IsSet(POLYWORD, 2) && !IsSet(POLYWORD, 3);
    assert !IsSet(POLYWORD, 4) && IsSet(POLYWORD, 5) && !IsSet(POLYWORD, 6) && !IsSet(POLYWORD, 7);
    assert IsSet(POLYWORD, 8) && IsSet(POLYWORD, 9) && !IsSet(POLYWORD, 10) && !IsSet(POLYWORD, 11);
    assert !IsSet(POLYWORD, 12) && !IsSet(POLYWORD, 13) && !IsSet(POLYWORD, 14) && IsSet(POLYWORD, 15);
    assert !IsSet(POLYWORD, 16) && !IsSet(POLYWORD, 17) && !IsSet(POLYWORD, 18) && IsSet(POLYWORD, 19);
    assert IsSet(POLYWORD, 20) && IsSet(POLYWORD, 21) && !IsSet(POLYWORD, 22) && IsSet(POLYWORD, 23);
    assert IsSet(POLYWORD, 24) && !IsSet(POLYWORD, 25) && IsSet(POLYWORD, 26) && IsSet(POLYWORD, 27);
    assert !IsSet(POLYWORD, 28) && IsSet(POLYWORD, 29) && IsSet(POLYWORD, 30) && IsSet(POLYWORD, 31);
  }

  lemma VPoly()
    ensures V(POLYWORD) == POLY
  {
    forall k: nat | k < 32 ensures WordBits(POLYWORD)[k] == PolyBits()[k] {
      PolyIsSet(k);
    }
    assert WordBits(POLYWORD) == PolyBits();
  }

  lemma {:induction false} ZeroStays(k: nat, j: nat)
    requires k <= j && Single(k) == 0
    ensures Single(j) == 0
    decreases j
  {
    if k < j {
      ZeroStays(k, j - 1);
    }
  }

  lemma OnesIsSet(k: nat)
    requires k < 32
    ensures IsSet(ONESWORD, k)
  {
    if Single(k) == 0 {
      ZeroStays(k, 31);
    }
    assert Single(8) == 0x100;
    assert Single(16) == 0x10000;
    assert Single(24) == 0x1000000;
    assert Single(31) == 0x80000000;
    AndOnes(Single(k));
  }

  lemma AndOnes(m: bv32)
    ensures 0xffffffff & m == m
  {
  }

  const ONESWORD: bv32 := 0xffffffff

  lemma VOnes()
    ensures V(ONESWORD) == ONES
  {
    forall k: nat | k < 32 ensures WordBits(ONESWORD)[k] == OneBits()[k] {
      OnesIsSet(k);
    }
    assert WordBits(ONESWORD) == OneBits();
  }

  // ----- steps of words -----

  /** c & 1 ? poly ^ (c >> 1) : c >> 1 */
  function StepWord(c: bv32): bv32 {
    if Odd(c) then POLYWORD ^ (c >> 1) else c >> 1
  }

  function StepsWord(c: bv32, n: nat): bv32
    decreases n
  {
    if n == 0 then c else StepsWord(StepWord(c), n - 1)
  }

  lemma VStep(c: bv32)
    ensures V(StepWord(c)) == Step(V(c))
  {
    VHalf(c);
    if Odd(c) {
      VXor(POLYWORD, c >> 1);
      VPoly();
    }
  }

  lemma {:induction false} VSteps(c: bv32, n: nat)
    ensures V(StepsWord(c, n)) == Steps(V(c), n)
    decreases n
  {
    if n > 0 {
      VStep(c);
      VSteps(StepWord(c), n - 1);
    }
  }

  /** A step of a word that ends in zeros is a shift, of those zeros too. */
  lemma EvenStep(y: bv32, m: bv32)
    requires y & m == 0 && Odd(m)
    ensures Step(V(y)) == V(y >> 1) && (y >> 1) & (m >> 1) == 0
  {
    StillZero(y, m);
    VHalf(y);
  }

  lemma StillZero(y: bv32, m: bv32)
    requires y & m == 0 && Odd(m)
    ensures !Odd(y) && (y >> 1) & (m >> 1) == 0
  {
  }

  lemma Eight(y: bv32, a: bv32, b: bv32, c: bv32, d: bv32, e: bv32, f: bv32, g: bv32)
    requires a == y >> 1 && b == a >> 1 && c == b >> 1 && d == c >> 1 && e == d >> 1 && f == e >> 1 && g == f >> 1
    ensures g >> 1 == y >> 8
  {
  }

  lemma EvenSteps(y: bv32)
    requires y & 0xff == 0
    ensures Steps(V(y), 8) == V(y >> 8)
  {
    var a := y >> 1;
    EvenStep(y, 0xff);
    var b := a >> 1;
    EvenStep(a, 0x7f);
    var c := b >> 1;
    EvenStep(b, 0x3f);
    var d := c >> 1;
    EvenStep(c, 0x1f);
    var e := d >> 1;
    EvenStep(d, 0xf);
    var f := e >> 1;
    EvenStep(e, 7);
    var g := f >> 1;
    EvenStep(f, 3);
    EvenStep(g, 1);
    Eight(y, a, b, c, d, e, f, g);
    assert Steps(V(f), 2) == Steps(V(g), 1) == Steps(V(g >> 1), 0);
    assert Steps(V(c), 5) == Steps(V(d), 4) == Steps(V(e), 3) == Steps(V(f), 2);
    assert Steps(V(y), 8) == Steps(V(a), 7) == Steps(V(b), 6) == Steps(V(c), 5);
  }

  // ----- bytes -----

  lemma {:induction false} HighSingle(k: nat)
    requires k >= 8
    ensures Single(k) & 0xff == 0
  {
    if k > 8 {
      HighSingle(k - 1);
      StillHigh(Single(k - 1));
    } else {
      assert Single(8) == 0x100;
    }
  }

  lemma StillHigh(m: bv32)
    requires m & 0xff == 0
    ensures Twice(m) & 0xff == 0
  {
  }

  lemma NoHighBit(b: bv8, m: bv32)
    requires m & 0xff == 0
    ensures (b as bv32) & m == 0
  {
  }

  lemma ByteIsSet(b: bv8, k: nat)
    requires k < 32
    ensures IsSet(b as bv32, k) == if k < 8 then ByteBits(b)[k] else false
  {
    if k >= 8 {
      HighSingle(k);
      NoHighBit(b, Single(k));
    } else {
      LowSingles();
      LowBits(b, b as bv32);
    }
  }

  lemma LowSingles()
    ensures Single(0) == 1 && Single(1) == 2 && Single(2) == 4 && Single(3) == 8
    ensures Single(4) == 16 && Single(5) == 32 && Single(6) == 64 && Single(7) == 128
  {
  }

  lemma LowBits(b: bv8, w: bv32)
    requires w == b as bv32
    ensures (w & 1 != 0 <==> b & 1 != 0) && (w & 2 != 0 <==> b & 2 != 0) && (w & 4 != 0 <==> b & 4 != 0)
    ensures (w & 8 != 0 <==> b & 8 != 0) && (w & 16 != 0 <==> b & 16 != 0) && (w & 32 != 0 <==> b & 32 != 0)
    ensures (w & 64 != 0 <==> b & 64 != 0) && (w & 128 != 0 <==> b & 128 != 0)
  {
  }

  lemma VByte(b: bv8)
    ensures V(b as bv32) == Number(ByteBits(b))
  {
    var zeros: seq<bool> := seq(24, i => false);
    forall k: nat | k < 32 ensures WordBits(b as bv32)[k] == (ByteBits(b) + zeros)[k] {
      ByteIsSet(b, k);
    }
    assert WordBits(b as bv32) == ByteBits(b) + zeros;
    NumberPadded(ByteBits(b), zeros);
  }

  lemma SplitWord(x: bv32, l: bv32, h: bv32, y: bv32)
    requires l == x & 0xff && h == x & 0xffffff00 && y == x >> 8
    ensures x == l ^ h && h & 0xff == 0 && h >> 8 == y
  {
  }

  lemma ShiftByte(c: bv32, b: bv8)
    ensures (c ^ (b as bv32)) >> 8 == c >> 8
  {
  }

  lemma VXorIs(z: bv32, x: bv32, y: bv32)
    requires z == x ^ y
    ensures V(z) == Xor(V(x), V(y))
  {
    VXor(x, y);
  }

  lemma EvenStepsIs(y: bv32, z: bv32)
    requires y & 0xff == 0 && z == y >> 8
    ensures Steps(V(y), 8) == V(z)
  {
    EvenSteps(y);
  }

  /** The low byte of a word, and the rest, which eight steps shift out. */
  lemma SplitV(x: bv32, y: bv32) returns (high: nat)
    requires y == x >> 8
    ensures V(x) == Xor(V(x & 0xff), high) && Steps(high, 8) == V(y)
  {
    var l, h := x & 0xff, x & 0xffffff00;
    SplitWord(x, l, h, y);
    VXorIs(x, l, h);
    EvenStepsIs(h, y);
    high := V(h);
  }

  lemma WordIsLookUp(x: bv32, y: bv32, t: bv32, z: bv32)
    requires y == x >> 8 && z == t ^ y && V(t) == Steps(V(x & 0xff), 8)
    ensures V(z) == Steps(V(x), 8)
  {
    var low := V(x & 0xff);
    var high := SplitV(x, y);
    StepsAreLinear(low, high, 8);
    VXor(t, y);
  }

  /** A byte fed bit by bit is one look-up and a shift. */
  lemma ByteIsLookUp(c: bv32, b: bv8, x: bv32, y: bv32, t: bv32, z: bv32)
    requires x == c ^ (b as bv32) && y == c >> 8 && z == t ^ y && V(t) == Steps(V(x & 0xff), 8)
    ensures V(z) == Register(V(c), ByteBits(b))
  {
    RegisterIsSteps(V(c), ByteBits(b));
    VByte(b);
    VXor(c, b as bv32);
    ShiftByte(c, b);
    WordIsLookUp(x, y, t, z);
  }

  // ----- the table -----

  /** The entry of a byte is that byte after eight steps. */
  ghost predicate Entry(t: array<bv32>, b: bv8)
    reads t
  {
    t.Length == 256 && V(t[b as int]) == Steps(V(b as bv32), 8)
  }

  ghost predicate TableOk(t: array<bv32>)
    reads t
  {
    forall b: bv8 {:trigger Entry(t, b)} :: Entry(t, b)
  }

  const P: seq<int> := [0, 1, 2, 4, 5, 7, 8, 10, 11, 12, 16, 22, 23, 26]

  function PolyUpTo(n: nat): bv32
    requires n <= 14
  {
    if n == 0 then 0 else PolyUpTo(n - 1) | Single(31 - P[n - 1])
  }

  /** The terms of the polynomial. */
  lemma TermValues()
    ensures Single(31) == 0x80000000 && Single(30) == 0x40000000 && Single(29) == 0x20000000 && Single(27) == 0x8000000
    ensures Single(26) == 0x4000000
    ensures Single(24) == 0x1000000 && Single(23) == 0x800000 && Single(21) == 0x200000 && Single(20) == 0x100000
    ensures Single(19) == 0x80000
    ensures Single(15) == 0x8000 && Single(9) == 0x200 && Single(8) == 0x100 && Single(5) == 0x20
  {
    assert Single(4) == 0x10;
    assert Single(8) == 0x100;
    assert Single(12) == 0x1000;
    assert Single(16) == 0x10000;
    assert Single(20) == 0x100000;
    assert Single(24) == 0x1000000;
    assert Single(28) == 0x10000000;
  }

  lemma PolyUpTo5()
    ensures PolyUpTo(5) == 0xec000000
  {
    TermValues();
    assert PolyUpTo(1) == 0x80000000;
    assert PolyUpTo(2) == 0xc0000000;
    assert PolyUpTo(3) == 0xe0000000;
    assert PolyUpTo(4) == 0xe8000000;
    assert PolyUpTo(5) == 0xec000000;
  }

  lemma PolyUpTo10()
    ensures PolyUpTo(10) == 0xedb80000
  {
    TermValues();
    PolyUpTo5();
    assert PolyUpTo(6) == 0xed000000;
    assert PolyUpTo(7) == 0xed800000;
    assert PolyUpTo(8) == 0xeda00000;
    assert PolyUpTo(9) == 0xedb00000;
    assert PolyUpTo(10) == 0xedb80000;
  }

  lemma PolyIsWord()
    ensures PolyUpTo(14) == POLYWORD
  {
    TermValues();
    PolyUpTo10();
    assert PolyUpTo(11) == 0xedb88000;
    assert PolyUpTo(12) == 0xedb88200;
    assert PolyUpTo(13) == 0xedb88300;
    assert PolyUpTo(14) == 0xedb88320;
  }

  method MakePoly() returns (poly: bv32)
    ensures poly == POLYWORD
  {
    poly := 0;
    for n := 0 to 14
      invariant poly == PolyUpTo(n)
    {
      poly := poly | Single(31 - P[n]);
    }
    PolyIsWord();
  }

  /** make_crc_table, from the exponents of the polynomial. */
  method MakeCrcTable(crc_table: array<bv32>)
    requires crc_table.Length == 256
    modifies crc_table
    ensures TableOk(crc_table)
  {
    var poly := MakePoly();
    for n := 0 to 256
      invariant forall b: bv8 {:trigger Entry(crc_table, b)} :: b as int < n ==> Entry(crc_table, b)
    {
      FillEntry(crc_table, n, poly);
    }
  }

  method FillEntry(crc_table: array<bv32>, n: int, poly: bv32)
    requires crc_table.Length == 256 && 0 <= n < 256 && poly == POLYWORD
    requires forall b: bv8 {:trigger Entry(crc_table, b)} :: b as int < n ==> Entry(crc_table, b)
    modifies crc_table
    ensures forall b: bv8 {:trigger Entry(crc_table, b)} :: b as int < n + 1 ==> Entry(crc_table, b)
  {
    var c := n as bv32;
    for k := 0 to 8
      invariant StepsWord(n as bv32, 8) == StepsWord(c, 8 - k)
    {
      c := if c & 1 == 1 then poly ^ (c >> 1) else c >> 1;
    }
    crc_table[n] := c;
    EntryFilled(crc_table, n);
    forall b: bv8 | b as int < n + 1 ensures Entry(crc_table, b) {
      if b as int < n {
        assert old(Entry(crc_table, b));
      } else {
        IndexByte(n);
        SameIndex(b, n as bv8);
      }
    }
  }

  lemma EntryFilled(crc_table: array<bv32>, n: int)
    requires crc_table.Length == 256 && 0 <= n < 256 && crc_table[n] == StepsWord(n as bv32, 8)
    ensures Entry(crc_table, n as bv8)
  {
    VSteps(n as bv32, 8);
    IndexByte(n);
  }

  lemma IndexByte(n: int)
    requires 0 <= n < 256
    ensures (n as bv8) as int == n && (n as bv8) as bv32 == n as bv32
  {
  }

  lemma SameIndex(b: bv8, c: bv8)
    requires b as int == c as int
    ensures b == c
  {
  }

  /** Eight steps. */
  function Octet(x: bv32): bv32 {
    StepWord(StepWord(StepWord(StepWord(StepWord(StepWord(StepWord(StepWord(x))))))))
  }

  /** Entry j of a row of eight. */
  function Pick(j: bv8, r0: bv32, r1: bv32, r2: bv32, r3: bv32, r4: bv32, r5: bv32, r6: bv32, r7: bv32): bv32 {
    if j < 4 then if j < 2 then if j == 0 then r0 else r1 else if j == 2 then r2 else r3
    else if j < 6 then if j == 4 then r4 else r5 else if j == 6 then r6 else r7
  }

  /** The static table, eight entries a row. */
  function Row(h: bv8, j: bv8): bv32 {
    if h == 0 then
      Pick(j, 0x00000000, 0x77073096, 0xee0e612c, 0x990951ba, 0x076dc419, 0x706af48f, 0xe963a535, 0x9e6495a3)
    else if h == 1 then
      Pick(j, 0x0edb8832, 0x79dcb8a4, 0xe0d5e91e, 0x97d2d988, 0x09b64c2b, 0x7eb17cbd, 0xe7b82d07, 0x90bf1d91)
    else if h == 2 then
      Pick(j, 0x1db71064, 0x6ab020f2, 0xf3b97148, 0x84be41de, 0x1adad47d, 0x6ddde4eb, 0xf4d4b551, 0x83d385c7)
    else if h == 3 then
      Pick(j, 0x136c9856, 0x646ba8c0, 0xfd62f97a, 0x8a65c9ec, 0x14015c4f, 0x63066cd9, 0xfa0f3d63, 0x8d080df5)
    else if h == 4 then
      Pick(j, 0x3b6e20c8, 0x4c69105e, 0xd56041e4, 0xa2677172, 0x3c03e4d1, 0x4b04d447, 0xd20d85fd, 0xa50ab56b)
    else if h == 5 then
      Pick(j, 0x35b5a8fa, 0x42b2986c, 0xdbbbc9d6, 0xacbcf940, 0x32d86ce3, 0x45df5c75, 0xdcd60dcf, 0xabd13d59)
    else if h == 6 then
      Pick(j, 0x26d930ac, 0x51de003a, 0xc8d75180, 0xbfd06116, 0x21b4f4b5, 0x56b3c423, 0xcfba9599, 0xb8bda50f)
    else if h == 7 then
      Pick(j, 0x2802b89e, 0x5f058808, 0xc60cd9b2, 0xb10be924, 0x2f6f7c87, 0x58684c11, 0xc1611dab, 0xb6662d3d)
    else if h == 8 then
      Pick(j, 0x76dc4190, 0x01db7106, 0x98d220bc, 0xefd5102a, 0x71b18589, 0x06b6b51f, 0x9fbfe4a5, 0xe8b8d433)
    else if h == 9 then
      Pick(j, 0x7807c9a2, 0x0f00f934, 0x9609a88e, 0xe10e9818, 0x7f6a0dbb, 0x086d3d2d, 0x91646c97, 0xe6635c01)
    else if h == 10 then
      Pick(j, 0x6b6b51f4, 0x1c6c6162, 0x856530d8, 0xf262004e, 0x6c0695ed, 0x1b01a57b, 0x8208f4c1, 0xf50fc457)
    else if h == 11 then
      Pick(j, 0x65b0d9c6, 0x12b7e950, 0x8bbeb8ea, 0xfcb9887c, 0x62dd1ddf, 0x15da2d49, 0x8cd37cf3, 0xfbd44c65)
    else if h == 12 then
      Pick(j, 0x4db26158, 0x3ab551ce, 0xa3bc0074, 0xd4bb30e2, 0x4adfa541, 0x3dd895d7, 0xa4d1c46d, 0xd3d6f4fb)
    else if h == 13 then
      Pick(j, 0x4369e96a, 0x346ed9fc, 0xad678846, 0xda60b8d0, 0x44042d73, 0x33031de5, 0xaa0a4c5f, 0xdd0d7cc9)
    else if h == 14 then
      Pick(j, 0x5005713c, 0x270241aa, 0xbe0b1010, 0xc90c2086, 0x5768b525, 0x206f85b3, 0xb966d409, 0xce61e49f)
    else if h == 15 then
      Pick(j, 0x5edef90e, 0x29d9c998, 0xb0d09822, 0xc7d7a8b4, 0x59b33d17, 0x2eb40d81, 0xb7bd5c3b, 0xc0ba6cad)
    else if h == 16 then
      Pick(j, 0xedb88320, 0x9abfb3b6, 0x03b6e20c, 0x74b1d29a, 0xead54739, 0x9dd277af, 0x04db2615, 0x73dc1683)
    else if h == 17 then
      Pick(j, 0xe3630b12, 0x94643b84, 0x0d6d6a3e, 0x7a6a5aa8, 0xe40ecf0b, 0x9309ff9d, 0x0a00ae27, 0x7d079eb1)
    else if h == 18 then
      Pick(j, 0xf00f9344, 0x8708a3d2, 0x1e01f268, 0x6906c2fe, 0xf762575d, 0x806567cb, 0x196c3671, 0x6e6b06e7)
    else if h == 19 then
      Pick(j, 0xfed41b76, 0x89d32be0, 0x10da7a5a, 0x67dd4acc, 0xf9b9df6f, 0x8ebeeff9, 0x17b7be43, 0x60b08ed5)
    else if h == 20 then
      Pick(j, 0xd6d6a3e8, 0xa1d1937e, 0x38d8c2c4, 0x4fdff252, 0xd1bb67f1, 0xa6bc5767, 0x3fb506dd, 0x48b2364b)
    else if h == 21 then
      Pick(j, 0xd80d2bda, 0xaf0a1b4c, 0x36034af6, 0x41047a60, 0xdf60efc3, 0xa867df55, 0x316e8eef, 0x4669be79)
    else if h == 22 then
      Pick(j, 0xcb61b38c, 0xbc66831a, 0x256fd2a0, 0x5268e236, 0xcc0c7795, 0xbb0b4703, 0x220216b9, 0x5505262f)
    else if h == 23 then
      Pick(j, 0xc5ba3bbe, 0xb2bd0b28, 0x2bb45a92, 0x5cb36a04, 0xc2d7ffa7, 0xb5d0cf31, 0x2cd99e8b, 0x5bdeae1d)
    else if h == 24 then
      Pick(j, 0x9b64c2b0, 0xec63f226, 0x756aa39c, 0x026d930a, 0x9c0906a9, 0xeb0e363f, 0x72076785, 0x05005713)
    else if h == 25 then
      Pick(j, 0x95bf4a82, 0xe2b87a14, 0x7bb12bae, 0x0cb61b38, 0x92d28e9b, 0xe5d5be0d, 0x7cdcefb7, 0x0bdbdf21)
    else if h == 26 then
      Pick(j, 0x86d3d2d4, 0xf1d4e242, 0x68ddb3f8, 0x1fda836e, 0x81be16cd, 0xf6b9265b, 0x6fb077e1, 0x18b74777)
    else if h == 27 then
      Pick(j, 0x88085ae6, 0xff0f6a70, 0x66063bca, 0x11010b5c, 0x8f659eff, 0xf862ae69, 0x616bffd3, 0x166ccf45)
    else if h == 28 then
      Pick(j, 0xa00ae278, 0xd70dd2ee, 0x4e048354, 0x3903b3c2, 0xa7672661, 0xd06016f7, 0x4969474d, 0x3e6e77db)
    else if h == 29 then
      Pick(j, 0xaed16a4a, 0xd9d65adc, 0x40df0b66, 0x37d83bf0, 0xa9bcae53, 0xdebb9ec5, 0x47b2cf7f, 0x30b5ffe9)
    else if h == 30 then
      Pick(j, 0xbdbdf21c, 0xcabac28a, 0x53b39330, 0x24b4a3a6, 0xbad03605, 0xcdd70693, 0x54de5729, 0x23d967bf)
    else Pick(j, 0xb3667a2e, 0xc4614ab8, 0x5d681b02, 0x2a6f2b94, 0xb40bbe37, 0xc30c8ea1, 0x5a05df1b, 0x2d02ef8d)
  }

  /** crc_table[b] */
  function StaticValue(b: bv8): bv32 {
    Row(b >> 3, b & 7)
  }

  lemma FirstQuarter(b: bv8)
    requires b >> 6 == 0
    ensures StaticValue(b) == Octet(b as bv32)
  {
  }

  lemma SecondQuarter(b: bv8)
    requires b >> 6 == 1
    ensures StaticValue(b) == Octet(b as bv32)
  {
  }

  lemma ThirdQuarter(b: bv8)
    requires b >> 6 == 2
    ensures StaticValue(b) == Octet(b as bv32)
  {
  }

  lemma LastQuarter(b: bv8)
    requires b >> 6 == 3
    ensures StaticValue(b) == Octet(b as bv32)
  {
  }

  lemma {:induction false} VOctet(x: bv32)
    ensures V(Octet(x)) == Steps(V(x), 8)
  {
    var a := StepWord(x);
    VStep(x);
    var b := StepWord(a);
    VStep(a);
    var c := StepWord(b);
    VStep(b);
    var d := StepWord(c);
    VStep(c);
    FourMore(x, a, b, c, d);
  }

  lemma FourMore(x: bv32, a: bv32, b: bv32, c: bv32, d: bv32)
    requires a == StepWord(x) && b == StepWord(a) && c == StepWord(b) && d == StepWord(c)
    requires V(a) == Step(V(x)) && V(b) == Step(V(a)) && V(c) == Step(V(b)) && V(d) == Step(V(c))
    ensures V(Octet(x)) == Steps(V(x), 8)
  {
    var e := StepWord(d);
    VStep(d);
    var f := StepWord(e);
    VStep(e);
    var g := StepWord(f);
    VStep(f);
    VStep(g);
    assert Steps(V(d), 4) == Steps(V(e), 3) == Steps(V(f), 2) == Steps(V(g), 1) == V(StepWord(g));
    assert Steps(V(x), 8) == Steps(V(a), 7) == Steps(V(b), 6) == Steps(V(c), 5) == Steps(V(d), 4);
  }

  /** The static table is the one make_crc_table makes. */
  lemma StaticIsRight(b: bv8)
    ensures V(StaticValue(b)) == Steps(V(b as bv32), 8)
  {
    VOctet(b as bv32);
    if b >> 6 == 0 {
      FirstQuarter(b);
    } else if b >> 6 == 1 {
      SecondQuarter(b);
    } else if b >> 6 == 2 {
      ThirdQuarter(b);
    } else {
      LastQuarter(b);
    }
  }

  /** The static table as an array. */
  method StaticTable() returns (crc_table: array<bv32>)
    ensures fresh(crc_table) && crc_table.Length == 256 && TableOk(crc_table)
  {
    crc_table := new bv32[256](n requires 0 <= n < 256 => StaticValue(n as bv8));
    forall b: bv8 ensures Entry(crc_table, b) {
      IndexByte(b as int);
      SameIndex((b as int) as bv8, b);
      StaticIsRight(b);
    }
  }

  // ----- the checksum -----

  lemma IndexOf(x: bv32)
    ensures ((x & 0xff) as bv8) as bv32 == x & 0xff
  {
  }

  /** DO1: crc = crc_table[((int)crc ^ (*buf++)) & 0xff] ^ (crc >> 8) */
  method Do1(crc: bv32, b: bv8, crc_table: array<bv32>) returns (r: bv32)
    requires TableOk(crc_table)
    ensures V(r) == RawCrc(V(crc), [b])
  {
    var x := crc ^ (b as bv32);
    var i := (x & 0xff) as bv8;
    IndexOf(x);
    assert Entry(crc_table, i);
    var t := crc_table[i as int];
    var y := crc >> 8;
    r := t ^ y;
    ByteIsLookUp(crc, b, x, y, t, r);
    BitsOfOne(b);
  }

  lemma BitsOfOne(b: bv8)
    ensures Bits([b]) == ByteBits(b)
  {
    assert [b][1..] == [];
    assert ByteBits(b) + [] == ByteBits(b);
  }

  /** Checksums of neighbouring parts of a buffer. */
  lemma Parts(c: nat, d: nat, e: nat, buf: seq<bv8>, i: nat, j: nat, k: nat)
    requires i <= j <= k <= |buf| && d == RawCrc(c, buf[i..j]) && e == RawCrc(d, buf[j..k])
    ensures e == RawCrc(c, buf[i..k])
  {
    RawCrcOfConcatenation(c, buf[i..j], buf[j..k]);
    assert buf[i..j] + buf[j..k] == buf[i..k];
  }

  method Do2(crc: bv32, buf: seq<bv8>, i: nat, crc_table: array<bv32>) returns (r: bv32)
    requires i + 2 <= |buf| && TableOk(crc_table)
    ensures V(r) == RawCrc(V(crc), buf[i..i + 2])
  {
    var c := Do1(crc, buf[i], crc_table);
    r := Do1(c, buf[i + 1], crc_table);
    assert buf[i..i + 1] == [buf[i]] && buf[i + 1..i + 2] == [buf[i + 1]];
    Parts(V(crc), V(c), V(r), buf, i, i + 1, i + 2);
  }

  method Do4(crc: bv32, buf: seq<bv8>, i: nat, crc_table: array<bv32>) returns (r: bv32)
    requires i + 4 <= |buf| && TableOk(crc_table)
    ensures V(r) == RawCrc(V(crc), buf[i..i + 4])
  {
    var c := Do2(crc, buf, i, crc_table);
    r := Do2(c, buf, i + 2, crc_table);
    Parts(V(crc), V(c), V(r), buf, i, i + 2, i + 4);
  }

  method Do8(crc: bv32, buf: seq<bv8>, i: nat, crc_table: array<bv32>) returns (r: bv32)
    requires i + 8 <= |buf| && TableOk(crc_table)
    ensures V(r) == RawCrc(V(crc), buf[i..i + 8])
  {
    var c := Do4(crc, buf, i, crc_table);
    r := Do4(c, buf, i + 4, crc_table);
    Parts(V(crc), V(c), V(r), buf, i, i + 4, i + 8);
  }

  /** crc32_no_comp: eight bytes a turn, and then the rest one by one. */
  method CrcNoComp(crc0: bv32, buf: seq<bv8>, crc_table: array<bv32>) returns (crc: bv32)
    requires TableOk(crc_table)
    ensures V(crc) == RawCrc(V(crc0), buf)
  {
    crc := crc0;
    var i, len := 0, |buf|;
    assert buf[..0] == [];
    while len >= 8
      invariant 0 <= i && len >= 0 && i + len == |buf| && V(crc) == RawCrc(V(crc0), buf[..i])
    {
      ghost var d := V(crc);
      crc := Do8(crc, buf, i, crc_table);
      Parts(V(crc0), d, V(crc), buf, 0, i, i + 8);
      i, len := i + 8, len - 8;
    }
    while len != 0
      invariant 0 <= i && len >= 0 && i + len == |buf| && V(crc) == RawCrc(V(crc0), buf[..i])
    {
      ghost var d := V(crc);
      crc := Do1(crc, buf[i], crc_table);
      assert buf[i..i + 1] == [buf[i]];
      Parts(V(crc0), d, V(crc), buf, 0, i, i + 1);
      i, len := i + 1, len - 1;
    }
    assert buf[..|buf|] == buf;
  }

  /** crc32 */
  method Crc32(crc0: bv32, buf: seq<bv8>, crc_table: array<bv32>) returns (crc: bv32)
    requires TableOk(crc_table)
    ensures V(crc) == Crc(V(crc0), buf)
  {
    var c := crc0 ^ ONESWORD;
    VXorIs(c, crc0, ONESWORD);
    VOnes();
    var d := CrcNoComp(c, buf, crc_table);
    crc := d ^ ONESWORD;
    VXorIs(crc, d, ONESWORD);
  }

  /** Words stand for different numbers. */
  lemma VIsInjective(x: bv32, y: bv32)
    ensures V(x) == V(y) <==> x == y
  {
    VXor(x, y);
    XorSelf(V(x), V(y));
    if V(x) == V(y) {
      var z := x ^ y;
      ZeroWord(z);
      NoDifference(x, y);
    }
  }

  /** The words Crc32 gives for two buffers are equal exactly when the checksums of the specification are. */
  lemma WordsTell(c: bv32, x: bv32, y: bv32, s: seq<bv8>, t: seq<bv8>)
    requires V(x) == Crc(V(c), s) && V(y) == Crc(V(c), t)
    ensures x == y <==> Crc(V(c), s) == Crc(V(c), t)
  {
    VIsInjective(x, y);
  }

  /** The words Crc32 gives for buffers that differ within a burst of at most 32 bits are different. */
  lemma BurstChangesWord(c: bv32, x: bv32, y: bv32, s: seq<bv8>, t: seq<bv8>, low: nat)
    requires V(x) == Crc(V(c), s) && V(y) == Crc(V(c), t)
    requires |s| == |t| && s != t && Burst(Bits(s), Bits(t), low)
    ensures x != y
  {
    BurstChangesCrc(V(c), s, t, low);
    WordsTell(c, x, y, s, t);
  }

  lemma NoDifference(x: bv32, y: bv32)
    ensures x ^ y == 0 <==> x == y
  {
  }

  lemma ZeroWord(z: bv32)
    requires V(z) == 0
    ensures z == 0
  {
    forall k: nat | k < 32 ensures !IsSet(z, k) {
      if IsSet(z, k) {
        NumberNotZero(WordBits(z), k);
      }
    }
    NoBits(z);
  }

  lemma NoBits(z: bv32)
    requires forall k: nat :: k < 32 ==> !IsSet(z, k)
    ensures z == 0
  {
    assert !IsSet(z, 0) && !IsSet(z, 1) && !IsSet(z, 2) && !IsSet(z, 3);
    assert !IsSet(z, 4) && !IsSet(z, 5) && !IsSet(z, 6) && !IsSet(z, 7);
    assert !IsSet(z, 8) && !IsSet(z, 9) && !IsSet(z, 10) && !IsSet(z, 11);
    assert !IsSet(z, 12) && !IsSet(z, 13) && !IsSet(z, 14) && !IsSet(z, 15);
    assert !IsSet(z, 16) && !IsSet(z, 17) && !IsSet(z, 18) && !IsSet(z, 19);
    assert !IsSet(z, 20) && !IsSet(z, 21) && !IsSet(z, 22) && !IsSet(z, 23);
    assert !IsSet(z, 24) && !IsSet(z, 25) && !IsSet(z, 26) && !IsSet(z, 27);
    assert !IsSet(z, 28) && !IsSet(z, 29) && !IsSet(z, 30) && !IsSet(z, 31);
    AllSingles();
    AllClear(z);
  }

  lemma AllSingles()
    ensures Single(0) == 0x1 && Single(1) == 0x2 && Single(2) == 0x4 && Single(3) == 0x8
    ensures Single(4) == 0x10 && Single(5) == 0x20 && Single(6) == 0x40 && Single(7) == 0x80
    ensures Single(8) == 0x100 && Single(9) == 0x200 && Single(10) == 0x400 && Single(11) == 0x800
    ensures Single(12) == 0x1000 && Single(13) == 0x2000 && Single(14) == 0x4000 && Single(15) == 0x8000
    ensures Single(16) == 0x10000 && Single(17) == 0x20000 && Single(18) == 0x40000 && Single(19) == 0x80000
    ensures Single(20) == 0x100000 && Single(21) == 0x200000 && Single(22) == 0x400000 && Single(23) == 0x800000
    ensures Single(24) == 0x1000000 && Single(25) == 0x2000000 && Single(26) == 0x4000000 && Single(27) == 0x8000000
    ensures Single(28) == 0x10000000 && Single(29) == 0x20000000 && Single(30) == 0x40000000 && Single(31) == 0x80000000
  {
    assert Single(3) == 0x8;
    assert Single(7) == 0x80;
    assert Single(11) == 0x800;
    assert Single(15) == 0x8000;
    assert Single(19) == 0x80000;
    assert Single(23) == 0x800000;
    assert Single(27) == 0x8000000;
    assert Single(31) == 0x80000000;
  }

  lemma AllClear(z: bv32)
    requires z & 0x1 == 0 && z & 0x2 == 0 && z & 0x4 == 0 && z & 0x8 == 0
    requires z & 0x10 == 0 && z & 0x20 == 0 && z & 0x40 == 0 && z & 0x80 == 0
    requires z & 0x100 == 0 && z & 0x200 == 0 && z & 0x400 == 0 && z & 0x800 == 0
    requires z & 0x1000 == 0 && z & 0x2000 == 0 && z & 0x4000 == 0 && z & 0x8000 == 0
    requires z & 0x10000 == 0 && z & 0x20000 == 0 && z & 0x40000 == 0 && z & 0x80000 == 0
    requires z & 0x100000 == 0 && z & 0x200000 == 0 && z & 0x400000 == 0 && z & 0x800000 == 0
    requires z & 0x1000000 == 0 && z & 0x2000000 == 0 && z & 0x4000000 == 0 && z & 0x8000000 == 0
    requires z & 0x10000000 == 0 && z & 0x20000000 == 0 && z & 0x40000000 == 0 && z & 0x80000000 == 0
    ensures z == 0
  {
  }
}
