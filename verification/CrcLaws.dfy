/** What the complements and the polynomial of the checksum are for: the constant that a buffer with its checksum behind
    it has, the zeros in front that it notices, and the pairs of bits. */
module CrcLaws {
  import opened Words
  import Sizes
  import opened Crc32Register
  import opened Crc32
  import opened CrcPeriod

  // ----- zeros in front -----

  function Zeros(n: nat): seq<bv8> {
    seq(n, i => 0)
  }

  lemma ZerosAreSteps(c: nat, n: nat)
    ensures RawCrc(c, Zeros(n)) == Steps(c, 8 * n)
  {
    var bits := Bits(Zeros(n));
    BitsLength(Zeros(n));
    forall j | 0 <= j < |bits| ensures !bits[j] {
      BitPosition(Zeros(n), j / 8, j % 8);
      assert Zeros(n)[j / 8] == 0;
      assert !ByteBits(0)[j % 8];
    }
    ZeroBits(c, bits);
  }

  /** Registers that differ stay different, whatever is fed to both. */
  lemma RegisterOneToOne(c: nat, d: nat, bits: seq<bool>)
    requires c < W32 && d < W32
    ensures Register(c, bits) == Register(d, bits) <==> c == d
  {
    var none := Difference(bits, bits);
    RegisterIsLinear(c, d, bits, bits);
    ZeroBits(Xor(c, d), none);
    XorSelf(Register(c, bits), Register(d, bits));
    XorSelf(c, d);
    WordPower();
    XorBelow(c, d, 32);
    if Steps(Xor(c, d), |none|) == 0 {
      StepsAreInjective(Xor(c, d), |none|);
    }
  }

  lemma OnesBelow()
    ensures 0 < ONES < W32
  {
    VOnes();
    VBelow(ONESWORD);
    VOfZero();
    VIsInjective(ONESWORD, 0);
  }

  lemma EightTimes(n: nat)
    ensures (8 * n) % PERIOD == 0 <==> n % PERIOD == 0
  {
    if (8 * n) % PERIOD == 0 {
      var j := Eighth(n, 8 * n / PERIOD);
      Sizes.MultipleMod(j, PERIOD);
    }
    if n % PERIOD == 0 {
      Sizes.MultipleMod(8 * (n / PERIOD), PERIOD);
    }
  }

  lemma Eighth(n: nat, k: nat) returns (j: int)
    requires 8 * n == 0xffff_ffff * k
    ensures n == 0xffff_ffff * j
  {
    j := k - (n - 0x1fff_ffff * k);
  }

  /** Zero bytes in front of a buffer always change its checksum, unless their number is a multiple of 2^32 - 1, or
      the checksum started from all ones. */
  lemma LeadingZeros(c: nat, n: nat, s: seq<bv8>)
    requires c < W32
    ensures Crc(c, Zeros(n) + s) == Crc(c, s) <==> c == ONES || n % PERIOD == 0
  {
    var x := Xor(c, ONES);
    OnesBelow();
    WordPower();
    XorBelow(c, ONES, 32);
    XorSelf(c, ONES);
    RawCrcOfConcatenation(x, Zeros(n), s);
    ZerosAreSteps(x, n);
    StepsBelow(x, 8 * n);
    RegisterOneToOne(Steps(x, 8 * n), x, Bits(s));
    SameXor(RawCrc(x, Zeros(n) + s), RawCrc(x, s), ONES);
    PeriodOfRegister(x, 8 * n);
    EightTimes(n);
  }

  /** A buffer of zeros does not have checksum zero, unless it is empty or as long as a multiple of 2^32 - 1. */
  lemma ZeroBuffer(n: nat)
    ensures Crc(0, Zeros(n)) == 0 <==> n % PERIOD == 0
  {
    LeadingZeros(0, n, []);
    assert Zeros(n) + [] == Zeros(n);
    OnesBelow();
    XorZero(ONES);
    XorSelf(ONES, ONES);
    assert Crc(0, []) == Xor(Xor(0, ONES), ONES);
  }

  // ----- two wrong bits -----

  lemma ZerosThen(c: nat, e: seq<bool>, k: nat, f: seq<bool>)
    requires k <= |e| && f == e[k..] && forall i :: 0 <= i < k ==> !e[i]
    ensures Register(c, e) == Register(Steps(c, k), f)
  {
    assert e == e[..k] + f;
    RegisterSplit(c, e[..k], f);
    ZeroBits(c, e[..k]);
  }

  lemma OneThen(c: nat, e: seq<bool>, f: seq<bool>)
    requires e != [] && e[0] && f == e[1..]
    ensures Register(c, e) == Register(Steps(Xor(c, 1), 1), f)
  {
    assert Steps(Xor(c, 1), 1) == Steps(Step(Xor(c, 1)), 0);
  }

  /** A pair of ones, the first at i and the second at j. */
  ghost predicate Pair(e: seq<bool>, i: nat, j: nat) {
    i < j < |e| && forall k :: 0 <= k < |e| ==> (e[k] <==> k == i || k == j)
  }

  ghost predicate Alone(e: seq<bool>) {
    e != [] && e[0] && forall k :: 0 < k < |e| ==> !e[k]
  }

  lemma OneAlone(c: nat, e: seq<bool>)
    requires Alone(e)
    ensures Register(c, e) == Steps(Xor(c, 1), |e|)
  {
    OneThen(c, e, e[1..]);
    ZeroBits(Steps(Xor(c, 1), 1), e[1..]);
    StepsAdd(Xor(c, 1), 1, |e| - 1);
  }

  lemma FirstPart(e: seq<bool>, i: nat, j: nat)
    requires Pair(e, i, j)
    ensures Pair(e[i..], 0, j - i) && forall k :: 0 <= k < i ==> !e[k]
  {
  }

  lemma SecondPart(e: seq<bool>, f: seq<bool>, g: seq<bool>, j: nat)
    requires Pair(e, 0, j) && f == e[1..] && g == e[j..]
    ensures f[j - 1..] == g && Alone(g) && forall k :: 0 <= k < j - 1 ==> !f[k]
  {
  }

  /** The register after two ones, with zeros before, between and behind. */
  lemma TwoOnes(c: nat, e: seq<bool>, i: nat, j: nat)
    requires Pair(e, i, j)
    ensures Register(c, e) == Steps(Xor(Steps(Xor(Steps(c, i), 1), j - i), 1), |e| - j)
  {
    FirstPart(e, i, j);
    ZerosThen(c, e, i, e[i..]);
    FromFirst(Steps(c, i), e[i..], j - i);
  }

  lemma FromFirst(c: nat, e: seq<bool>, j: nat)
    requires Pair(e, 0, j)
    ensures Register(c, e) == Steps(Xor(Steps(Xor(c, 1), j), 1), |e| - j)
  {
    var f, g := e[1..], e[j..];
    SecondPart(e, f, g, j);
    OneThen(c, e, f);
    ZerosThen(Steps(Xor(c, 1), 1), f, j - 1, g);
    StepsAdd(Xor(c, 1), 1, j - 1);
    OneAlone(Steps(Xor(c, 1), j), g);
  }

  /** Checksums are equal exactly when the difference of the buffers leaves no trace in a register that was zero. */
  lemma SameCrc(c: nat, s: seq<bv8>, t: seq<bv8>, x: nat)
    requires |Bits(s)| == |Bits(t)| && x == Xor(c, ONES)
    ensures Crc(c, s) == Crc(c, t) <==> Register(Xor(x, x), Difference(Bits(s), Bits(t))) == 0
  {
    RegisterIsLinear(x, x, Bits(s), Bits(t));
    XorSelf(Register(x, Bits(s)), Register(x, Bits(t)));
    SameXor(Register(x, Bits(s)), Register(x, Bits(t)), ONES);
  }

  /** Zero, called z, and one, called u. */
  lemma ZeroAndOne(x: nat) returns (z: nat, u: nat)
    ensures z == Xor(x, x) && u == Xor(z, 1) && 0 < u < W32
    ensures forall n {:trigger Steps(z, n)} :: Steps(z, n) == z
    ensures forall y {:trigger Xor(y, 1)} :: Xor(y, 1) == 0 <==> y == u
  {
    XorSelf(x, x);
    XorZero(1);
    z, u := 0, 1;
    forall n ensures Steps(0, n) == 0 {
      StepsOfZero(n);
    }
    forall y ensures Xor(y, 1) == 0 <==> y == 1 {
      XorSelf(y, 1);
    }
  }

  lemma NoTrace(c: nat, m: nat)
    requires c < W32
    ensures Steps(c, m) == 0 <==> c == 0
  {
    StepsOfZero(m);
    if Steps(c, m) == 0 {
      StepsAreInjective(c, m);
    }
  }

  lemma OneBelow(c: nat)
    requires c < W32
    ensures Xor(c, 1) < W32
  {
    WordPower();
    XorBelow(c, 1, 32);
  }

  /** Two buffers that differ in two bits have the same checksum exactly when the bits are a multiple of 2^32 - 1
      apart: at no distance inside half a gigabyte. */
  lemma TwoBits(c: nat, s: seq<bv8>, t: seq<bv8>, i: nat, j: nat)
    requires |Bits(s)| == |Bits(t)| && i < j < |Bits(s)|
    requires forall k :: 0 <= k < |Bits(s)| ==> (Bits(s)[k] != Bits(t)[k] <==> k == i || k == j)
    ensures Crc(c, s) == Crc(c, t) <==> (j - i) % PERIOD == 0
  {
    SameCrc(c, s, t, Xor(c, ONES));
    PairOfBits(Bits(s), Bits(t), i, j);
    PairLeavesTrace(Xor(c, ONES), Difference(Bits(s), Bits(t)), i, j);
  }

  lemma PairLeavesTrace(x: nat, e: seq<bool>, i: nat, j: nat)
    requires Pair(e, i, j)
    ensures Register(Xor(x, x), e) == 0 <==> (j - i) % PERIOD == 0
  {
    TwoOnes(Xor(x, x), e, i, j);
    TraceOfTwo(x, i, j - i, |e| - j);
  }

  lemma TraceOfTwo(x: nat, i: nat, n: nat, m: nat)
    ensures Steps(Xor(Steps(Xor(Steps(Xor(x, x), i), 1), n), 1), m) == 0 <==> n % PERIOD == 0
  {
    var z, u := ZeroAndOne(x);
    assert Steps(z, i) == z;
    StepsBelow(u, n);
    OneBelow(Steps(u, n));
    NoTrace(Xor(Steps(u, n), 1), m);
    PeriodOfRegister(u, n);
  }

  lemma PairOfBits(a: seq<bool>, b: seq<bool>, i: nat, j: nat)
    requires |a| == |b| && i < j < |a|
    requires forall k :: 0 <= k < |a| ==> (a[k] != b[k] <==> k == i || k == j)
    ensures Pair(Difference(a, b), i, j) && |Difference(a, b)| == |a|
  {
  }

  // ----- a buffer and its checksum -----

  /** The bytes of a word, the lowest first. */
  function LowestFirst(x: bv32): seq<bv8> {
    [(x & 0xff) as bv8, ((x >> 8) & 0xff) as bv8, ((x >> 16) & 0xff) as bv8, ((x >> 24) & 0xff) as bv8]
  }

  lemma Byte0(x: bv32, b: bv8)
    requires b == (x & 0xff) as bv8
    ensures (b & 1 != 0 <==> x & 0x1 != 0) && (b & 2 != 0 <==> x & 0x2 != 0)
    ensures (b & 4 != 0 <==> x & 0x4 != 0)
    ensures (b & 8 != 0 <==> x & 0x8 != 0) && (b & 16 != 0 <==> x & 0x10 != 0)
    ensures (b & 32 != 0 <==> x & 0x20 != 0)
    ensures (b & 64 != 0 <==> x & 0x40 != 0) && (b & 128 != 0 <==> x & 0x80 != 0)
  {
  }

  lemma Byte1(x: bv32, b: bv8)
    requires b == ((x >> 8) & 0xff) as bv8
    ensures (b & 1 != 0 <==> x & 0x100 != 0) && (b & 2 != 0 <==> x & 0x200 != 0)
    ensures (b & 4 != 0 <==> x & 0x400 != 0)
    ensures (b & 8 != 0 <==> x & 0x800 != 0) && (b & 16 != 0 <==> x & 0x1000 != 0)
    ensures (b & 32 != 0 <==> x & 0x2000 != 0)
    ensures (b & 64 != 0 <==> x & 0x4000 != 0) && (b & 128 != 0 <==> x & 0x8000 != 0)
  {
  }

  lemma Byte2(x: bv32, b: bv8)
    requires b == ((x >> 16) & 0xff) as bv8
    ensures (b & 1 != 0 <==> x & 0x10000 != 0) && (b & 2 != 0 <==> x & 0x20000 != 0)
    ensures (b & 4 != 0 <==> x & 0x40000 != 0)
    ensures (b & 8 != 0 <==> x & 0x80000 != 0) && (b & 16 != 0 <==> x & 0x100000 != 0)
    ensures (b & 32 != 0 <==> x & 0x200000 != 0)
    ensures (b & 64 != 0 <==> x & 0x400000 != 0) && (b & 128 != 0 <==> x & 0x800000 != 0)
  {
  }

  lemma Byte3(x: bv32, b: bv8)
    requires b == ((x >> 24) & 0xff) as bv8
    ensures (b & 1 != 0 <==> x & 0x1000000 != 0) && (b & 2 != 0 <==> x & 0x2000000 != 0)
    ensures (b & 4 != 0 <==> x & 0x4000000 != 0)
    ensures (b & 8 != 0 <==> x & 0x8000000 != 0) && (b & 16 != 0 <==> x & 0x10000000 != 0)
    ensures (b & 32 != 0 <==> x & 0x20000000 != 0)
    ensures (b & 64 != 0 <==> x & 0x40000000 != 0) && (b & 128 != 0 <==> x & 0x80000000 != 0)
  {
  }

  lemma BitOfByte0(x: bv32, b: bv8, j: nat)
    requires b == (x & 0xff) as bv8 && j < 8
    ensures IsSet(x, 0 + j) == ByteBits(b)[j]
  {
    AllSingles();
    Byte0(x, b);
  }

  lemma BitOfByte1(x: bv32, b: bv8, j: nat)
    requires b == ((x >> 8) & 0xff) as bv8 && j < 8
    ensures IsSet(x, 8 + j) == ByteBits(b)[j]
  {
    AllSingles();
    Byte1(x, b);
  }

  lemma BitOfByte2(x: bv32, b: bv8, j: nat)
    requires b == ((x >> 16) & 0xff) as bv8 && j < 8
    ensures IsSet(x, 16 + j) == ByteBits(b)[j]
  {
    AllSingles();
    Byte2(x, b);
  }

  lemma BitOfByte3(x: bv32, b: bv8, j: nat)
    requires b == ((x >> 24) & 0xff) as bv8 && j < 8
    ensures IsSet(x, 24 + j) == ByteBits(b)[j]
  {
    AllSingles();
    Byte3(x, b);
  }

  /** Eight bits of a word from bit k on. */
  ghost predicate PartIs(x: bv32, k: nat, b: bv8) {
    forall j: nat {:trigger ByteBits(b)[j]} :: j < 8 ==> IsSet(x, k + j) == ByteBits(b)[j]
  }

  lemma FourBytes(a: bv8, b: bv8, c: bv8, d: bv8)
    ensures Bits([a, b, c, d]) == ByteBits(a) + ByteBits(b) + ByteBits(c) + ByteBits(d)
  {
    assert [a, b, c, d] == [a, b] + [c, d];
    BitsSplit([a, b], [c, d]);
    TwoBytes(a, b);
    TwoBytes(c, d);
  }

  lemma TwoBytes(a: bv8, b: bv8)
    ensures Bits([a, b]) == ByteBits(a) + ByteBits(b)
  {
    assert [a, b] == [a] + [b];
    BitsSplit([a], [b]);
    BitsOfOne(a);
    BitsOfOne(b);
  }

  lemma WordOfParts(x: bv32, a: bv8, b: bv8, c: bv8, d: bv8)
    requires PartIs(x, 0, a) && PartIs(x, 8, b) && PartIs(x, 16, c) && PartIs(x, 24, d)
    ensures Number(Bits([a, b, c, d])) == V(x) && |Bits([a, b, c, d])| == 32
  {
    FourBytes(a, b, c, d);
    var p := ByteBits(a) + ByteBits(b) + ByteBits(c) + ByteBits(d);
    forall k: nat | k < 32 ensures p[k] == WordBits(x)[k] {
      if k < 8 {
        assert p[k] == ByteBits(a)[k];
      } else if k < 16 {
        assert p[k] == ByteBits(b)[k - 8];
      } else if k < 24 {
        assert p[k] == ByteBits(c)[k - 16];
      } else {
        assert p[k] == ByteBits(d)[k - 24];
      }
    }
    assert p == WordBits(x);
  }

  lemma Part0(x: bv32, b: bv8)
    requires b == (x & 0xff) as bv8
    ensures PartIs(x, 0, b)
  {
    forall j: nat | j < 8 ensures IsSet(x, 0 + j) == ByteBits(b)[j] {
      BitOfByte0(x, b, j);
    }
  }

  lemma Part1(x: bv32, b: bv8)
    requires b == ((x >> 8) & 0xff) as bv8
    ensures PartIs(x, 8, b)
  {
    forall j: nat | j < 8 ensures IsSet(x, 8 + j) == ByteBits(b)[j] {
      BitOfByte1(x, b, j);
    }
  }

  lemma Part2(x: bv32, b: bv8)
    requires b == ((x >> 16) & 0xff) as bv8
    ensures PartIs(x, 16, b)
  {
    forall j: nat | j < 8 ensures IsSet(x, 16 + j) == ByteBits(b)[j] {
      BitOfByte2(x, b, j);
    }
  }

  lemma Part3(x: bv32, b: bv8)
    requires b == ((x >> 24) & 0xff) as bv8
    ensures PartIs(x, 24, b)
  {
    forall j: nat | j < 8 ensures IsSet(x, 24 + j) == ByteBits(b)[j] {
      BitOfByte3(x, b, j);
    }
  }

  lemma BitsOfWord(x: bv32)
    ensures Number(Bits(LowestFirst(x))) == V(x) && |Bits(LowestFirst(x))| == 32
  {
    var s := LowestFirst(x);
    Part0(x, s[0]);
    Part1(x, s[1]);
    Part2(x, s[2]);
    Part3(x, s[3]);
    WordOfParts(x, s[0], s[1], s[2], s[3]);
  }

  /** Thirty-two steps. */
  function WordSteps(x: bv32): bv32 {
    FourSteps(FourSteps(FourSteps(FourSteps(FourSteps(FourSteps(FourSteps(FourSteps(x))))))))
  }

  lemma ThirtyTwo(x: bv32, n: nat)
    ensures Steps(V(WordSteps(x)), n) == Steps(V(x), n + 32)
  {
    var b := FourSteps(x);
    var c := FourSteps(b);
    var d := FourSteps(c);
    var e := FourSteps(d);
    var f := FourSteps(e);
    var g := FourSteps(f);
    var h := FourSteps(g);
    VFourSteps(h, n);
    VFourSteps(g, n + 4);
    VFourSteps(f, n + 8);
    VFourSteps(e, n + 12);
    VFourSteps(d, n + 16);
    VFourSteps(c, n + 20);
    VFourSteps(b, n + 24);
    VFourSteps(x, n + 28);
  }

  /** A word fed byte by byte is added and then stepped. */
  lemma FedWord(r: nat, x: bv32, w: bv32)
    requires V(w) == Xor(r, V(x))
    ensures RawCrc(r, LowestFirst(x)) == V(WordSteps(w))
  {
    BitsOfWord(x);
    FedBits(r, Bits(LowestFirst(x)), V(x), w);
  }

  lemma FedBits(r: nat, bits: seq<bool>, v: nat, w: bv32)
    requires |bits| == 32 && Number(bits) == v && V(w) == Xor(r, v)
    ensures Register(r, bits) == V(WordSteps(w))
  {
    RegisterIsSteps(r, bits);
    ThirtyTwo(w, 0);
  }

  lemma OnesAfterWord()
    ensures WordSteps(ONESWORD) == 0xdebb20e3
  {
  }

  /** A buffer with its own checksum behind it, the lowest byte first, always has the same checksum. */
  lemma Residue(c: nat, s: seq<bv8>, x: bv32)
    requires V(x) == Crc(c, s)
    ensures Crc(c, s + LowestFirst(x)) == V(0x2144df1c)
  {
    var r := RawCrc(Xor(c, ONES), s);
    RawCrcOfConcatenation(Xor(c, ONES), s, LowestFirst(x));
    OnesRemain(r, V(x));
    FedWord(r, x, ONESWORD);
    OnesAfterWord();
    Complemented(0x2144df1c, 0xdebb20e3);
  }

  lemma OnesRemain(r: nat, v: nat)
    requires v == Xor(r, ONES)
    ensures Xor(r, v) == V(ONESWORD)
  {
    XorAssociates(r, r, ONES);
    XorSelf(r, r);
    XorZero(ONES);
    VOnes();
  }

  lemma Complemented(x: bv32, y: bv32)
    requires x == y ^ ONESWORD
    ensures V(x) == Xor(V(y), ONES)
  {
    VXorIs(x, y, ONESWORD);
    VOnes();
  }

  // ----- the check value -----

  /** One byte: a look-up and a shift, on words. */
  lemma OneByte(c: bv32, b: bv8, x: bv32, y: bv32, i: bv8, t: bv32, z: bv32)
    requires x == c ^ (b as bv32) && y == c >> 8 && i == (x & 0xff) as bv8 && t == StaticValue(i) && z == t ^ y
    ensures RawCrc(V(c), [b]) == V(z)
  {
    IndexOf(x);
    StaticIsRight(i);
    ByteIsLookUp(c, b, x, y, t, z);
    BitsOfOne(b);
  }

  /** The digits from 1 to 9. */
  predicate Digits(s: seq<bv8>) {
    && |s| == 9 && s[0] == 49 && s[1] == 50 && s[2] == 51 && s[3] == 52 && s[4] == 53
    && s[5] == 54 && s[6] == 55 && s[7] == 56 && s[8] == 57
  }

  lemma Fed(c: nat, s: seq<bv8>, n: nat)
    requires n < |s|
    ensures RawCrc(c, s[..n + 1]) == RawCrc(RawCrc(c, s[..n]), [s[n]])
  {
    RawCrcOfConcatenation(c, s[..n], [s[n]]);
    assert s[..n + 1] == s[..n] + [s[n]];
  }

  lemma NothingFed(c: nat, s: seq<bv8>)
    ensures RawCrc(c, s[..0]) == c
  {
    assert s[..0] == [];
  }

  type Register32 = bv32 -> nat

  /** A look-up on words, as far as the numbers they stand for are concerned. */
  ghost predicate Looks(v: Register32, c: bv32, b: bv8, x: bv32, y: bv32, i: bv8, t: bv32, z: bv32) {
    x == c ^ (b as bv32) && y == c >> 8 && i == (x & 0xff) as bv8 && t == StaticValue(i) && z == t ^ y ==>
      RawCrc(v(c), [b]) == v(z)
  }

  ghost predicate LooksUp(v: Register32) {
    forall c, b, x, y, i, t, z {:trigger Looks(v, c, b, x, y, i, t, z)} :: Looks(v, c, b, x, y, i, t, z)
  }

  lemma WordsLookUp()
    ensures LooksUp(V)
  {
    forall c, b, x, y, i, t, z ensures Looks(V, c, b, x, y, i, t, z) {
      if x == c ^ (b as bv32) && y == c >> 8 && i == (x & 0xff) as bv8 && t == StaticValue(i) && z == t ^ y {
        OneByte(c, b, x, y, i, t, z);
      }
    }
  }

  lemma Digit1(v: Register32)
    requires LooksUp(v)
    ensures RawCrc(v(0xffffffff), [49]) == v(0x7c231048)
  {
    assert Looks(v, 0xffffffff, 49, 0xffffffce, 0x00ffffff, 206, 0x7cdcefb7, 0x7c231048);
  }

  lemma Digit2(v: Register32)
    requires LooksUp(v)
    ensures RawCrc(v(0x7c231048), [50]) == v(0xb0acbb32)
  {
    assert Looks(v, 0x7c231048, 50, 0x7c23107a, 0x007c2310, 122, 0xb0d09822, 0xb0acbb32);
  }

  lemma Digit3(v: Register32)
    requires LooksUp(v)
    ensures RawCrc(v(0xb0acbb32), [51]) == v(0x77b79c2d)
  {
    assert Looks(v, 0xb0acbb32, 51, 0xb0acbb01, 0x00b0acbb, 1, 0x77073096, 0x77b79c2d);
  }

  lemma Digit4(v: Register32)
    requires LooksUp(v)
    ensures RawCrc(v(0x77b79c2d), [52]) == v(0x641c1f5c)
  {
    assert Looks(v, 0x77b79c2d, 52, 0x77b79c19, 0x0077b79c, 25, 0x646ba8c0, 0x641c1f5c);
  }

  lemma Digit5(v: Register32)
    requires LooksUp(v)
    ensures RawCrc(v(0x641c1f5c), [53]) == v(0x340ac5e3)
  {
    assert Looks(v, 0x641c1f5c, 53, 0x641c1f69, 0x00641c1f, 105, 0x346ed9fc, 0x340ac5e3);
  }

  lemma Digit6(v: Register32)
    requires LooksUp(v)
    ensures RawCrc(v(0x340ac5e3), [54]) == v(0xf68d2c9e)
  {
    assert Looks(v, 0x340ac5e3, 54, 0x340ac5d5, 0x00340ac5, 213, 0xf6b9265b, 0xf68d2c9e);
  }

  lemma Digit7(v: Register32)
    requires LooksUp(v)
    ensures RawCrc(v(0xf68d2c9e), [55]) == v(0xaffc9660)
  {
    assert Looks(v, 0xf68d2c9e, 55, 0xf68d2ca9, 0x00f68d2c, 169, 0xaf0a1b4c, 0xaffc9660);
  }

  lemma Digit8(v: Register32)
    requires LooksUp(v)
    ensures RawCrc(v(0xaffc9660), [56]) == v(0x651f2550)
  {
    assert Looks(v, 0xaffc9660, 56, 0xaffc9658, 0x00affc96, 88, 0x65b0d9c6, 0x651f2550);
  }

  lemma Digit9(v: Register32)
    requires LooksUp(v)
    ensures RawCrc(v(0x651f2550), [57]) == v(0x340bc6d9)
  {
    assert Looks(v, 0x651f2550, 57, 0x651f2569, 0x00651f25, 105, 0x346ed9fc, 0x340bc6d9);
  }

  lemma FedNine(s: seq<bv8>, v: seq<nat>)
    requires |s| == 9 && |v| == 10 && forall i :: 0 <= i < 9 ==> RawCrc(v[i], [s[i]]) == v[i + 1]
    ensures RawCrc(v[0], s) == v[9]
  {
    var c := v[0];
    NothingFed(c, s);
    FedThree(c, s, 0, v[0], v[1], v[2], v[3]);
    FedThree(c, s, 3, v[3], v[4], v[5], v[6]);
    FedThree(c, s, 6, v[6], v[7], v[8], v[9]);
    assert s[..9] == s;
  }

  lemma FedThree(c: nat, s: seq<bv8>, n: nat, u: nat, v: nat, w: nat, x: nat)
    requires n + 3 <= |s| && RawCrc(c, s[..n]) == u
    requires RawCrc(u, [s[n]]) == v && RawCrc(v, [s[n + 1]]) == w && RawCrc(w, [s[n + 2]]) == x
    ensures RawCrc(c, s[..n + 3]) == x
  {
    Fed(c, s, n);
    Fed(c, s, n + 1);
    Fed(c, s, n + 2);
  }

  lemma AllDigits(v: Register32, s: seq<bv8>)
    requires LooksUp(v) && Digits(s)
    ensures RawCrc(v(0xffffffff), s) == v(0x340bc6d9)
  {
    Digit1(v);
    Digit2(v);
    Digit3(v);
    Digit4(v);
    Digit5(v);
    Digit6(v);
    Digit7(v);
    Digit8(v);
    Digit9(v);
    FedNine(s, [v(0xffffffff), v(0x7c231048), v(0xb0acbb32), v(0x77b79c2d), v(0x641c1f5c),
                v(0x340ac5e3), v(0xf68d2c9e), v(0xaffc9660), v(0x651f2550), v(0x340bc6d9)]);
  }

  /** The check value that the literature gives for this checksum. */
  lemma CheckValue(s: seq<bv8>)
    requires Digits(s)
    ensures Crc(0, s) == V(0xcbf43926)
  {
    VOnes();
    XorZero(ONES);
    WordsLookUp();
    AllDigits(V, s);
    Complemented(0xcbf43926, 0x340bc6d9);
  }
}
