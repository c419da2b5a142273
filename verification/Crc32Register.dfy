/** CRC-32 as section 8 of RFC 1952 defines it: a shift register over the bits of a buffer. Its words are the
    numbers below 2^32, and exclusive-or is defined bit by bit. */
module Crc32Register {
  import opened Words

  // ----- exclusive-or -----

  function Xor(a: nat, b: nat): nat
    decreases a, b
  {
    if a == 0 && b == 0 then 0 else (if a % 2 == b % 2 then 0 else 1) + 2 * Xor(a / 2, b / 2)
  }

  lemma {:induction false} XorHalf(a: nat, b: nat)
    ensures Xor(a, b) / 2 == Xor(a / 2, b / 2) && (Xor(a, b) % 2 == 1 <==> a % 2 != b % 2)
  {
  }

  lemma {:induction false} XorCommutes(a: nat, b: nat)
    ensures Xor(a, b) == Xor(b, a)
    decreases a + b
  {
    if a != 0 || b != 0 {
      XorCommutes(a / 2, b / 2);
    }
  }

  lemma {:induction false} XorZero(a: nat)
    ensures Xor(a, 0) == a == Xor(0, a)
  {
    if a != 0 {
      XorZero(a / 2);
    }
  }

  lemma {:induction false} XorSelf(a: nat, b: nat)
    ensures Xor(a, b) == 0 <==> a == b
    decreases a + b
  {
    if a != 0 || b != 0 {
      XorSelf(a / 2, b / 2);
    }
  }

  lemma {:induction false} XorAssociates(a: nat, b: nat, c: nat)
    ensures Xor(Xor(a, b), c) == Xor(a, Xor(b, c))
    decreases a + b + c
  {
    if a != 0 || b != 0 || c != 0 {
      XorHalf(a, b);
      XorHalf(b, c);
      XorHalf(Xor(a, b), c);
      XorHalf(a, Xor(b, c));
      XorAssociates(a / 2, b / 2, c / 2);
    }
  }

  lemma XorInterchange(a: nat, b: nat, c: nat, d: nat)
    ensures Xor(Xor(a, b), Xor(c, d)) == Xor(Xor(a, c), Xor(b, d))
  {
    XorAssociates(a, b, Xor(c, d));
    XorAssociates(b, c, d);
    XorCommutes(b, c);
    XorAssociates(c, b, d);
    XorAssociates(a, c, Xor(b, d));
  }

  lemma {:induction false} XorBelow(a: nat, b: nat, k: nat)
    requires a < Pow2(k) && b < Pow2(k)
    ensures Xor(a, b) < Pow2(k)
    decreases k
  {
    if k > 0 {
      XorBelow(a / 2, b / 2, k - 1);
    }
  }

  // ----- the shift register -----

  /** The exponents of the polynomial that defines this checksum, except 32; the lowest is the top bit. */
  const TERMS: set<int> := {0, 1, 2, 4, 5, 7, 8, 10, 11, 12, 16, 22, 23, 26}

  function PolyBits(): (bits: seq<bool>)
    ensures |bits| == 32 && forall k :: 0 <= k < 32 ==> (bits[k] <==> 31 - k in TERMS)
  {
    seq(32, k => 31 - k in TERMS)
  }

  function OneBits(): (bits: seq<bool>)
    ensures |bits| == 32 && forall k :: 0 <= k < 32 ==> bits[k]
  {
    seq(32, k => true)
  }

  const POLY: nat := Number(PolyBits())
  const ONES: nat := Number(OneBits())

  /** The number whose bits these are, the least significant first. */
  function Number(bits: seq<bool>): nat
    decreases |bits|
  {
    if bits == [] then 0 else BitValue(bits[0]) + 2 * Number(bits[1..])
  }

  lemma {:induction false} NumberBelow(bits: seq<bool>)
    ensures Number(bits) < Pow2(|bits|)
    decreases |bits|
  {
    if bits != [] {
      NumberBelow(bits[1..]);
    }
  }

  lemma {:induction false} NumberWithTop(bits: seq<bool>)
    requires bits != [] && bits[|bits| - 1]
    ensures Number(bits) >= Pow2(|bits| - 1)
    decreases |bits|
  {
    if |bits| > 1 {
      NumberWithTop(bits[1..]);
    }
  }

  lemma PolyBounds()
    ensures W32 / 2 <= POLY < W32
  {
    var bits := PolyBits();
    WordPower();
    assert bits[31];
    NumberBelow(bits);
    NumberWithTop(bits);
    assert Pow2(32) == 2 * Pow2(31);
  }

  lemma {:induction false} NumberXor(a: seq<bool>, b: seq<bool>)
    requires |a| == |b|
    ensures Number(Difference(a, b)) == Xor(Number(a), Number(b))
    decreases |a|
  {
    if a != [] {
      NumberXor(a[1..], b[1..]);
      assert Difference(a, b)[1..] == Difference(a[1..], b[1..]);
      XorHalf(Number(a), Number(b));
    }
  }

  /** Where two sequences of bits differ. */
  function Difference(a: seq<bool>, b: seq<bool>): (r: seq<bool>)
    requires |a| == |b|
  {
    seq(|a|, i requires 0 <= i < |a| => a[i] != b[i])
  }

  lemma {:induction false} NumberPadded(bits: seq<bool>, zeros: seq<bool>)
    requires forall i :: 0 <= i < |zeros| ==> !zeros[i]
    ensures Number(bits + zeros) == Number(bits)
    decreases |bits| + |zeros|
  {
    if bits != [] {
      assert (bits + zeros)[1..] == bits[1..] + zeros;
      NumberPadded(bits[1..], zeros);
    } else if zeros != [] {
      assert bits + zeros == zeros;
      NumberPadded([], zeros[1..]);
      assert [] + zeros[1..] == zeros[1..];
    }
  }

  /** The register after a zero bit: shifted, and the polynomial added when a one falls out. */
  function Step(c: nat): nat {
    if c % 2 == 1 then Xor(POLY, c / 2) else c / 2
  }

  function Steps(c: nat, n: nat): nat
    decreases n, c
  {
    if n == 0 then c else Steps(Step(c), n - 1)
  }

  function BitValue(b: bool): nat {
    if b then 1 else 0
  }

  /** The register after the bits, one at a time: the definition that all else is compared with. */
  function Register(c: nat, bits: seq<bool>): nat
    decreases |bits|
  {
    if bits == [] then c else Register(Step(Xor(c, BitValue(bits[0]))), bits[1..])
  }

  /** The bits of a byte, the least significant first. */
  function ByteBits(b: bv8): seq<bool> {
    [b & 1 != 0, b & 2 != 0, b & 4 != 0, b & 8 != 0, b & 16 != 0, b & 32 != 0, b & 64 != 0, b & 128 != 0]
  }

  /** The bits of a buffer, in the order the register takes them. */
  function Bits(s: seq<bv8>): seq<bool> {
    if s == [] then [] else ByteBits(s[0]) + Bits(s[1..])
  }

  /** The checksum without the complement before and after. */
  function RawCrc(c: nat, s: seq<bv8>): nat {
    Register(c, Bits(s))
  }

  /** The function of RFC 1952, from a previous value. */
  function Crc(c: nat, s: seq<bv8>): nat {
    Xor(RawCrc(Xor(c, ONES), s), ONES)
  }

  // ----- the algebra of the register -----

  function Mask(odd: bool): nat {
    if odd then POLY else 0
  }

  lemma StepIs(c: nat)
    ensures Step(c) == Xor(Mask(c % 2 == 1), c / 2)
  {
    XorZero(c / 2);
  }

  lemma MasksXor(p: bool, q: bool)
    ensures Xor(Mask(p), Mask(q)) == Mask(p != q)
  {
    XorZero(POLY);
    XorSelf(POLY, POLY);
    XorZero(0);
  }

  lemma StepIsLinear(a: nat, b: nat)
    ensures Step(Xor(a, b)) == Xor(Step(a), Step(b))
  {
    StepIs(a);
    StepIs(b);
    StepIs(Xor(a, b));
    XorHalf(a, b);
    MasksXor(a % 2 == 1, b % 2 == 1);
    XorInterchange(Mask(a % 2 == 1), Mask(b % 2 == 1), a / 2, b / 2);
  }

  lemma {:induction false} StepsAreLinear(a: nat, b: nat, n: nat)
    ensures Steps(Xor(a, b), n) == Xor(Steps(a, n), Steps(b, n))
    decreases n
  {
    if n > 0 {
      StepIsLinear(a, b);
      StepsAreLinear(Step(a), Step(b), n - 1);
    }
  }

  lemma StepBelow(c: nat)
    requires c < W32
    ensures Step(c) < W32
  {
    WordPower();
    PolyBounds();
    XorBelow(POLY, c / 2, 32);
  }

  /** Only the zero register steps to zero, because the polynomial has its top bit. */
  lemma StepIsInjective(c: nat)
    requires c < W32 && Step(c) == 0
    ensures c == 0
  {
    PolyBounds();
    XorSelf(POLY, c / 2);
  }

  lemma {:induction false} StepsAreInjective(c: nat, n: nat)
    requires c < W32 && Steps(c, n) == 0
    ensures c == 0
    decreases n
  {
    if n > 0 {
      StepBelow(c);
      StepsAreInjective(Step(c), n - 1);
      StepIsInjective(c);
    }
  }

  lemma {:induction false} StepsBelow(c: nat, n: nat)
    requires c < W32
    ensures Steps(c, n) < W32
    decreases n
  {
    if n > 0 {
      StepBelow(c);
      StepsBelow(Step(c), n - 1);
    }
  }

  lemma {:induction false} StepsOfZero(n: nat)
    ensures Steps(0, n) == 0
    decreases n
  {
    if n > 0 {
      StepsOfZero(n - 1);
    }
  }

  /** Feeding bits one by one is adding them all at once and then stepping. */
  lemma {:induction false} RegisterIsSteps(c: nat, bits: seq<bool>)
    ensures Register(c, bits) == Steps(Xor(c, Number(bits)), |bits|)
    decreases |bits|
  {
    if bits == [] {
      XorZero(c);
    } else {
      var b, w := BitValue(bits[0]), Number(bits[1..]);
      RegisterIsSteps(Step(Xor(c, b)), bits[1..]);
      FirstBit(c, b, w);
    }
  }

  lemma FirstBit(c: nat, b: nat, w: nat)
    requires b <= 1
    ensures Step(Xor(c, b + 2 * w)) == Xor(Step(Xor(c, b)), w)
  {
    var x, y := Xor(c, b), Xor(c, b + 2 * w);
    FirstBitHalves(c, b, w);
    StepIs(x);
    StepIs(y);
    XorAssociates(Mask(x % 2 == 1), c / 2, w);
  }

  lemma FirstBitHalves(c: nat, b: nat, w: nat)
    requires b <= 1
    ensures Xor(c, b) / 2 == c / 2 && Xor(c, b + 2 * w) / 2 == Xor(c / 2, w)
    ensures Xor(c, b) % 2 == Xor(c, b + 2 * w) % 2
  {
    XorHalf(c, b);
    XorHalf(c, b + 2 * w);
    XorZero(c / 2);
  }

  lemma {:induction false} RegisterSplit(c: nat, a: seq<bool>, b: seq<bool>)
    ensures Register(c, a + b) == Register(Register(c, a), b)
    decreases |a|
  {
    if a == [] {
      assert a + b == b;
    } else {
      assert (a + b)[1..] == a[1..] + b;
      RegisterSplit(Step(Xor(c, BitValue(a[0]))), a[1..], b);
    }
  }

  // ----- the bits of a buffer -----

  lemma {:induction false} BitsLength(s: seq<bv8>)
    ensures |Bits(s)| == 8 * |s|
  {
    if s != [] {
      BitsLength(s[1..]);
    }
  }

  /** Bit 8 * i + k of a buffer is bit k of byte i. */
  lemma {:induction false} BitPosition(s: seq<bv8>, i: nat, k: nat)
    requires i < |s| && k < 8
    ensures |Bits(s)| == 8 * |s| && Bits(s)[8 * i + k] == ByteBits(s[i])[k]
    decreases i
  {
    BitsLength(s);
    var b, more := ByteBits(s[0]), Bits(s[1..]);
    assert Bits(s) == b + more;
    if i > 0 {
      BitPosition(s[1..], i - 1, k);
      assert (b + more)[8 * i + k] == more[8 * (i - 1) + k];
    }
  }

  lemma SameByte(a: bv8, b: bv8)
    requires ByteBits(a) == ByteBits(b)
    ensures a == b
  {
    var x, y := ByteBits(a), ByteBits(b);
    assert x[0] == y[0] && x[1] == y[1] && x[2] == y[2] && x[3] == y[3];
    assert x[4] == y[4] && x[5] == y[5] && x[6] == y[6] && x[7] == y[7];
  }

  /** Buffers with the same bits are the same. */
  lemma {:induction false} BitsTell(s: seq<bv8>, t: seq<bv8>)
    requires |s| == |t| && Bits(s) == Bits(t)
    ensures s == t
  {
    if s != [] {
      assert ByteBits(s[0]) == Bits(s)[..8] && ByteBits(t[0]) == Bits(t)[..8];
      SameByte(s[0], t[0]);
      assert Bits(s[1..]) == Bits(s)[8..] && Bits(t[1..]) == Bits(t)[8..];
      BitsTell(s[1..], t[1..]);
    }
  }

  // ----- the law of concatenation -----

  lemma {:induction false} BitsSplit(s: seq<bv8>, t: seq<bv8>)
    ensures Bits(s + t) == Bits(s) + Bits(t)
  {
    if s == [] {
      assert s + t == t;
    } else {
      assert (s + t)[1..] == s[1..] + t;
      BitsSplit(s[1..], t);
    }
  }

  /** The checksum of a buffer can be computed in parts. */
  lemma RawCrcOfConcatenation(c: nat, s: seq<bv8>, t: seq<bv8>)
    ensures RawCrc(RawCrc(c, s), t) == RawCrc(c, s + t)
  {
    BitsSplit(s, t);
    RegisterSplit(c, Bits(s), Bits(t));
  }

  lemma CrcOfConcatenation(c: nat, s: seq<bv8>, t: seq<bv8>)
    ensures Crc(Crc(c, s), t) == Crc(c, s + t)
  {
    var r := RawCrc(Xor(c, ONES), s);
    XorAssociates(r, ONES, ONES);
    XorSelf(ONES, ONES);
    XorZero(r);
    RawCrcOfConcatenation(Xor(c, ONES), s, t);
  }

  // ----- error detection -----

  /** The difference of two registers is the register of the differences. */
  lemma {:induction false} RegisterIsLinear(c: nat, d: nat, a: seq<bool>, b: seq<bool>)
    requires |a| == |b|
    ensures Xor(Register(c, a), Register(d, b)) == Register(Xor(c, d), Difference(a, b))
    decreases |a|
  {
    if a != [] {
      var x, y := Xor(c, BitValue(a[0])), Xor(d, BitValue(b[0]));
      StepIsLinear(x, y);
      XorInterchange(c, BitValue(a[0]), d, BitValue(b[0]));
      BitsXor(a[0], b[0]);
      RegisterIsLinear(Step(x), Step(y), a[1..], b[1..]);
      assert Difference(a, b)[1..] == Difference(a[1..], b[1..]);
    }
  }

  lemma BitsXor(p: bool, q: bool)
    ensures Xor(BitValue(p), BitValue(q)) == BitValue(p != q)
  {
    XorSelf(1, 1);
    XorZero(1);
    XorZero(0);
  }

  lemma {:induction false} NumberNotZero(bits: seq<bool>, i: nat)
    requires i < |bits| && bits[i]
    ensures Number(bits) != 0
    decreases |bits|
  {
    if i > 0 {
      NumberNotZero(bits[1..], i - 1);
    }
  }

  /** Zero bits are steps. */
  lemma {:induction false} ZeroBits(c: nat, bits: seq<bool>)
    requires forall i :: 0 <= i < |bits| ==> !bits[i]
    ensures Register(c, bits) == Steps(c, |bits|)
    decreases |bits|
  {
    if bits != [] {
      XorZero(c);
      ZeroBits(Step(c), bits[1..]);
    }
  }

  /** At most 32 bits with a one among them leave an empty register other than zero. */
  lemma WordIsSeen(w: seq<bool>, i: nat)
    requires i < |w| <= 32 && w[i]
    ensures Register(0, w) == Steps(Number(w), |w|) && 0 < Number(w) < W32
  {
    RegisterIsSteps(0, w);
    XorZero(Number(w));
    NumberNotZero(w, i);
    NumberBelow(w);
    WordPower();
    Pow2Grows(|w|, 32);
  }

  /** The zeros before a burst leave the register empty, and those after it are steps. */
  lemma AroundBurst(a: seq<bool>, w: seq<bool>, b: seq<bool>)
    requires forall i :: 0 <= i < |a| ==> !a[i]
    requires forall i :: 0 <= i < |b| ==> !b[i]
    ensures Register(0, a + (w + b)) == Steps(Register(0, w), |b|)
  {
    RegisterSplit(0, a, w + b);
    RegisterSplit(0, w, b);
    ZeroBits(0, a);
    StepsOfZero(|a|);
    ZeroBits(Register(0, w), b);
  }

  /** The zeros before a burst, the 32 bits that hold it or fewer at the end, and the zeros after it. */
  lemma CutBurst(e: seq<bool>, low: nat, i: nat) returns (a: seq<bool>, w: seq<bool>, b: seq<bool>)
    requires i < |e| && e[i]
    requires forall j :: 0 <= j < |e| && e[j] ==> low <= j < low + 32
    ensures e == a + (w + b) && |a| == low <= i && i - low < |w| <= 32 && w[i - low]
    ensures forall j :: 0 <= j < |a| ==> !a[j]
    ensures forall j :: 0 <= j < |b| ==> !b[j]
  {
    var high := if low + 32 < |e| then low + 32 else |e|;
    a, w, b := e[..low], e[low..high], e[high..];
  }

  /** A burst of errors no longer than the register leaves it other than zero. */
  lemma BurstIsSeen(e: seq<bool>, low: nat, i: nat)
    requires i < |e| && e[i]
    requires forall j :: 0 <= j < |e| && e[j] ==> low <= j < low + 32
    ensures Register(0, e) != 0
  {
    var a, w, b := CutBurst(e, low, i);
    AroundBurst(a, w, b);
    WordIsSeen(w, i - low);
    NotZero(Number(w), |w|, |b|);
  }

  lemma NotZero(c: nat, n: nat, m: nat)
    requires 0 < c < W32
    ensures Steps(Steps(c, n), m) != 0
  {
    StepsBelow(c, n);
    if Steps(Steps(c, n), m) == 0 {
      StepsAreInjective(Steps(c, n), m);
      StepsAreInjective(c, n);
    }
  }

  /** Two sequences of bits differ nowhere but in the 32 from `low` on. */
  ghost predicate Burst(a: seq<bool>, b: seq<bool>, low: nat) {
    |a| == |b| && forall j :: 0 <= j < |a| && a[j] != b[j] ==> low <= j < low + 32
  }

  /** Buffers of the same length that differ, but only within 32 consecutive bits, have different checksums. */
  lemma BurstChangesCrc(c: nat, s: seq<bv8>, t: seq<bv8>, low: nat)
    requires |s| == |t| && s != t && Burst(Bits(s), Bits(t), low)
    ensures Crc(c, s) != Crc(c, t)
  {
    var x := Xor(c, ONES);
    if Bits(s) == Bits(t) {
      BitsTell(s, t);
    }
    var i := SomeDifference(Bits(s), Bits(t));
    BurstIsSeen(Difference(Bits(s), Bits(t)), low, i);
    RegisterIsLinear(x, x, Bits(s), Bits(t));
    XorSelf(x, x);
    XorSelf(Register(x, Bits(s)), Register(x, Bits(t)));
    SameXor(Register(x, Bits(s)), Register(x, Bits(t)), ONES);
  }

  /** In particular, buffers that differ, but in four bytes on end at most. */
  lemma FourBytesChangeCrc(c: nat, s: seq<bv8>, t: seq<bv8>, p: nat)
    requires |s| == |t| && s != t && forall i :: 0 <= i < |s| && s[i] != t[i] ==> p <= i < p + 4
    ensures Crc(c, s) != Crc(c, t)
  {
    BitsLength(s);
    BitsLength(t);
    forall j | 0 <= j < |Bits(s)| && Bits(s)[j] != Bits(t)[j] ensures 8 * p <= j < 8 * p + 32 {
      BitPosition(s, j / 8, j % 8);
      BitPosition(t, j / 8, j % 8);
    }
    BurstChangesCrc(c, s, t, 8 * p);
  }

  lemma SomeDifference(a: seq<bool>, b: seq<bool>) returns (i: nat)
    requires |a| == |b| && a != b
    ensures i < |a| && a[i] != b[i]
  {
    i :| 0 <= i < |a| && a[i] != b[i];
  }

  lemma SameXor(a: nat, b: nat, m: nat)
    ensures Xor(a, m) == Xor(b, m) <==> a == b
  {
    XorSelf(Xor(a, m), Xor(b, m));
    XorInterchange(a, m, b, m);
    XorSelf(m, m);
    XorZero(Xor(a, b));
    XorSelf(a, b);
  }
}
