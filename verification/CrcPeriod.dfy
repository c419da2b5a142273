/** How long the register of the checksum runs before it comes back: 2^32 - 1 steps, no fewer. A register is a
    polynomial over GF(2), its top bit the constant term, and a step multiplies it by x. */
module CrcPeriod {
  import opened Words
  import Sizes
  import opened Crc32Register
  import opened Crc32

  /** The polynomial 1, and the number of words other than zero. */
  const TOP: bv32 := 0x80000000
  const PERIOD: nat := 0xffff_ffff

  // ----- products -----

  function Plus(x: bv32, y: bv32): bv32 {
    x ^ y
  }

  /** The term of a for one power of x, times b. */
  function Term(a: bv32, m: bv32, b: bv32): bv32 {
    if a & m != 0 then b else 0
  }

  /** Four steps at once: what falls out of each of the four low bits is added to what is left. */
  function FourSteps(b: bv32): bv32 {
    Plus(Plus(Plus(Plus(Term(b, 1, 0x1db71064), Term(b, 2, 0x3b6e20c8)), Term(b, 4, 0x76dc4190)),
              Term(b, 8, 0xedb88320)), b >> 4)
  }

  /** The four terms of a with the lowest powers of x, times b. */
  function FourTerms(a: bv32, b: bv32): bv32 {
    var c := StepWord(b);
    var d := StepWord(c);
    Plus(Plus(Plus(Term(a, 0x80000000, b), Term(a, 0x40000000, c)), Term(a, 0x20000000, d)),
         Term(a, 0x10000000, StepWord(d)))
  }

  /** Half of the terms of a, those with the lowest powers of x, times b. */
  function HalfProduct(a: bv32, b: bv32): bv32 {
    var c := FourSteps(b);
    var d := FourSteps(c);
    Plus(FourTerms(a, b), Plus(FourTerms(a << 4, c), Plus(FourTerms(a << 8, d), FourTerms(a << 12, FourSteps(d)))))
  }

  /** The product of two polynomials, modulo that of the checksum. */
  function Product(a: bv32, b: bv32): bv32 {
    Plus(HalfProduct(a, b), HalfProduct(a << 16, FourSteps(FourSteps(FourSteps(FourSteps(b))))))
  }

  lemma VPlus(x: bv32, y: bv32)
    ensures V(Plus(x, y)) == Xor(V(x), V(y))
  {
    VXor(x, y);
  }

  lemma {:induction false} StepsAdd(c: nat, m: nat, n: nat)
    ensures Steps(c, m + n) == Steps(Steps(c, m), n)
    decreases m
  {
    if m > 0 {
      StepsAdd(Step(c), m - 1, n);
    }
  }

  lemma OneStep(c: bv32, n: nat)
    ensures Steps(V(StepWord(c)), n) == Steps(V(c), n + 1) && V(StepWord(c)) == Steps(V(c), 1)
  {
    VStep(c);
    assert Steps(V(c), 1) == Steps(Step(V(c)), 0);
  }

  /** A word that is n steps from the top bit: x to the n. */
  ghost predicate Power(b: bv32, n: nat) {
    V(b) == Steps(V(TOP), n)
  }

  lemma NextPower(b: bv32, n: nat)
    requires Power(b, n)
    ensures Power(StepWord(b), n + 1)
  {
    OneStep(b, 0);
    StepsAdd(V(TOP), n, 1);
  }

  lemma FourMore(b: bv32, n: nat)
    requires Power(b, n)
    ensures Power(FourSteps(b), n + 4)
  {
    VFourSteps(b, 0);
    StepsAdd(V(TOP), n, 4);
  }

  /** One term of a after n steps: that many steps make of its one bit m the word b. */
  lemma TermIs(a: bv32, m: bv32, b: bv32, n: nat)
    requires V(b) == Steps(V(m), n)
    ensures V(Term(a, m, b)) == Steps(V(Term(a, m, m)), n)
  {
    VOfZero();
    StepsOfZero(n);
  }

  lemma VOfZero()
    ensures V(0) == 0
  {
    VXor(0, 0);
    XorSelf(V(0), V(0));
    SelfXor(0);
  }

  lemma SelfXor(x: bv32)
    ensures x ^ x == 0
  {
  }

  /** The sum of words steps as the words do. */
  lemma SumSteps(x: bv32, y: bv32, n: nat)
    ensures Steps(V(Plus(x, y)), n) == Xor(Steps(V(x), n), Steps(V(y), n))
  {
    VPlus(x, y);
    StepsAreLinear(V(x), V(y), n);
  }

  /** The terms of a: the four with the lowest powers of x, and four steps of what remains after a shift. */
  lemma SplitTerms(a: bv32, t: bv32, u: bv32, v: bv32, w: bv32, r: bv32)
    requires t == Term(a, 0x80000000, 0x80000000) && u == Term(a, 0x40000000, 0x40000000)
    requires v == Term(a, 0x20000000, 0x20000000) && w == Term(a, 0x10000000, 0x10000000) && r == (a << 4) >> 4
    ensures a == Plus(Plus(Plus(Plus(t, u), v), w), r)
  {
  }

  /** The masks of the four terms are a step apart. */
  lemma LowerPowers(b: bv32, n: nat)
    requires Power(b, n)
    ensures V(StepWord(b)) == Steps(V(0x40000000), n) && V(StepWord(StepWord(b))) == Steps(V(0x20000000), n)
    ensures V(StepWord(StepWord(StepWord(b)))) == Steps(V(0x10000000), n)
  {
    TopSteps();
    NextPower(b, n);
    NextPower(StepWord(b), n + 1);
    NextPower(StepWord(StepWord(b)), n + 2);
    OneStep(TOP, n);
    OneStep(TOP, n + 1);
    OneStep(StepWord(TOP), n);
    OneStep(TOP, n + 2);
    OneStep(StepWord(TOP), n + 1);
    OneStep(StepWord(StepWord(TOP)), n);
  }

  lemma TopSteps()
    ensures StepWord(TOP) == 0x40000000 && StepWord(StepWord(TOP)) == 0x20000000
    ensures StepWord(StepWord(StepWord(TOP))) == 0x10000000
  {
  }

  lemma FourShifts(x: bv32)
    requires x & 0xf == 0
    ensures StepWord(StepWord(StepWord(StepWord(x)))) == x >> 4
  {
  }

  lemma FourByOne(x: bv32, y: bv32, n: nat)
    requires y == StepWord(StepWord(StepWord(StepWord(x))))
    ensures Steps(V(y), n) == Steps(V(x), n + 4)
  {
    OneStep(StepWord(StepWord(StepWord(x))), n);
    OneStep(StepWord(StepWord(x)), n + 1);
    OneStep(StepWord(x), n + 2);
    OneStep(x, n + 3);
  }

  lemma Rest(x: bv32, r: bv32, n: nat)
    requires x & 0xf == 0 && r == x >> 4
    ensures Steps(V(r), n) == Steps(V(x), n + 4)
  {
    FourShifts(x);
    FourByOne(x, r, n);
  }

  /** One low bit m, which four steps make k. */
  lemma LowTerm(b: bv32, m: bv32, k: bv32, n: nat)
    requires k == StepWord(StepWord(StepWord(StepWord(m))))
    ensures Steps(V(Term(b, m, k)), n) == Steps(V(Term(b, m, m)), n + 4)
  {
    FourByOne(m, k, n);
    VOfZero();
    StepsOfZero(n);
    StepsOfZero(n + 4);
  }

  lemma LowBit1()
    ensures 0x1db71064 == StepWord(StepWord(StepWord(StepWord(1))))
  {
  }

  lemma LowBit2()
    ensures 0x3b6e20c8 == StepWord(StepWord(StepWord(StepWord(2))))
  {
  }

  lemma LowBit4()
    ensures 0x76dc4190 == StepWord(StepWord(StepWord(StepWord(4))))
  {
  }

  lemma LowBit8()
    ensures 0xedb88320 == StepWord(StepWord(StepWord(StepWord(8))))
  {
  }

  lemma SplitLow(b: bv32, h: bv32, t: bv32, u: bv32, v: bv32, w: bv32)
    requires h == (b >> 4) << 4 && t == Term(b, 1, 1) && u == Term(b, 2, 2) && v == Term(b, 4, 4) && w == Term(b, 8, 8)
    ensures b == Plus(Plus(Plus(Plus(t, u), v), w), h)
  {
  }

  lemma NoLowBits(r: bv32, h: bv32)
    requires h == r << 4 && r & 0xf000_0000 == 0
    ensures h & 0xf == 0 && r == h >> 4
  {
  }

  lemma NoHighBits(b: bv32, r: bv32)
    requires r == b >> 4
    ensures r & 0xf000_0000 == 0
  {
  }

  lemma LowParts(b: bv32, r: bv32, h: bv32, n: nat)
    requires r == b >> 4 && h == r << 4
    ensures Steps(V(b), n) == Xor(Xor(Xor(Xor(Steps(V(Term(b, 1, 1)), n), Steps(V(Term(b, 2, 2)), n)),
                                          Steps(V(Term(b, 4, 4)), n)), Steps(V(Term(b, 8, 8)), n)), Steps(V(h), n))
  {
    var t, u, v, w := Term(b, 1, 1), Term(b, 2, 2), Term(b, 4, 4), Term(b, 8, 8);
    SplitLow(b, h, t, u, v, w);
    FiveSteps(b, t, u, v, w, h, n);
  }

  lemma HighPart(r: bv32, h: bv32, b: bv32, n: nat)
    requires r == b >> 4 && h == r << 4
    ensures Steps(V(r), n) == Steps(V(h), n + 4)
  {
    NoHighBits(b, r);
    NoLowBits(r, h);
    Rest(h, r, n);
  }

  lemma FourStepsParts(b: bv32, r: bv32, n: nat)
    requires r == b >> 4
    ensures Steps(V(FourSteps(b)), n)
         == Xor(Xor(Xor(Xor(Steps(V(Term(b, 1, 0x1db71064)), n), Steps(V(Term(b, 2, 0x3b6e20c8)), n)),
                        Steps(V(Term(b, 4, 0x76dc4190)), n)), Steps(V(Term(b, 8, 0xedb88320)), n)), Steps(V(r), n))
  {
    FiveSteps(FourSteps(b), Term(b, 1, 0x1db71064), Term(b, 2, 0x3b6e20c8), Term(b, 4, 0x76dc4190),
              Term(b, 8, 0xedb88320), r, n);
  }

  lemma VFourSteps(b: bv32, n: nat)
    ensures Steps(V(FourSteps(b)), n) == Steps(V(b), n + 4)
  {
    var r := b >> 4;
    var h := r << 4;
    LowParts(b, r, h, n + 4);
    HighPart(r, h, b, n);
    FourStepsParts(b, r, n);
    LowBits(b, n);
  }

  lemma LowBits(b: bv32, n: nat)
    ensures Steps(V(Term(b, 1, 0x1db71064)), n) == Steps(V(Term(b, 1, 1)), n + 4)
    ensures Steps(V(Term(b, 2, 0x3b6e20c8)), n) == Steps(V(Term(b, 2, 2)), n + 4)
    ensures Steps(V(Term(b, 4, 0x76dc4190)), n) == Steps(V(Term(b, 4, 4)), n + 4)
    ensures Steps(V(Term(b, 8, 0xedb88320)), n) == Steps(V(Term(b, 8, 8)), n + 4)
  {
    LowBit1();
    LowBit2();
    LowBit4();
    LowBit8();
    LowTerm(b, 1, 0x1db71064, n);
    LowTerm(b, 2, 0x3b6e20c8, n);
    LowTerm(b, 4, 0x76dc4190, n);
    LowTerm(b, 8, 0xedb88320, n);
  }

  lemma ShiftedRest(a: bv32, x: bv32)
    requires x == a << 4
    ensures x & 0xf == 0
  {
  }

  lemma FourTermsAre(a: bv32, b: bv32, c: bv32, d: bv32, e: bv32, n: nat)
    requires c == StepWord(b) && d == StepWord(c) && e == StepWord(d)
    ensures V(FourTerms(a, b)) == Xor(Xor(Xor(V(Term(a, 0x80000000, b)), V(Term(a, 0x40000000, c))),
                                          V(Term(a, 0x20000000, d))), V(Term(a, 0x10000000, e)))
  {
    var t, u, v, w := Term(a, 0x80000000, b), Term(a, 0x40000000, c), Term(a, 0x20000000, d), Term(a, 0x10000000, e);
    VPlus(t, u);
    VPlus(Plus(t, u), v);
    VPlus(Plus(Plus(t, u), v), w);
  }

  lemma FiveSteps(a: bv32, t: bv32, u: bv32, v: bv32, w: bv32, r: bv32, n: nat)
    requires a == Plus(Plus(Plus(Plus(t, u), v), w), r)
    ensures Steps(V(a), n) == Xor(Xor(Xor(Xor(Steps(V(t), n), Steps(V(u), n)), Steps(V(v), n)), Steps(V(w), n)),
                                  Steps(V(r), n))
  {
    SumSteps(t, u, n);
    SumSteps(Plus(t, u), v, n);
    SumSteps(Plus(Plus(t, u), v), w, n);
    SumSteps(Plus(Plus(Plus(t, u), v), w), r, n);
  }

  /** Multiplying a by a power of x, four terms at a time. */
  lemma OneRound(a: bv32, b: bv32, x: bv32, n: nat)
    requires Power(b, n) && x == a << 4
    ensures Steps(V(a), n) == Xor(V(FourTerms(a, b)), Steps(V(x), n + 4))
  {
    var c := StepWord(b);
    var d := StepWord(c);
    var e := StepWord(d);
    var t, u := Term(a, 0x80000000, 0x80000000), Term(a, 0x40000000, 0x40000000);
    var v, w := Term(a, 0x20000000, 0x20000000), Term(a, 0x10000000, 0x10000000);
    var r := x >> 4;
    SplitTerms(a, t, u, v, w, r);
    FiveSteps(a, t, u, v, w, r, n);
    ShiftedRest(a, x);
    Rest(x, r, n);
    LowerPowers(b, n);
    TermIs(a, 0x80000000, b, n);
    TermIs(a, 0x40000000, c, n);
    TermIs(a, 0x20000000, d, n);
    TermIs(a, 0x10000000, e, n);
    FourTermsAre(a, b, c, d, e, n);
  }

  /** Half a product, and what is left of a. */
  lemma HalfIs(a: bv32, b: bv32, w: bv32, n: nat)
    requires Power(b, n) && w == a << 16
    ensures Steps(V(a), n) == Xor(V(HalfProduct(a, b)), Steps(V(w), n + 16))
    ensures Power(FourSteps(FourSteps(FourSteps(FourSteps(b)))), n + 16)
  {
    var c := FourSteps(b);
    var d := FourSteps(c);
    var e := FourSteps(d);
    var x, y, z := a << 4, a << 8, a << 12;
    ShiftTo8(a, x, y);
    ShiftTo12(a, y, z);
    ShiftTo16(a, z, w);
    FourMore(b, n);
    FourMore(c, n + 4);
    FourMore(d, n + 8);
    FourMore(e, n + 12);
    OneRound(a, b, x, n);
    OneRound(x, c, y, n + 4);
    OneRound(y, d, z, n + 8);
    OneRound(z, e, w, n + 12);
    FourVs(FourTerms(a, b), FourTerms(x, c), FourTerms(y, d), FourTerms(z, e), Steps(V(w), n + 16));
  }

  lemma ShiftTo8(a: bv32, x: bv32, y: bv32)
    requires x == a << 4 && y == a << 8
    ensures y == x << 4
  {
  }

  lemma ShiftTo12(a: bv32, y: bv32, z: bv32)
    requires y == a << 8 && z == a << 12
    ensures z == y << 4
  {
  }

  lemma ShiftTo16(a: bv32, z: bv32, w: bv32)
    requires z == a << 12 && w == a << 16
    ensures w == z << 4
  {
  }

  lemma FourVs(p: bv32, q: bv32, r: bv32, s: bv32, t: nat)
    ensures Xor(V(p), Xor(V(q), Xor(V(r), Xor(V(s), t)))) == Xor(V(Plus(p, Plus(q, Plus(r, s)))), t)
  {
    VPlus(r, s);
    VPlus(q, Plus(r, s));
    VPlus(p, Plus(q, Plus(r, s)));
    XorAssociates(V(r), V(s), t);
    XorAssociates(V(q), V(Plus(r, s)), t);
    XorAssociates(V(p), V(Plus(q, Plus(r, s))), t);
  }

  /** Steps are multiplication by a power of x. */
  lemma ProductIs(a: bv32, b: bv32, n: nat)
    requires Power(b, n)
    ensures V(Product(a, b)) == Steps(V(a), n)
  {
    var w, e := a << 16, FourSteps(FourSteps(FourSteps(FourSteps(b))));
    var z: bv32 := 0;
    NothingLeft(a, w);
    HalfIs(a, b, w, n);
    HalfIs(w, e, z, n + 16);
    VOfZero();
    StepsOfZero(n + 16 + 16);
    XorZero(V(HalfProduct(w, e)));
    VPlus(HalfProduct(a, b), HalfProduct(w, e));
  }

  lemma NothingLeft(a: bv32, w: bv32)
    requires w == a << 16
    ensures w << 16 == 0
  {
  }

  lemma PowersMultiply(a: bv32, m: nat, b: bv32, n: nat)
    requires Power(a, m) && Power(b, n)
    ensures Power(Product(a, b), m + n)
  {
    ProductIs(a, b, n);
    StepsAdd(V(TOP), m, n);
  }

  // ----- powers of x, computed -----

  type Exponents = (bv32, nat) -> bool

  /** Words and their exponents, as far as is known: products add them. */
  ghost predicate Adds(pow: Exponents, a: bv32, m: nat, b: bv32, n: nat) {
    pow(a, m) && pow(b, n) ==> pow(Product(a, b), m + n)
  }

  ghost predicate Multiplies(pow: Exponents) {
    forall a, m, b, n {:trigger Adds(pow, a, m, b, n)} :: Adds(pow, a, m, b, n)
  }

  lemma FirstSquares(pow: Exponents)
    requires Multiplies(pow) && pow(0x40000000, 0x1)
    ensures pow(0x20000000, 0x2) && pow(0x08000000, 0x4)
  {
    assert Adds(pow, 0x40000000, 0x1, 0x40000000, 0x1) && Product(0x40000000, 0x40000000) == 0x20000000;
    assert Adds(pow, 0x20000000, 0x2, 0x20000000, 0x2) && Product(0x20000000, 0x20000000) == 0x08000000;
  }

  lemma Squares0(pow: Exponents)
    requires Multiplies(pow) && pow(0x08000000, 0x4)
    ensures pow(0x00800000, 0x8) && pow(0x00008000, 0x10)
  {
    assert Adds(pow, 0x08000000, 0x4, 0x08000000, 0x4) && Product(0x08000000, 0x08000000) == 0x00800000;
    assert Adds(pow, 0x00800000, 0x8, 0x00800000, 0x8) && Product(0x00800000, 0x00800000) == 0x00008000;
  }

  lemma Squares1(pow: Exponents)
    requires Multiplies(pow) && pow(0x00008000, 0x10)
    ensures pow(0xedb88320, 0x20) && pow(0xb1e6b092, 0x40)
    ensures pow(0xa06a2517, 0x80) && pow(0xed627dae, 0x100)
  {
    assert Adds(pow, 0x00008000, 0x10, 0x00008000, 0x10) && Product(0x00008000, 0x00008000) == 0xedb88320;
    assert Adds(pow, 0xedb88320, 0x20, 0xedb88320, 0x20) && Product(0xedb88320, 0xedb88320) == 0xb1e6b092;
    assert Adds(pow, 0xb1e6b092, 0x40, 0xb1e6b092, 0x40) && Product(0xb1e6b092, 0xb1e6b092) == 0xa06a2517;
    assert Adds(pow, 0xa06a2517, 0x80, 0xa06a2517, 0x80) && Product(0xa06a2517, 0xa06a2517) == 0xed627dae;
  }

  lemma Squares2(pow: Exponents)
    requires Multiplies(pow) && pow(0xed627dae, 0x100)
    ensures pow(0x88d14467, 0x200) && pow(0xd7bbfe6a, 0x400)
    ensures pow(0xec447f11, 0x800) && pow(0x8e7ea170, 0x1000)
  {
    assert Adds(pow, 0xed627dae, 0x100, 0xed627dae, 0x100) && Product(0xed627dae, 0xed627dae) == 0x88d14467;
    assert Adds(pow, 0x88d14467, 0x200, 0x88d14467, 0x200) && Product(0x88d14467, 0x88d14467) == 0xd7bbfe6a;
    assert Adds(pow, 0xd7bbfe6a, 0x400, 0xd7bbfe6a, 0x400) && Product(0xd7bbfe6a, 0xd7bbfe6a) == 0xec447f11;
    assert Adds(pow, 0xec447f11, 0x800, 0xec447f11, 0x800) && Product(0xec447f11, 0xec447f11) == 0x8e7ea170;
  }

  lemma Squares3(pow: Exponents)
    requires Multiplies(pow) && pow(0x8e7ea170, 0x1000)
    ensures pow(0x6427800e, 0x2000) && pow(0x4d47bae0, 0x4000)
    ensures pow(0x09fe548f, 0x8000) && pow(0x83852d0f, 0x10000)
  {
    assert Adds(pow, 0x8e7ea170, 0x1000, 0x8e7ea170, 0x1000) && Product(0x8e7ea170, 0x8e7ea170) == 0x6427800e;
    assert Adds(pow, 0x6427800e, 0x2000, 0x6427800e, 0x2000) && Product(0x6427800e, 0x6427800e) == 0x4d47bae0;
    assert Adds(pow, 0x4d47bae0, 0x4000, 0x4d47bae0, 0x4000) && Product(0x4d47bae0, 0x4d47bae0) == 0x09fe548f;
    assert Adds(pow, 0x09fe548f, 0x8000, 0x09fe548f, 0x8000) && Product(0x09fe548f, 0x09fe548f) == 0x83852d0f;
  }

  lemma Squares4(pow: Exponents)
    requires Multiplies(pow) && pow(0x83852d0f, 0x10000)
    ensures pow(0x30362f1a, 0x20000) && pow(0x7b5a9cc3, 0x40000)
    ensures pow(0x31fec169, 0x80000) && pow(0x9fec022a, 0x100000)
  {
    assert Adds(pow, 0x83852d0f, 0x10000, 0x83852d0f, 0x10000) && Product(0x83852d0f, 0x83852d0f) == 0x30362f1a;
    assert Adds(pow, 0x30362f1a, 0x20000, 0x30362f1a, 0x20000) && Product(0x30362f1a, 0x30362f1a) == 0x7b5a9cc3;
    assert Adds(pow, 0x7b5a9cc3, 0x40000, 0x7b5a9cc3, 0x40000) && Product(0x7b5a9cc3, 0x7b5a9cc3) == 0x31fec169;
    assert Adds(pow, 0x31fec169, 0x80000, 0x31fec169, 0x80000) && Product(0x31fec169, 0x31fec169) == 0x9fec022a;
  }

  lemma Squares5(pow: Exponents)
    requires Multiplies(pow) && pow(0x9fec022a, 0x100000)
    ensures pow(0x6c8dedc4, 0x200000) && pow(0x15d6874d, 0x400000)
    ensures pow(0x5fde7a4e, 0x800000) && pow(0xbad90e37, 0x1000000)
  {
    assert Adds(pow, 0x9fec022a, 0x100000, 0x9fec022a, 0x100000) && Product(0x9fec022a, 0x9fec022a) == 0x6c8dedc4;
    assert Adds(pow, 0x6c8dedc4, 0x200000, 0x6c8dedc4, 0x200000) && Product(0x6c8dedc4, 0x6c8dedc4) == 0x15d6874d;
    assert Adds(pow, 0x15d6874d, 0x400000, 0x15d6874d, 0x400000) && Product(0x15d6874d, 0x15d6874d) == 0x5fde7a4e;
    assert Adds(pow, 0x5fde7a4e, 0x800000, 0x5fde7a4e, 0x800000) && Product(0x5fde7a4e, 0x5fde7a4e) == 0xbad90e37;
  }

  lemma Squares6(pow: Exponents)
    requires Multiplies(pow) && pow(0xbad90e37, 0x1000000)
    ensures pow(0x2e4e5eef, 0x2000000) && pow(0x4eaba214, 0x4000000)
    ensures pow(0xa8a472c0, 0x8000000) && pow(0x429a969e, 0x10000000)
  {
    assert Adds(pow, 0xbad90e37, 0x1000000, 0xbad90e37, 0x1000000) && Product(0xbad90e37, 0xbad90e37) == 0x2e4e5eef;
    assert Adds(pow, 0x2e4e5eef, 0x2000000, 0x2e4e5eef, 0x2000000) && Product(0x2e4e5eef, 0x2e4e5eef) == 0x4eaba214;
    assert Adds(pow, 0x4eaba214, 0x4000000, 0x4eaba214, 0x4000000) && Product(0x4eaba214, 0x4eaba214) == 0xa8a472c0;
    assert Adds(pow, 0xa8a472c0, 0x8000000, 0xa8a472c0, 0x8000000) && Product(0xa8a472c0, 0xa8a472c0) == 0x429a969e;
  }

  lemma Squares7(pow: Exponents)
    requires Multiplies(pow) && pow(0x429a969e, 0x10000000)
    ensures pow(0x148d302a, 0x20000000) && pow(0xc40ba6d0, 0x40000000)
    ensures pow(0xc4e22c3c, 0x80000000) && pow(0x40000000, 0x100000000)
  {
    assert Adds(pow, 0x429a969e, 0x10000000, 0x429a969e, 0x10000000) && Product(0x429a969e, 0x429a969e) == 0x148d302a;
    assert Adds(pow, 0x148d302a, 0x20000000, 0x148d302a, 0x20000000) && Product(0x148d302a, 0x148d302a) == 0xc40ba6d0;
    assert Adds(pow, 0xc40ba6d0, 0x40000000, 0xc40ba6d0, 0x40000000) && Product(0xc40ba6d0, 0xc40ba6d0) == 0xc4e22c3c;
    assert Adds(pow, 0xc4e22c3c, 0x80000000, 0xc4e22c3c, 0x80000000) && Product(0xc4e22c3c, 0xc4e22c3c) == 0x40000000;
  }

  lemma Upper257(pow: Exponents)
    requires Multiplies(pow)
    requires pow(0xed627dae, 0x100) && pow(0xbad90e37, 0x1000000)
    ensures pow(0x4630d51a, 0x1000100)
  {
    assert Adds(pow, 0xed627dae, 0x100, 0xbad90e37, 0x1000000) && Product(0xed627dae, 0xbad90e37) == 0x4630d51a;
  }

  lemma Lower257(pow: Exponents)
    requires Multiplies(pow)
    requires pow(0x40000000, 0x1) && pow(0x83852d0f, 0x10000)
    ensures pow(0xac7a15a7, 0x10001)
  {
    assert Adds(pow, 0x40000000, 0x1, 0x83852d0f, 0x10000) && Product(0x40000000, 0x83852d0f) == 0xac7a15a7;
  }

  lemma Upper17(pow: Exponents)
    requires Multiplies(pow)
    requires pow(0x00008000, 0x10) && pow(0x8e7ea170, 0x1000) && pow(0x9fec022a, 0x100000)
    requires pow(0x429a969e, 0x10000000)
    ensures pow(0x0c283ca0, 0x10101010)
  {
    assert Adds(pow, 0x00008000, 0x10, 0x8e7ea170, 0x1000) && Product(0x00008000, 0x8e7ea170) == 0x8eee64f6;
    assert Adds(pow, 0x8eee64f6, 0x1010, 0x9fec022a, 0x100000) && Product(0x8eee64f6, 0x9fec022a) == 0x5f84e246;
    assert Adds(pow, 0x5f84e246, 0x101010, 0x429a969e, 0x10000000) && Product(0x5f84e246, 0x429a969e) == 0x0c283ca0;
  }

  lemma Lower17(pow: Exponents)
    requires Multiplies(pow)
    requires pow(0x40000000, 0x1) && pow(0xed627dae, 0x100) && pow(0x83852d0f, 0x10000)
    requires pow(0xbad90e37, 0x1000000)
    ensures pow(0x316b5ba1, 0x1010101)
  {
    assert Adds(pow, 0x40000000, 0x1, 0xed627dae, 0x100) && Product(0x40000000, 0xed627dae) == 0x76b13ed7;
    assert Adds(pow, 0x76b13ed7, 0x101, 0x83852d0f, 0x10000) && Product(0x76b13ed7, 0x83852d0f) == 0xb898d242;
    assert Adds(pow, 0xb898d242, 0x10101, 0xbad90e37, 0x1000000) && Product(0xb898d242, 0xbad90e37) == 0x316b5ba1;
  }

  lemma Upper5Low(pow: Exponents)
    requires Multiplies(pow)
    requires pow(0x08000000, 0x4) && pow(0xb1e6b092, 0x40) && pow(0xd7bbfe6a, 0x400)
    requires pow(0x4d47bae0, 0x4000)
    ensures pow(0x2fcbb278, 0x4444)
  {
    assert Adds(pow, 0x08000000, 0x4, 0xb1e6b092, 0x40) && Product(0x08000000, 0xb1e6b092) == 0x30704bc1;
    assert Adds(pow, 0x30704bc1, 0x44, 0xd7bbfe6a, 0x400) && Product(0x30704bc1, 0xd7bbfe6a) == 0xee53a8f0;
    assert Adds(pow, 0xee53a8f0, 0x444, 0x4d47bae0, 0x4000) && Product(0xee53a8f0, 0x4d47bae0) == 0x2fcbb278;
  }

  lemma Upper5High(pow: Exponents)
    requires Multiplies(pow)
    requires pow(0x7b5a9cc3, 0x40000) && pow(0x15d6874d, 0x400000) && pow(0x4eaba214, 0x4000000)
    requires pow(0xc40ba6d0, 0x40000000)
    ensures pow(0x8f61bfd4, 0x44440000)
  {
    assert Adds(pow, 0x7b5a9cc3, 0x40000, 0x15d6874d, 0x400000) && Product(0x7b5a9cc3, 0x15d6874d) == 0x49dc175b;
    assert Adds(pow, 0x49dc175b, 0x440000, 0x4eaba214, 0x4000000) && Product(0x49dc175b, 0x4eaba214) == 0xd7e9045a;
    assert Adds(pow, 0xd7e9045a, 0x4440000, 0xc40ba6d0, 0x40000000) && Product(0xd7e9045a, 0xc40ba6d0) == 0x8f61bfd4;
  }

  lemma Last(pow: Exponents)
    requires Multiplies(pow) && pow(0x0c283ca0, 0x10101010) && pow(0x316b5ba1, 0x1010101)
    requires pow(0x2fcbb278, 0x4444) && pow(0x8f61bfd4, 0x44440000)
    ensures pow(0xbd436701, 0x44444444) && pow(0x3d436701, 0x11111111) && pow(0xc736eb52, 0x55555555)
  {
    assert Adds(pow, 0x2fcbb278, 0x4444, 0x8f61bfd4, 0x44440000) && Product(0x2fcbb278, 0x8f61bfd4) == 0xbd436701;
    assert Adds(pow, 0x0c283ca0, 0x10101010, 0x316b5ba1, 0x1010101) && Product(0x0c283ca0, 0x316b5ba1) == 0x3d436701;
    assert Adds(pow, 0xbd436701, 0x44444444, 0x3d436701, 0x11111111) && Product(0xbd436701, 0x3d436701) == 0xc736eb52;
  }

  /** Whether the register is back after some steps; it is not if different words are that far apart. */
  ghost predicate Seen(pow: Exponents, back: nat -> bool, a: bv32, b: bv32, m: nat, n: nat) {
    pow(a, m + n) && pow(b, n) && a != b ==> !back(m)
  }

  ghost predicate Returns(pow: Exponents, back: nat -> bool, a: bv32, m: nat) {
    pow(a, 1) && pow(a, m + 1) ==> back(m)
  }

  /** The register is back after 2^32 - 1 steps, but not after that number divided by any of its prime factors. */
  lemma Orders(pow: Exponents, back: nat -> bool)
    requires Multiplies(pow) && pow(TOP, 0) && pow(0x40000000, 1)
    requires forall a, b, m, n {:trigger Seen(pow, back, a, b, m, n)} :: Seen(pow, back, a, b, m, n)
    requires forall a, m {:trigger Returns(pow, back, a, m)} :: Returns(pow, back, a, m)
    ensures back(PERIOD) && !back(0x55555555) && !back(0x33333333) && !back(0xf0f0f0f)
    ensures !back(0xff00ff) && !back(0xffff)
  {
    FirstSquares(pow);
    Squares0(pow);
    Squares1(pow);
    Squares2(pow);
    Squares3(pow);
    Squares4(pow);
    Squares5(pow);
    Squares6(pow);
    Squares7(pow);
    Upper257(pow);
    Lower257(pow);
    Upper17(pow);
    Lower17(pow);
    Upper5Low(pow);
    Upper5High(pow);
    Last(pow);
    assert Returns(pow, back, 0x40000000, PERIOD);
    assert Seen(pow, back, 0xc736eb52, TOP, 0x55555555, 0);
    assert Seen(pow, back, 0xbd436701, 0x3d436701, 0x33333333, 0x11111111);
    assert Seen(pow, back, 0x0c283ca0, 0x316b5ba1, 0xf0f0f0f, 0x1010101);
    assert Seen(pow, back, 0x4630d51a, 0xac7a15a7, 0xff00ff, 0x10001);
    assert Seen(pow, back, 0x83852d0f, 0x40000000, 0xffff, 1);
  }

  // ----- which numbers of steps bring the register back -----

  /** The numbers of steps after which the register is back: with two, their sum; with a sum and one part, the other. */
  ghost predicate Closed(back: nat -> bool, m: nat, n: nat) {
    back(n) ==> (back(m) <==> back(m + n))
  }

  ghost predicate Group(back: nat -> bool) {
    back(0) && forall m, n {:trigger Closed(back, m, n)} :: Closed(back, m, n)
  }

  lemma {:induction false} Multiples(back: nat -> bool, m: nat, j: nat)
    requires Group(back) && back(m)
    ensures back(j * m)
    decreases j
  {
    if j > 0 {
      Multiples(back, m, j - 1);
      assert Closed(back, (j - 1) * m, m) && (j - 1) * m + m == j * m;
    }
  }

  /** None of the eight numbers after d divides q. */
  predicate NoneOfEight(q: nat, d: nat) {
    && q % (d + 1) != 0 && q % (d + 2) != 0 && q % (d + 3) != 0 && q % (d + 4) != 0
    && q % (d + 5) != 0 && q % (d + 6) != 0 && q % (d + 7) != 0 && q % (d + 8) != 0
  }

  ghost predicate Clear(q: nat, a: nat, b: nat) {
    forall x :: a < x <= b ==> q % x != 0
  }

  ghost predicate Prime(q: nat) {
    q >= 2 && forall x :: 2 <= x < q ==> q % x != 0
  }

  /** Trial division up to the square root. */
  lemma PrimeIf(q: nat, d: nat)
    requires q >= 2 && Clear(q, 1, d) && q < (d + 1) * (d + 1)
    ensures Prime(q)
  {
    forall x | 2 <= x < q ensures q % x != 0 {
      if x > d && q % x == 0 {
        SmallCofactor(q, d, x, q / x);
        assert false;
      }
    }
  }

  lemma SmallCofactor(q: nat, d: nat, x: nat, y: nat)
    requires d < x < q < (d + 1) * (d + 1) && q == x * y
    ensures 2 <= y <= d && q % y == 0
  {
    if y > d {
      Larger(x, d + 1, y);
    }
    Sizes.MultipleMod(x, y);
  }

  lemma Larger(x: nat, d: nat, y: nat)
    requires x >= d && y >= d
    ensures x * y >= d * d
  {
    assert (x - d) * y >= 0 && d * (y - d) >= 0;
  }

  lemma {:induction false} Inverse(r: nat, q: nat) returns (a: int, t: int)
    requires Prime(q) && 1 <= r < q
    ensures a * r == 1 + q * t
    decreases r
  {
    if r == 1 {
      a, t := 1, 0;
    } else {
      var u, s := q % r, q / r;
      var b, t' := Inverse(u, q);
      a, t := -b * s, t' - b;
      assert b * (q - s * r) == 1 + q * t';
      assert b * q - (b * s) * r == b * (q - s * r);
    }
  }

  /** Where the register is not back, there is a prime factor that all the numbers where it is have in common. */
  lemma PrimeDivides(back: nat -> bool, q: nat, k: nat, m: nat)
    requires Group(back) && Prime(q) && back(q * k) && !back(k) && back(m)
    ensures m % q == 0
  {
    var r := m % q;
    if r != 0 {
      var a, t := Inverse(r, q);
      var b: nat, u: nat := OneMore(q, m, a, t);
      Multiples(back, m, b);
      Multiples(back, b * m, k);
      Multiples(back, q * k, u);
      Distribute(k, q, u, b * m);
      BackToo(back, k, u * (q * k));
      assert false;
    }
  }

  lemma BackToo(back: nat -> bool, m: nat, n: nat)
    requires Group(back) && back(n) && back(m + n)
    ensures back(m)
  {
    assert Closed(back, m, n);
  }

  lemma Distribute(k: nat, q: nat, u: nat, x: nat)
    requires x == 1 + q * u
    ensures k * x == k + u * (q * k)
  {
  }

  lemma OneMore(q: nat, m: nat, a: int, t: int) returns (b: nat, u: nat)
    requires q >= 2 && a * (m % q) == 1 + q * t
    ensures b * m == 1 + q * u
  {
    var h, c: int := m / q, if a < 0 then -a else a;
    var b', u' := a + q * c, t + a * h + c * m;
    Positive(a, q, c);
    assert b' * m == a * (q * h + m % q) + q * c * m == 1 + q * u' by {
      Expand(a, q, c, h, m % q, m, t);
    }
    NotNegative(b', m, q, u');
    b, u := b', u';
  }

  lemma Positive(a: int, q: nat, c: int)
    requires q >= 2 && c >= 0 && a >= -c
    ensures a + q * c >= 0
  {
    assert (q - 1) * c >= 0;
  }

  lemma Expand(a: int, q: nat, c: int, h: int, r: int, m: int, t: int)
    requires m == q * h + r && a * r == 1 + q * t
    ensures (a + q * c) * m == a * (q * h + r) + q * c * m == 1 + q * (t + a * h + c * m)
  {
    assert a * (q * h + r) == q * (a * h) + a * r;
    assert q * c * m == q * (c * m);
  }

  lemma NotNegative(b: int, m: nat, q: nat, u: int)
    requires b >= 0 && q >= 2 && b * m == 1 + q * u
    ensures u >= 0
  {
    assert b * m >= 0;
    assert u < 0 ==> q * u <= 2 * u;
  }

  /** A number that an odd number and the next odd one divide is divisible by their product. */
  lemma OddNeighbours(m: nat, n: nat)
    requires n % 2 == 1 && m % n == 0 && m % (n + 2) == 0
    ensures m % (n * (n + 2)) == 0
  {
    var a, b := m / n, m / (n + 2);
    Cross(m, n, a, b);
    var c := Half(n, a - b, b);
    Regroup(n, b, c);
    Sizes.MultipleMod(c, n * (n + 2));
  }

  lemma Half(n: nat, d: int, b: int) returns (c: int)
    requires n % 2 == 1 && n * d == 2 * b
    ensures d == 2 * c && n * c == b
  {
    var h, e := n / 2, d / 2;
    assert n * d == 2 * (h * d) + d by {
      assert n == 2 * h + 1;
      Halves(h, d);
    }
    c := e;
    assert d == 2 * c;
    Twice(n, c);
  }

  lemma Halves(h: int, d: int)
    ensures (2 * h + 1) * d == 2 * (h * d) + d
  {
  }

  lemma Twice(n: int, c: int)
    ensures n * (2 * c) == 2 * (n * c)
  {
  }

  lemma Cross(m: nat, n: nat, a: int, b: int)
    requires m == n * a && m == (n + 2) * b
    ensures n * (a - b) == 2 * b
  {
  }

  lemma Regroup(n: nat, b: int, c: int)
    requires n * c == b
    ensures (n + 2) * b == (n * (n + 2)) * c
  {
  }

  lemma Primes()
    ensures Prime(3) && Prime(5) && Prime(17) && Prime(257)
  {
    PrimeIf(3, 1);
    PrimeIf(5, 2);
    PrimeIf(17, 4);
    assert NoneOfEight(257, 1) && NoneOfEight(257, 9);
    PrimeIf(257, 17);
  }

  lemma EightMore(q: nat, a: nat)
    requires Clear(q, 1, a) && NoneOfEight(q, a)
    ensures Clear(q, 1, a + 8)
  {
    forall x | 1 < x <= a + 8 ensures q % x != 0 {
      if x > a {
        assert || x == a + 1 || x == a + 2 || x == a + 3 || x == a + 4
               || x == a + 5 || x == a + 6 || x == a + 7 || x == a + 8;
      }
    }
  }

  /** Trial division eight by eight. */
  ghost predicate Extends(clear: nat -> bool, a: nat) {
    clear(a) && NoneOfEight(0x1_0001, a) ==> clear(a + 8)
  }

  lemma LargePrime(q: nat)
    requires q == 0x1_0001
    ensures Prime(q)
  {
    var clear: nat -> bool := (b: nat) => Clear(q, 1, b);
    forall a: nat ensures Extends(clear, a) {
      if clear(a) && NoneOfEight(q, a) {
        EightMore(q, a);
      }
    }
    FirstDivisors(clear);
    SecondDivisors(clear);
    ThirdDivisors(clear);
    LastDivisors(clear);
    PrimeIf(q, 257);
  }

  lemma FirstDivisors(clear: nat -> bool)
    requires clear(1) && forall a {:trigger Extends(clear, a)} :: Extends(clear, a)
    ensures clear(65)
  {
    assert Extends(clear, 1) && Extends(clear, 9) && Extends(clear, 17) && Extends(clear, 25);
    assert Extends(clear, 33) && Extends(clear, 41) && Extends(clear, 49) && Extends(clear, 57);
  }

  lemma SecondDivisors(clear: nat -> bool)
    requires clear(65) && forall a {:trigger Extends(clear, a)} :: Extends(clear, a)
    ensures clear(129)
  {
    assert Extends(clear, 65) && Extends(clear, 73) && Extends(clear, 81) && Extends(clear, 89);
    assert Extends(clear, 97) && Extends(clear, 105) && Extends(clear, 113) && Extends(clear, 121);
  }

  lemma ThirdDivisors(clear: nat -> bool)
    requires clear(129) && forall a {:trigger Extends(clear, a)} :: Extends(clear, a)
    ensures clear(193)
  {
    assert Extends(clear, 129) && Extends(clear, 137) && Extends(clear, 145) && Extends(clear, 153);
    assert Extends(clear, 161) && Extends(clear, 169) && Extends(clear, 177) && Extends(clear, 185);
  }

  lemma LastDivisors(clear: nat -> bool)
    requires clear(193) && forall a {:trigger Extends(clear, a)} :: Extends(clear, a)
    ensures clear(257)
  {
    assert Extends(clear, 193) && Extends(clear, 201) && Extends(clear, 209) && Extends(clear, 217);
    assert Extends(clear, 225) && Extends(clear, 233) && Extends(clear, 241) && Extends(clear, 249);
  }

  /** The register is back exactly after the multiples of 2^32 - 1. */
  lemma BackExactly(pow: Exponents, back: nat -> bool)
    requires Multiplies(pow) && pow(TOP, 0) && pow(0x40000000, 1) && Group(back)
    requires forall a, b, m, n {:trigger Seen(pow, back, a, b, m, n)} :: Seen(pow, back, a, b, m, n)
    requires forall a, m {:trigger Returns(pow, back, a, m)} :: Returns(pow, back, a, m)
    ensures forall m: nat {:trigger back(m)} :: back(m) <==> m % PERIOD == 0
  {
    Orders(pow, back);
    Primes();
    LargePrime(0x1_0001);
    forall m: nat ensures back(m) <==> m % PERIOD == 0 {
      if back(m) {
        PrimeDivides(back, 3, 0x5555_5555, m);
        PrimeDivides(back, 5, 0x3333_3333, m);
        PrimeDivides(back, 17, 0xf0f_0f0f, m);
        PrimeDivides(back, 257, 0xff_00ff, m);
        PrimeDivides(back, 0x1_0001, 0xffff, m);
        OddNeighbours(m, 3);
        OddNeighbours(m, 15);
        OddNeighbours(m, 255);
        OddNeighbours(m, 0xffff);
      }
      if m % PERIOD == 0 {
        Multiples(back, PERIOD, m / PERIOD);
      }
    }
  }

  // ----- the period of the register -----

  lemma StepsOneToOne(a: nat, b: nat, n: nat)
    requires a < W32 && b < W32 && Steps(a, n) == Steps(b, n)
    ensures a == b
  {
    WordPower();
    XorBelow(a, b, 32);
    StepsAreLinear(a, b, n);
    XorSelf(Steps(a, n), Steps(b, n));
    StepsAreInjective(Xor(a, b), n);
    XorSelf(a, b);
  }

  lemma VBelow(x: bv32)
    ensures V(x) < W32
  {
    WordPower();
    NumberBelow(WordBits(x));
  }

  /** The top bit comes back exactly after the multiples of 2^32 - 1 steps. */
  lemma TopReturns(m: nat)
    ensures Steps(V(TOP), m) == V(TOP) <==> m % PERIOD == 0
  {
    var pow, back := Powers(), BackAtTop();
    PowersOk();
    BackOk();
    SeenOk();
    NextPower(TOP, 0);
    TopSteps();
    BackExactly(pow, back);
    assert back(m) <==> m % PERIOD == 0;
  }

  ghost function Powers(): Exponents {
    (b: bv32, n: nat) => Power(b, n)
  }

  ghost function BackAtTop(): nat -> bool {
    (n: nat) => Steps(V(TOP), n) == V(TOP)
  }

  lemma PowersOk()
    ensures Multiplies(Powers())
  {
    forall a, m: nat, b, n: nat ensures Adds(Powers(), a, m, b, n) {
      ProductAdds(Powers(), a, m, b, n, Product(a, b));
    }
  }

  lemma ProductAdds(pow: Exponents, a: bv32, m: nat, b: bv32, n: nat, p: bv32)
    requires pow == Powers() && p == Product(a, b)
    ensures pow(a, m) && pow(b, n) ==> pow(p, m + n)
  {
    if Power(a, m) && Power(b, n) {
      PowersMultiply(a, m, b, n);
    }
  }

  lemma BackOk()
    ensures Group(BackAtTop())
  {
    forall m: nat, n: nat ensures Closed(BackAtTop(), m, n) {
      BackTogether(V(TOP), m, n);
    }
  }

  lemma BackTogether(t: nat, m: nat, n: nat)
    ensures Steps(t, n) == t ==> (Steps(t, m) == t <==> Steps(t, m + n) == t)
  {
    StepsAdd(t, n, m);
  }

  lemma SeenOk()
    ensures forall a, b, m, n {:trigger Seen(Powers(), BackAtTop(), a, b, m, n)} ::
              Seen(Powers(), BackAtTop(), a, b, m, n)
    ensures forall a, m {:trigger Returns(Powers(), BackAtTop(), a, m)} :: Returns(Powers(), BackAtTop(), a, m)
  {
    forall a, b, m: nat, n: nat ensures Seen(Powers(), BackAtTop(), a, b, m, n) {
      SeenApart(a, b, m, n);
    }
    forall a, m: nat ensures Returns(Powers(), BackAtTop(), a, m) {
      ReturnsAfter(a, m);
    }
  }

  lemma SeenApart(a: bv32, b: bv32, m: nat, n: nat)
    ensures Power(a, m + n) && Power(b, n) && a != b ==> Steps(V(TOP), m) != V(TOP)
  {
    StepsAdd(V(TOP), m, n);
    VIsInjective(a, b);
  }

  lemma ReturnsAfter(a: bv32, m: nat)
    ensures Power(a, 1) && Power(a, m + 1) ==> Steps(V(TOP), m) == V(TOP)
  {
    VBelow(TOP);
    if Power(a, 1) && Power(a, m + 1) {
      StepsCancel(V(TOP), m, 1);
    }
  }

  lemma StepsCancel(t: nat, m: nat, n: nat)
    requires t < W32 && Steps(t, m + n) == Steps(t, n)
    ensures Steps(t, m) == t
  {
    StepsAdd(t, m, n);
    StepsBelow(t, m);
    StepsOneToOne(Steps(t, m), t, n);
  }

  // ----- every register but zero is on the way -----

  ghost function Values(f: nat -> nat, k: nat): set<nat> {
    set j | 0 <= j < k :: f(j)
  }

  ghost predicate Apart(f: nat -> nat, i: nat, j: nat) {
    f(i) != f(j)
  }

  lemma {:induction false} ManyValues(f: nat -> nat, k: nat)
    requires forall i, j {:trigger Apart(f, i, j)} :: 0 <= i < j < k ==> Apart(f, i, j)
    ensures |Values(f, k)| == k
    decreases k
  {
    if k == 0 {
      assert Values(f, 0) == {};
    } else {
      ManyValues(f, k - 1);
      forall j | 0 <= j < k - 1 ensures f(j) != f(k - 1) {
        assert Apart(f, j, k - 1);
      }
      OneMoreValue(f, k);
      assert f(k - 1) !in Values(f, k - 1);
    }
  }

  lemma OneMoreValue(f: nat -> nat, k: nat)
    requires k > 0
    ensures Values(f, k) == Values(f, k - 1) + {f(k - 1)}
  {
  }

  /** Different numbers from 1 to k are at most k. */
  lemma {:induction false} FewValues(s: set<nat>, k: nat)
    requires forall x :: x in s ==> 1 <= x <= k
    ensures |s| <= k
    decreases k
  {
    if k == 0 {
      assert s == {};
    } else {
      FewValues(s - {k}, k - 1);
      if k in s {
        assert |s - {k}| == |s| - 1;
      } else {
        assert s - {k} == s;
      }
    }
  }

  /** A function that takes k different values from 1 to k takes them all. */
  lemma Pigeonhole(f: nat -> nat, k: nat, x: nat) returns (j: nat)
    requires forall i, j {:trigger Apart(f, i, j)} :: 0 <= i < j < k ==> Apart(f, i, j)
    requires forall i :: 0 <= i < k ==> 1 <= f(i) <= k
    requires 1 <= x <= k
    ensures j < k && f(j) == x
  {
    ManyValues(f, k);
    if x !in Values(f, k) {
      OneMissing(Values(f, k), k, x);
      assert false;
    }
    j :| 0 <= j < k && f(j) == x;
  }

  lemma OneMissing(s: set<nat>, k: nat, x: nat)
    requires 1 <= x <= k && x !in s && forall y :: y in s ==> 1 <= y <= k
    ensures |s| < k
  {
    FewValues(s + {x}, k);
    assert |s + {x}| == |s| + 1;
  }

  lemma NotYet(i: nat, j: nat)
    requires i < j < PERIOD
    ensures Steps(V(TOP), i) != Steps(V(TOP), j)
  {
    if Steps(V(TOP), i) == Steps(V(TOP), j) {
      VBelow(TOP);
      StepsCancel(V(TOP), j - i, i);
      TopReturns(j - i);
      assert false;
    }
  }

  /** From the top bit the register runs through all words but zero: the polynomial is primitive. */
  lemma OnTheWay(c: nat) returns (j: nat)
    requires 1 <= c < W32
    ensures c == Steps(V(TOP), j)
  {
    var f: nat -> nat := i => Steps(V(TOP), i);
    forall i, j | 0 <= i < j < PERIOD ensures Apart(f, i, j) {
      NotYet(i, j);
    }
    forall i: nat | i < PERIOD ensures 1 <= f(i) <= PERIOD {
      OnlyOthers(i);
    }
    j := Pigeonhole(f, PERIOD, c);
  }

  lemma OnlyOthers(i: nat)
    ensures 1 <= Steps(V(TOP), i) < W32
  {
    VBelow(TOP);
    StepsBelow(V(TOP), i);
    TopNotZero();
    StepsNotZero(V(TOP), i);
  }

  lemma TopNotZero()
    ensures V(TOP) != 0
  {
    VOfZero();
    VIsInjective(TOP, 0);
  }

  lemma StepsNotZero(c: nat, n: nat)
    requires 0 < c < W32
    ensures Steps(c, n) != 0
  {
    if Steps(c, n) == 0 {
      StepsAreInjective(c, n);
    }
  }

  /** Whatever is in the register, it is back after 2^32 - 1 zero bits, and not before, unless it is zero. */
  lemma PeriodOfRegister(c: nat, n: nat)
    requires c < W32
    ensures Steps(c, n) == c <==> c == 0 || n % PERIOD == 0
  {
    if c == 0 {
      StepsOfZero(n);
    } else {
      var j := OnTheWay(c);
      StepsAdd(V(TOP), j, n);
      StepsAdd(V(TOP), n, j);
      assert Steps(V(TOP), j + n) == Steps(V(TOP), n + j);
      TopReturns(n);
      VBelow(TOP);
      StepsBelow(V(TOP), n);
      if Steps(c, n) == c {
        StepsOneToOne(Steps(V(TOP), n), V(TOP), j);
      }
    }
  }
}
