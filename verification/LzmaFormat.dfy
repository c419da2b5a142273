/** The format of a packet in numbers: its bits one by one, and the probability each of them is coded with. */
module LzmaFormat {
  import opened Words
  import opened LzmaTables
  import opened LzmaRange
  import opened LzmaPackets
  import opened LzmaMachine
  import Sizes

  /** Bit j of a number, (v >> j) & 1. */
  function Digit(v: int, j: nat): int {
    ShiftRight(v, j) % 2
  }

  /** n bits of v, the highest first. Each is coded with a probability of its own for every value of those before. */
  function Number(t: Table, m: int, n: nat, v: int): seq<Decision> {
    seq(n, j requires 0 <= j < n => Model(Cell(t, ShiftLeft(m, j) + ShiftRight(v, n - j)), Digit(v, n - 1 - j)))
  }

  /** The same with the lowest first. */
  function Backwards(t: Table, m: int, n: nat, v: int): seq<Decision> {
    seq(n, j requires 0 <= j < n => Model(Cell(t, ShiftLeft(m, j) + Mirror(v, j)), Digit(v, j)))
  }

  /** n bits of v with one half each. */
  function Plain(n: nat, v: int): seq<Decision> {
    seq(n, j requires 0 <= j < n => Direct(Digit(v, n - 1 - j)))
  }

  /** The lowest j bits of v read backwards. */
  function Mirror(v: int, j: nat): int {
    if j == 0 then 0 else 2 * Mirror(v, j - 1) + Digit(v, j - 1)
  }

  /** The first j of eight bits are the same. */
  predicate Agree(a: int, b: int, j: nat)
    requires j <= 8
  {
    forall i :: 8 - j <= i < 8 ==> Digit(a, i) == Digit(b, i)
  }

  /** A literal: while it agrees with the match byte, its bits have further probabilities that tell the next bit of
      that byte. */
  function Byte(x: Context, b: int): seq<Decision> {
    seq(8, j requires 0 <= j < 8 =>
      Model(Cell(Literal(x.literal),
                 ShiftRight(256 + b, 8 - j)
                 + if x.state >= 7 && Agree(x.matchByte, b, j) then 256 + 256 * Digit(x.matchByte, 7 - j) else 0),
            Digit(b, 7 - j)))
  }

  function One(t: Table, i: int, b: int): seq<Decision> {
    [Model(Cell(t, i), b)]
  }

  /** A length: three bits below 10, three from 10 to 17, and eight for 18 to 273. */
  function Length(rep: bool, posState: int, len: int): seq<Decision> {
    if len < 10 then One(LenChoice(rep), 0, 0) + Number(LenLow(rep, posState), 1, 3, len - 2)
    else if len < 18 then
      One(LenChoice(rep), 0, 1) + One(LenChoice2(rep), 0, 0) + Number(LenMid(rep, posState), 1, 3, len - 10)
    else One(LenChoice(rep), 0, 1) + One(LenChoice2(rep), 0, 1) + Number(LenHigh(rep), 1, 8, len - 18)
  }

  /** The slot of a distance: the position of its highest bit, and the bit after that. */
  predicate IsSlot(slot: nat, v: int) {
    if slot < 4 then v == slot
    else (2 + slot % 2) * Pow2(slot / 2 - 1) <= v < (3 + slot % 2) * Pow2(slot / 2 - 1)
  }

  /** The bits of a distance after its slot. */
  function Footer(slot: nat, v: int): seq<Decision> {
    if slot < 4 then []
    else if slot < 14 then Backwards(SpecPos(slot), 1, slot / 2 - 1, LowBits(v, slot / 2 - 1))
    else Plain(slot / 2 - 5, LowBits(v, slot / 2 - 1) / 16) + Backwards(Align, 1, 4, v % 16)
  }

  /** A distance; matches of lengths 2, 3, 4, and 5 or more have slots of their own. */
  function Distance(len: int, slot: nat, v: int): seq<Decision> {
    Number(PosSlot(if len < 5 then len - 2 else 3), 1, 6, slot) + Footer(slot, v)
  }

  /** A packet. */
  function Format(x: Context, p: Packet, slot: nat): seq<Decision> {
    var s, t := x.state, 16 * x.state + x.posState;
    match p
    case Lit(b) => One(IsMatch, t, 0) + Byte(x, b)
    case ShortRep => One(IsMatch, t, 1) + One(IsRep, s, 1) + One(IsRepG0, s, 0) + One(IsRep0Long, t, 0)
    case Match(v, len) =>
      One(IsMatch, t, 1) + One(IsRep, s, 0) + Length(false, x.posState, len) + Distance(len, slot, v)
    case Rep(k, len) =>
      One(IsMatch, t, 1) + One(IsRep, s, 1)
      + (if k == 0 then One(IsRepG0, s, 0) + One(IsRep0Long, t, 1)
         else if k == 1 then One(IsRepG0, s, 1) + One(IsRepG1, s, 0)
         else One(IsRepG0, s, 1) + One(IsRepG1, s, 1) + One(IsRepG2, s, k - 2))
      + Length(true, x.posState, len)
  }

  // ----- numbers -----

  /** The shifts and masks in numbers. */
  lemma {:induction false} LowBitsIs(n: int, k: nat)
    ensures LowBits(n, k) == n % Pow2(k)
    decreases k
  {
    if k > 0 {
      LowBitsIs(n / 2, k - 1);
      HalfOf(n, Pow2(k - 1));
    }
  }

  lemma {:induction false} ShiftRightIs(n: int, k: nat)
    ensures ShiftRight(n, k) == n / Pow2(k)
    decreases k
  {
    if k > 0 {
      ShiftRightIs(n / 2, k - 1);
      HalfOf(n, Pow2(k - 1));
    }
  }

  lemma HalfOf(n: int, q: int)
    requires q >= 1
    ensures n % (2 * q) == n / 2 % q * 2 + n % 2 && n / (2 * q) == n / 2 / q
  {
    var h, r := n / 2 / q, n / 2 % q;
    var m := 2 * q;
    assert n / 2 == q * h + r;
    assert n == m * h + (2 * r + n % 2);
    assert n == m * (n / m) + n % m;
    Sizes.SameQuotient(m, h, 2 * r + n % 2, n / m, n % m);
  }

  lemma {:induction false} TopIs(v: int, n: nat)
    requires n >= 1
    ensures Top(v, n) == ShiftRight(v, n - 1) && Low(v, n) == LowBits(v, n - 1)
    decreases n
  {
    if n > 1 {
      TopIs(v / 2, n - 1);
    }
  }

  lemma {:induction false} BitBelow(v: int, n: nat)
    requires 0 <= v < Pow2(n)
    ensures ShiftRight(v, n) == 0
    decreases n
  {
    if n > 0 {
      BitBelow(v / 2, n - 1);
    }
  }

  lemma {:induction false} TopBit(v: int, n: nat)
    requires n >= 1 && 0 <= v < Pow2(n)
    ensures Digit(v, n - 1) == ShiftRight(v, n - 1)
  {
    TopAndLow(v, n);
    TopIs(v, n);
  }

  lemma {:induction false} ShiftLeftAdds(a: int, b: int, k: nat)
    ensures ShiftLeft(a + b, k) == ShiftLeft(a, k) + ShiftLeft(b, k)
    decreases k
  {
    if k > 0 {
      ShiftLeftAdds(2 * a, 2 * b, k - 1);
    }
  }

  /** A number is its high bits and its low ones. */
  lemma {:induction false} HighAndLow(v: int, m: nat)
    ensures v == ShiftLeft(ShiftRight(v, m), m) + LowBits(v, m)
    decreases m
  {
    if m > 0 {
      HighAndLow(v / 2, m - 1);
      ShiftLeftAdds(ShiftRight(v, m), ShiftRight(v, m), m - 1);
    }
  }

  lemma HalfIs(b: int, h: int)
    requires 0 <= b < 2
    ensures (b + 2 * h) / 2 == h && (b + 2 * h) % 2 == b
  {
  }

  lemma {:induction false} LowDigit(v: int, m: nat, k: nat)
    requires k < m
    ensures Digit(LowBits(v, m), k) == Digit(v, k)
    decreases k
  {
    assert LowBits(v, m) == v % 2 + 2 * LowBits(v / 2, m - 1);
    HalfIs(v % 2, LowBits(v / 2, m - 1));
    if k > 0 {
      LowDigit(v / 2, m - 1, k - 1);
      assert ShiftRight(LowBits(v, m), k) == ShiftRight(LowBits(v / 2, m - 1), k - 1);
    }
  }

  /** The high part of a number, from that of its low bits. */
  lemma {:induction false} HighPart(v: int, m: nat, k: nat)
    requires k <= m
    ensures ShiftRight(v, k) == ShiftLeft(ShiftRight(v, m), m - k) + ShiftRight(LowBits(v, m), k)
    decreases k
  {
    if k == 0 {
      HighAndLow(v, m);
    } else {
      HighPart(v / 2, m - 1, k - 1);
    }
  }

  /** The parts of a number without its top bit. */
  lemma BelowTop(v: int, n: nat, j: nat)
    requires 1 <= j <= n
    ensures ShiftRight(v, n - j) == ShiftLeft(Top(v, n), j - 1) + ShiftRight(Low(v, n), n - j)
    ensures j < n ==> Digit(v, n - 1 - j) == Digit(Low(v, n), n - 1 - j)
  {
    TopIs(v, n);
    HighPart(v, n - 1, n - j);
    if j < n {
      LowDigit(v, n - 1, n - 1 - j);
    }
  }

  // ----- trees -----

  lemma {:induction false} TreeIsNumber(t: Table, n: nat, m: int, v: int)
    requires 0 <= v < Pow2(n)
    ensures TreeDecs(t, n, m, v) == Number(t, m, n, v)
    decreases n
  {
    if n > 0 {
      var b, low := Top(v, n), Low(v, n);
      TopAndLow(v, n);
      TreeIsNumber(t, n - 1, 2 * m + b, low);
      var r := [Model(Cell(t, m), b)] + Number(t, 2 * m + b, n - 1, low);
      forall j | 0 <= j < n ensures r[j] == Number(t, m, n, v)[j] {
        NumberStep(t, n, m, v, j);
      }
    }
  }

  lemma NumberStep(t: Table, n: nat, m: int, v: int, j: nat)
    requires j < n && 0 <= v < Pow2(n)
    ensures var b, low := Top(v, n), Low(v, n);
            Number(t, m, n, v)[j] == if j == 0 then Model(Cell(t, m), b) else Number(t, 2 * m + b, n - 1, low)[j - 1]
  {
    if j == 0 {
      TopIs(v, n);
      TopBit(v, n);
      BitBelow(v, n);
    } else {
      BelowTop(v, n, j);
      ShiftLeftAdds(2 * m, Top(v, n), j - 1);
    }
  }

  lemma {:induction false} DirectIsPlain(n: nat, v: int)
    requires 0 <= v < Pow2(n)
    ensures DirectDecs(n, v) == Plain(n, v)
    decreases n
  {
    if n > 0 {
      TopAndLow(v, n);
      TopIs(v, n);
      TopBit(v, n);
      DirectIsPlain(n - 1, Low(v, n));
      var r := [Direct(Top(v, n))] + Plain(n - 1, Low(v, n));
      forall j | 0 <= j < n ensures r[j] == Plain(n, v)[j] {
        if j > 0 {
          BelowTop(v, n, j);
        }
      }
    }
  }

  lemma {:induction false} MirrorHalf(v: int, j: nat)
    ensures Mirror(v, j + 1) == ShiftLeft(v % 2, j) + Mirror(v / 2, j)
  {
    if j > 0 {
      MirrorHalf(v, j - 1);
      ShiftLeftAdds(v % 2, v % 2, j - 1);
      assert Mirror(v, j + 1) == 2 * Mirror(v, j) + Digit(v, j);
    } else {
      assert Mirror(v, 0) == 0;
    }
  }

  lemma {:induction false} ReverseIsBackwards(t: Table, n: nat, m: int, v: int)
    ensures ReverseDecs(t, n, m, v) == Backwards(t, m, n, v)
    decreases n
  {
    if n > 0 {
      ReverseIsBackwards(t, n - 1, 2 * m + v % 2, v / 2);
      var r := [Model(Cell(t, m), v % 2)] + Backwards(t, 2 * m + v % 2, n - 1, v / 2);
      forall j | 0 <= j < n ensures r[j] == Backwards(t, m, n, v)[j] {
        if j > 0 {
          MirrorHalf(v, j - 1);
          ShiftLeftAdds(2 * m, v % 2, j - 1);
        }
      }
    }
  }

  // ----- literals -----

  /** The literal bits so far agree with the match byte. */
  ghost predicate Matches(s: Partial, n: nat, v: int, j: nat)
    requires j <= n
  {
    s.matched && forall i :: 0 <= i < j ==> SameBit(s, n, v, i)
  }

  ghost predicate SameBit(s: Partial, n: nat, v: int, i: nat)
    requires i < n
  {
    MatchBit(ShiftLeft(s.matchByte, i)) == Digit(v, n - 1 - i)
  }

  ghost function Letter(c: int, n: nat, s: Partial, v: int, j: nat): Decision
    requires j < n
  {
    var k := ShiftLeft(s.sym, j) + ShiftRight(v, n - j);
    Model(Cell(Literal(c), k + if Matches(s, n, v, j) then 256 + 256 * MatchBit(ShiftLeft(s.matchByte, j)) else 0),
          Digit(v, n - 1 - j))
  }

  lemma {:induction false} LiteralIsLetters(c: int, n: nat, s: Partial, v: int)
    requires 0 <= v < Pow2(n)
    ensures |LiteralDecs(c, n, s, v)| == n
    ensures forall j: nat :: j < n ==> LiteralDecs(c, n, s, v)[j] == Letter(c, n, s, v, j)
    decreases n
  {
    if n > 0 {
      var r, low := NextPartial(s, Top(v, n)), Low(v, n);
      TopAndLow(v, n);
      LiteralIsLetters(c, n - 1, r, low);
      forall j: nat | j < n ensures LiteralDecs(c, n, s, v)[j] == Letter(c, n, s, v, j) {
        if j == 0 {
          FirstLetter(c, n, s, v);
        } else {
          LaterLetter(c, n, s, v, j);
          assert LiteralDecs(c, n, s, v)[j] == LiteralDecs(c, n - 1, r, low)[j - 1];
        }
      }
    }
  }

  lemma FirstLetter(c: int, n: nat, s: Partial, v: int)
    requires n > 0 && 0 <= v < Pow2(n)
    ensures Letter(c, n, s, v, 0) == Model(LiteralCell(c, s), Top(v, n))
  {
    TopIs(v, n);
    TopBit(v, n);
    BitBelow(v, n);
  }

  lemma LaterLetter(c: int, n: nat, s: Partial, v: int, j: nat)
    requires 0 < j < n && 0 <= v < Pow2(n)
    ensures Letter(c, n, s, v, j) == Letter(c, n - 1, NextPartial(s, Top(v, n)), Low(v, n), j - 1)
  {
    BelowTop(v, n, j);
    ShiftLeftAdds(2 * s.sym, Top(v, n), j - 1);
    MatchesStep(n, s, v, j);
  }

  lemma MatchesStep(n: nat, s: Partial, v: int, j: nat)
    requires 0 < j < n && 0 <= v < Pow2(n)
    ensures Matches(s, n, v, j) == Matches(NextPartial(s, Top(v, n)), n - 1, Low(v, n), j - 1)
  {
    var r, low := NextPartial(s, Top(v, n)), Low(v, n);
    TopIs(v, n);
    TopBit(v, n);
    assert SameBit(s, n, v, 0) == (Top(v, n) == MatchBit(s.matchByte));
    forall i: nat | 0 < i < j ensures SameBit(s, n, v, i) == SameBit(r, n - 1, low, i - 1) {
      BelowTop(v, n, i);
    }
    if Matches(s, n, v, j) {
      var k := n - 1;
      forall i: nat | i < j - 1 ensures SameBit(r, k, low, i) {
        assert SameBit(s, n, v, i + 1);
      }
    }
    if Matches(r, n - 1, low, j - 1) {
      forall i: nat | i < j ensures SameBit(s, n, v, i) {
        if i > 0 {
          assert SameBit(r, n - 1, low, i - 1);
        }
      }
    }
  }

  lemma {:induction false} MatchBitIs(m: int, i: nat)
    requires i <= 7
    ensures MatchBit(ShiftLeft(m, i)) == Digit(m, 7 - i)
  {
    ShiftBack(m, i, 7);
    assert MatchBit(ShiftLeft(m, i)) == Digit(ShiftLeft(m, i), 7) by {
      ShiftRightIs(ShiftLeft(m, i), 7);
      SmallPowers();
    }
  }

  lemma {:induction false} ShiftBack(m: int, i: nat, k: nat)
    requires i <= k
    ensures ShiftRight(ShiftLeft(m, i), k) == ShiftRight(m, k - i)
    decreases i
  {
    if i > 0 {
      ShiftBack(2 * m, i - 1, k);
    }
  }

  lemma LiteralIsByte(x: Context, b: int)
    requires 0 <= b < 256
    ensures LiteralEnc(x, b) == Byte(x, b)
  {
    SmallPowers();
    LiteralIsLetters(x.literal, Levels(Literal(x.literal)), NewPartial(x), b);
    forall j: nat | j < 8 ensures Letter(x.literal, 8, NewPartial(x), b, j) == Byte(x, b)[j] {
      LetterIs(x, b, j);
    }
  }

  lemma LetterIs(x: Context, b: int, j: nat)
    requires 0 <= b < 256 && j < 8
    ensures Letter(x.literal, 8, NewPartial(x), b, j) == Byte(x, b)[j]
  {
    MatchBitIs(x.matchByte, j);
    OneBefore(b, 8 - j);
    AgreeIsMatches(x, b, j);
  }

  lemma OneBefore(b: int, k: nat)
    requires 0 <= b < 256 && k <= 8
    ensures ShiftRight(256 + b, k) == ShiftLeft(1, 8 - k) + ShiftRight(b, k)
  {
    SmallPowers();
    HighPart(256 + b, 8, k);
    LowBitsIs(256 + b, 8);
    ShiftRightIs(256 + b, 8);
  }

  lemma AgreeIsMatches(x: Context, b: int, j: nat)
    requires j < 8
    ensures Matches(NewPartial(x), 8, b, j) == (x.state >= 7 && Agree(x.matchByte, b, j))
  {
    var s := NewPartial(x);
    forall i: nat | i < j ensures SameBit(s, 8, b, i) == (Digit(x.matchByte, 7 - i) == Digit(b, 7 - i)) {
      MatchBitIs(x.matchByte, i);
    }
    if Matches(s, 8, b, j) {
      forall i: nat | 8 - j <= i < 8 ensures Digit(x.matchByte, i) == Digit(b, i) {
        assert SameBit(s, 8, b, 7 - i);
      }
    }
    if s.matched && Agree(x.matchByte, b, j) {
      forall i: nat | i < j ensures SameBit(s, 8, b, i) {
        assert Digit(x.matchByte, 7 - i) == Digit(b, 7 - i);
      }
    }
  }

  // ----- lengths and distances -----

  lemma TreeEncIs(t: Table, v: int)
    requires 0 <= v < Pow2(Levels(t))
    ensures TreeEnc(t, v) == Number(t, 1, Levels(t), v)
  {
    TreeIsNumber(t, Levels(t), 1, v);
  }

  lemma Associate<T>(a: seq<T>, b: seq<T>, c: seq<T>)
    ensures a + (b + c) == a + b + c
  {
  }

  lemma LengthIs(rep: bool, posState: int, len: int)
    requires 2 <= len < 274
    ensures LenDecs(rep, posState, len - 2) == Length(rep, posState, len)
  {
    SmallPowers();
    if len < 10 {
      TreeEncIs(LenLow(rep, posState), len - 2);
    } else if len < 18 {
      TreeEncIs(LenMid(rep, posState), len - 10);
      Associate(One(LenChoice(rep), 0, 1), One(LenChoice2(rep), 0, 0), TreeEnc(LenMid(rep, posState), len - 10));
    } else {
      TreeEncIs(LenHigh(rep), len - 18);
      Associate(One(LenChoice(rep), 0, 1), One(LenChoice2(rep), 0, 1), TreeEnc(LenHigh(rep), len - 18));
    }
  }

  /** Every distance has exactly one slot. */
  lemma {:induction false} SlotIsUnique(slot: nat, v: nat)
    ensures IsSlot(slot, v) <==> slot == SlotOf(v)
  {
    SlotHolds(v);
    if SlotOf(v) >= 4 {
      SlotBaseIs(SlotOf(v));
    }
    if IsSlot(slot, v) {
      SlotFromRange(slot, v);
    }
  }

  lemma {:induction false} SlotFromRange(slot: nat, v: nat)
    requires IsSlot(slot, v)
    ensures slot == SlotOf(v)
    decreases slot
  {
    SmallPowers();
    if slot >= 6 {
      var p := Pow2(slot / 2 - 2);
      assert (2 + slot % 2) * (2 * p) == 2 * ((2 + slot % 2) * p);
      assert (3 + slot % 2) * (2 * p) == 2 * ((3 + slot % 2) * p);
      SlotFromRange(slot - 2, v / 2);
      assert (2 + slot % 2) * p >= 2;
    } else if slot >= 4 {
      assert SlotOf(v / 2) == v / 2;
    }
  }

  lemma DistanceIs(len: int, slot: nat, v: int)
    requires 2 <= len && 0 <= v < W32 && IsSlot(slot, v)
    ensures DistanceDecs(LenState(len - 2), v) == Distance(len, slot, v)
  {
    SlotIsUnique(slot, v);
    SlotOfDistance(v);
    RestIs(slot, v);
    SlotCode(LenState(len - 2), slot, v, Footer(slot, v));
  }

  lemma SlotCode(lenState: int, slot: int, v: int, f: seq<Decision>)
    requires slot == SlotOf(v) && 0 <= slot < Pow2(Levels(PosSlot(0))) && SlotDecs(slot, v - SlotBase(slot)) == f
    ensures DistanceDecs(lenState, v) == Number(PosSlot(lenState), 1, 6, slot) + f
  {
    TreeEncIs(PosSlot(lenState), slot);
  }

  lemma RestIs(slot: nat, v: int)
    requires slot < 64 && 0 <= v && IsSlot(slot, v)
    ensures SlotDecs(slot, v - SlotBase(slot)) == Footer(slot, v)
  {
    if slot >= 4 {
      FooterIs(slot, v);
    }
  }

  lemma {:induction false} FooterIs(slot: nat, v: int)
    requires 4 <= slot < 64 && 0 <= v && IsSlot(slot, v)
    ensures SlotDecs(slot, v - SlotBase(slot)) == Footer(slot, v)
  {
    var n := slot / 2 - 1;
    var r := LowBits(v, n);
    RestOfSlot(slot, v);
    if slot < 14 {
      ReverseIsBackwards(SpecPos(slot), n, 1, r);
    } else {
      SmallPowers();
      Pow2Sum(n - 4, 4);
      LowBitsBelow(v, n);
      DirectIsPlain(n - 4, r / 16);
      ReverseIsBackwards(Align, 4, 1, r % 16);
      assert r % 16 == v % 16 by {
        LowBitsIs(r, 4);
        LowBitsIs(v, 4);
        LowOfLow(v, n, 4);
      }
    }
  }

  lemma RestOfSlot(slot: nat, v: int)
    requires 4 <= slot && IsSlot(slot, v)
    ensures v - SlotBase(slot) == LowBits(v, slot / 2 - 1)
  {
    SlotBaseIs(slot);
    LowBitsIs(v, slot / 2 - 1);
    RestInRange(2 + slot % 2, Pow2(slot / 2 - 1), v);
  }

  lemma RestInRange(h: int, q: int, v: int)
    requires q >= 1 && h * q <= v < (h + 1) * q
    ensures v - h * q == v % q
  {
    assert (h + 1) * q == h * q + q;
    assert v == q * (v / q) + v % q;
    Sizes.SameQuotient(q, h, v - h * q, v / q, v % q);
  }

  lemma {:induction false} LowOfLow(v: int, n: nat, k: nat)
    requires k <= n
    ensures LowBits(LowBits(v, n), k) == LowBits(v, k)
    decreases k
  {
    if k > 0 {
      LowOfLow(v / 2, n - 1, k - 1);
    }
  }

  /** The decisions of a packet, one by one and in numbers. */
  lemma PacketFormat(x: Context, p: Packet, slot: nat)
    requires PacketOk(p) && (p.Match? ==> IsSlot(slot, p.distance))
    ensures PacketDecs(x, p) == Format(x, p, slot)
  {
    match p
    case Lit(b) => LiteralIsByte(x, b);
    case ShortRep => ShortFormat(x);
    case Rep(k, len) => RepFormat(x, k, len);
    case Match(v, len) => MatchFormat(x, v, len, slot);
  }

  lemma Nest<T>(a: seq<T>, b: seq<T>, c: seq<T>, d: seq<T>)
    ensures a + (b + (c + d)) == a + b + (c + d) == a + b + c + d
  {
    Associate(a, b, c + d);
    Associate(a + b, c, d);
  }

  lemma ShortFormat(x: Context)
    ensures PacketDecs(x, ShortRep) == Format(x, ShortRep, 0)
  {
    var s, t := x.state, 16 * x.state + x.posState;
    Nest(One(IsMatch, t, 1), One(IsRep, s, 1), One(IsRepG0, s, 0), One(IsRep0Long, t, 0));
    assert One(IsRep0Long, t, 0) + [] == One(IsRep0Long, t, 0);
  }

  lemma MatchFormat(x: Context, v: int, len: int, slot: nat)
    requires PacketOk(Match(v, len)) && IsSlot(slot, v)
    ensures PacketDecs(x, Match(v, len)) == Format(x, Match(v, len), slot)
  {
    LengthIs(false, x.posState, len);
    DistanceIs(len, slot, v);
    var s, t := x.state, 16 * x.state + x.posState;
    Nest(One(IsMatch, t, 1), One(IsRep, s, 0), Length(false, x.posState, len), Distance(len, slot, v));
  }

  lemma RepFormat(x: Context, k: int, len: int)
    requires 0 <= k < 4 && 2 <= len < 274
    ensures PacketDecs(x, Rep(k, len)) == Format(x, Rep(k, len), 0)
  {
    LengthIs(true, x.posState, len);
    var s, t, l := x.state, 16 * x.state + x.posState, Length(true, x.posState, len);
    var a, b := One(IsMatch, t, 1), One(IsRep, s, 1);
    if k == 0 {
      Associate(One(IsRepG0, s, 0), One(IsRep0Long, t, 1), l);
      Nest(a, b, One(IsRepG0, s, 0) + One(IsRep0Long, t, 1), l);
    } else if k == 1 {
      Associate(One(IsRepG0, s, 1), One(IsRepG1, s, 0), l);
      Nest(a, b, One(IsRepG0, s, 1) + One(IsRepG1, s, 0), l);
    } else {
      Nest(One(IsRepG0, s, 1), One(IsRepG1, s, 1), One(IsRepG2, s, k - 2), l);
      Nest(a, b, One(IsRepG0, s, 1) + One(IsRepG1, s, 1) + One(IsRepG2, s, k - 2), l);
    }
  }

  // ----- the context -----

  /** What a packet's tables depend on: the position modulo 2^pb for matches, and for literals the position modulo
      2^lp and the top lc bits of the last byte; after a copy, also the byte at the last distance. */
  lemma ContextIs(p: Props, w: int, z: Lz)
    requires PropsOk(p) && LzOk(w, z) && z.len == 0
    ensures var x, n := ContextOf(p, z), |z.out|;
            && x.state == z.state && x.posState == n % Pow2(p.pb)
            && x.literal == n % Pow2(p.lp) * Pow2(p.lc) + (if n == 0 then 0 else z.out[n - 1]) / Pow2(8 - p.lc)
            && (z.state >= 7 ==> 1 <= z.rep0 <= n && x.matchByte == z.out[n - z.rep0])
  {
    LowBitsIs(|z.out|, p.pb);
    LowBitsIs(|z.out|, p.lp);
    ShiftLeftIs(LowBits(|z.out|, p.lp), p.lc);
    ShiftRightIs(Back(z.out, 1), 8 - p.lc);
  }
}
