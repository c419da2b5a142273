/** The range decoder of LZMA, and the range encoder it inverts. */
module LzmaRange {
  import opened Words
  import opened LzmaTables
  import Sizes

  type byte = x: int | 0 <= x < 256

  const TOP: int := 0x100_0000

  /** The decoder between two decisions: `rest` is the input not read yet. */
  datatype Dec = Dec(range: int, code: int, rest: seq<byte>, tables: Tables)

  datatype Read<T> = Error | Got(dec: Dec, value: T)

  // ----- decoding -----

  /** RC_INIT: five bytes, the first of which is shifted out of the word. */
  function Init(input: seq<byte>): Read<()> {
    if |input| < 5 then Error
    else Got(Dec(W32 - 1, Word(input[1], input[2], input[3], input[4]), input[5..], map[]), ())
  }

  function Word(a: int, b: int, c: int, d: int): int {
    a * TOP + b * 0x1_0000 + c * 0x100 + d
  }

  /** RC_NORMALIZE */
  function Normalize(d: Dec): (r: Read<()>) {
    if d.range >= TOP then Got(d, ())
    else if d.rest == [] then Error
    else Got(d.(range := d.range * 256, code := U32(d.code * 256 + d.rest[0]), rest := d.rest[1..]), ())
  }

  /** The 2048th part of a range, taken p times. */
  function Bound(range: int, p: int): int {
    if p <= 0 then 0 else range / 2048 + Bound(range, p - 1)
  }

  lemma {:induction false} BoundIs(range: int, p: int)
    requires 0 <= p
    ensures Bound(range, p) == range / 2048 * p
  {
    if p > 0 {
      BoundIs(range, p - 1);
      assert range / 2048 * (p - 1) == range / 2048 * p - range / 2048;
    }
  }

  /** UpdateBit0 and UpdateBit1, of the probability */
  function Adapt(p: int, bit: int): int {
    if bit == 0 then p + (2048 - p) / 32 else p - p / 32
  }

  function AdaptAt(t: Tables, c: Cell, bit: int): Tables {
    t[c := Adapt(Prob(t, c), bit)]
  }

  /** A normalised decoder after bit `b` under cell `c`. */
  function Take(d: Dec, c: Cell, b: int): Dec {
    var bound := Bound(d.range, Prob(d.tables, c));
    if b == 0 then d.(range := bound, tables := AdaptAt(d.tables, c, 0))
    else d.(range := d.range - bound, code := d.code - bound, tables := AdaptAt(d.tables, c, 1))
  }

  /** RC_GET_BIT: one adaptive bit. */
  function Bit(d: Dec, c: Cell): Read<int> {
    match Normalize(d)
    case Error => Error
    case Got(n, _) =>
      var b := if n.code < Bound(n.range, Prob(n.tables, c)) then 0 else 1;
      Got(Take(n, c, b), b)
  }

  /** A normalised decoder after the direct bit `b`. */
  function TakeDirect(d: Dec, b: int): Dec {
    d.(range := d.range / 2, code := d.code - b * (d.range / 2))
  }

  /** One bit without a model. */
  function DirectBit(d: Dec): Read<int> {
    match Normalize(d)
    case Error => Error
    case Got(n, _) =>
      var b := if n.code >= n.range / 2 then 1 else 0;
      Got(TakeDirect(n, b), b)
  }

  // ----- bounds that hold for every input -----

  ghost predicate ProbOk(t: Tables, c: Cell) {
    31 <= Prob(t, c) <= 2017
  }

  ghost predicate ProbsOk(t: Tables) {
    forall c {:trigger ProbOk(t, c)} :: ProbOk(t, c)
  }

  /** The smallest range any bit leaves: one byte brings it back to TOP. */
  const LEASTRANGE: int := 31 * 0x2000

  ghost predicate DecOk(d: Dec) {
    LEASTRANGE <= d.range < W32 && 0 <= d.code < W32 && ProbsOk(d.tables)
  }

  ghost predicate Normal(d: Dec) {
    DecOk(d) && TOP <= d.range
  }

  /** A bit moves its probability a thirty-second of the way, rounded down, towards 2048 or towards zero; so a
      probability stops moving at 2017 and at 31. */
  lemma AdaptMoves(p: int, bit: int)
    requires 0 <= p <= 2048 && 0 <= bit <= 1
    ensures var a := Adapt(p, bit);
            if bit == 0 then 32 * (a - p) <= 2048 - p < 32 * (a - p) + 32 else 32 * (p - a) <= p < 32 * (p - a) + 32
    ensures Adapt(p, bit) == p <==> if bit == 0 then p > 2016 else p < 32
  {
  }

  /** A probability after the same bit n times. */
  function AdaptTimes(p: int, bit: int, n: nat): int
    decreases n
  {
    if n == 0 then p else AdaptTimes(Adapt(p, bit), bit, n - 1)
  }

  /** Both bounds of a probability are reached, from wherever it is. */
  lemma {:induction false} BoundsAreReached(p: int, bit: int) returns (n: nat)
    requires 31 <= p <= 2017 && 0 <= bit <= 1
    ensures AdaptTimes(p, bit, n) == if bit == 0 then 2017 else 31
    decreases if bit == 0 then 2017 - p else p - 31
  {
    n := 0;
    if p != if bit == 0 then 2017 else 31 {
      AdaptMoves(p, bit);
      var m := BoundsAreReached(Adapt(p, bit), bit);
      n := m + 1;
    }
  }

  lemma AdaptKeepsProbs(t: Tables, c: Cell, b: int)
    requires ProbsOk(t) && 0 <= b <= 1
    ensures ProbsOk(AdaptAt(t, c, b))
  {
    forall x ensures ProbOk(AdaptAt(t, c, b), x) {
      assert ProbOk(t, x) && ProbOk(t, c);
    }
    assert ProbOk(t, c);
  }

  /** A zero has the lower part of the range, in proportion to its probability, and a one has the rest; the
      probability of that bit alone adapts. */
  lemma BitShares(d: Dec, c: Cell)
    requires DecOk(d) && Bit(d, c).Got?
    ensures var n, e, b := Normalize(d).dec, Bit(d, c).dec, Bit(d, c).value;
            var share := n.range / 2048 * Prob(d.tables, c);
            && (b == 0 <==> n.code < share) && n.code - e.code == (if b == 0 then 0 else share)
            && e.range == (if b == 0 then share else n.range - share) && e.rest == n.rest
            && forall x :: Prob(e.tables, x) == if x == c then Adapt(Prob(d.tables, x), b) else Prob(d.tables, x)
  {
    var n := Normalize(d).dec;
    assert ProbOk(d.tables, c);
    BoundIs(n.range, Prob(n.tables, c));
  }

  /** A direct one has the upper half of the range, and a direct zero the lower. */
  lemma DirectShares(d: Dec)
    requires DecOk(d) && DirectBit(d).Got?
    ensures var n, e, b := Normalize(d).dec, DirectBit(d).dec, DirectBit(d).value;
            && 2 * e.range <= n.range <= 2 * e.range + 1 && (b == 1 <==> n.code >= e.range)
            && n.code - e.code == b * e.range && e.rest == n.rest && e.tables == n.tables
  {
  }

  /** One byte is always enough to bring the range back to TOP. */
  lemma NormalizeRestores(d: Dec)
    requires DecOk(d) && Normalize(d).Got?
    ensures Normal(Normalize(d).dec)
    ensures Normalize(Normalize(d).dec) == Got(Normalize(d).dec, ())
  {
  }

  /** Both parts of a range are at least LEASTRANGE wide. */
  lemma BoundSplits(range: int, p: int)
    requires TOP <= range < W32 && 31 <= p <= 2017
    ensures LEASTRANGE <= Bound(range, p) <= range - LEASTRANGE
  {
    var q := range / 2048;
    BoundIs(range, p);
    MulMono(0x2000, q, p);
    MulMono(0x2000, q, 2048 - p);
    MulMono(31, p, 0x2000);
    assert q * p + q * (2048 - p) == q * 2048;
  }

  lemma MulMono(x: int, y: int, p: int)
    requires x <= y && 0 <= p
    ensures x * p <= y * p
  {
    assert (y - x) * p >= 0;
  }

  lemma BitKeepsOk(d: Dec, c: Cell)
    requires DecOk(d) && Bit(d, c).Got?
    ensures DecOk(Bit(d, c).dec) && 0 <= Bit(d, c).value <= 1
    ensures 0 < Bound(Normalize(d).dec.range, Prob(d.tables, c)) < Normalize(d).dec.range
  {
    NormalizeRestores(d);
    var n := Normalize(d).dec;
    assert ProbOk(n.tables, c);
    BoundSplits(n.range, Prob(n.tables, c));
    AdaptKeepsProbs(n.tables, c, Bit(d, c).value);
  }

  lemma DirectBitKeepsOk(d: Dec)
    requires DecOk(d) && DirectBit(d).Got?
    ensures DecOk(DirectBit(d).dec) && 0 <= DirectBit(d).value <= 1
  {
    NormalizeRestores(d);
  }

  lemma InitIsOk(input: seq<byte>)
    requires |input| >= 5
    ensures Normal(Init(input).dec)
  {
    forall c ensures ProbOk(map[], c) {
    }
  }

  // ----- when the code stays below the range -----

  /** The first code is below the range unless the four bytes that make it are all ones. */
  lemma InitBelow(input: seq<byte>)
    requires |input| >= 5
    ensures Init(input).dec.code < Init(input).dec.range <==> input[1..5] != [255, 255, 255, 255]
  {
    var a, b, c, d := input[1], input[2], input[3], input[4];
    assert input[1..5] == [a, b, c, d];
    assert Word(a, b, c, d) == W32 - 1 <==> a == 255 && b == 255 && c == 255 && d == 255;
  }

  /** Normalising and adaptive bits keep the code below the range. */
  lemma BitKeepsBelow(d: Dec, c: Cell)
    requires DecOk(d) && Bit(d, c).Got? && d.code < d.range
    ensures Bit(d, c).dec.code < Bit(d, c).dec.range
    ensures Normalize(d).dec.code < Normalize(d).dec.range
  {
  }

  /** A direct bit keeps the code below the range except in one case: an odd range with the code
      just below it. No encoder produces that code, but other input can. */
  lemma DirectBitKeepsBelow(d: Dec)
    requires DecOk(d) && DirectBit(d).Got? && d.code < d.range
    ensures var n := Normalize(d).dec;
            DirectBit(d).dec.code < DirectBit(d).dec.range <==> !(n.range % 2 == 1 && n.code == n.range - 1)
  {
  }

  lemma DirectBitMayReachRange()
    ensures var d := Dec(TOP + 1, TOP, [], map[]);
            DecOk(d) && d.code < d.range && DirectBit(d).Got? && DirectBit(d).dec.code == DirectBit(d).dec.range
  {
    forall c ensures ProbOk(map[], c) {
    }
  }

  // ----- decisions and the encoder -----

  datatype Decision = Model(cell: Cell, bit: int) | Direct(bit: int)

  predicate IsBit(b: int) {
    b == 0 || b == 1
  }

  predicate AreBits(ds: seq<Decision>) {
    forall i :: 0 <= i < |ds| ==> IsBit(ds[i].bit)
  }

  /** The decoder, once normalised, after the decision. */
  function Follow(d: Dec, x: Decision): Dec {
    if x.Model? then Take(d, x.cell, x.bit) else TakeDirect(d, x.bit)
  }

  /** How one adaptive bit is read: packets are read in the same way whatever it is. */
  type BitReader = (Dec, Cell) -> Read<int>

  /** The decision the decoder takes where the encoder took x. */
  function Decide(bit: BitReader, d: Dec, x: Decision): Read<int> {
    if x.Model? then bit(d, x.cell) else DirectBit(d)
  }

  /** Starting from d the decoder takes all these decisions, with the code below the range at each of them. */
  ghost predicate Reads(bit: BitReader, d: Dec, ds: seq<Decision>)
    decreases |ds|
  {
    && DecOk(d) && d.code < d.range
    && (ds != [] ==>
          && Decide(bit, d, ds[0]).Got? && Decide(bit, d, ds[0]).value == ds[0].bit
          && Reads(bit, Decide(bit, d, ds[0]).dec, ds[1..]))
  }

  function After(bit: BitReader, d: Dec, ds: seq<Decision>): Dec
    decreases |ds|
  {
    if ds == [] then d
    else match Decide(bit, d, ds[0])
      case Error => d
      case Got(e, _) => After(bit, e, ds[1..])
  }

  /** The probabilities after a decision, and after some. */
  function Learn(t: Tables, x: Decision): Tables {
    if x.Model? then AdaptAt(t, x.cell, x.bit) else t
  }

  function TablesAfter(t: Tables, ds: seq<Decision>): Tables
    decreases |ds|
  {
    if ds == [] then t else TablesAfter(Learn(t, ds[0]), ds[1..])
  }

  /** A number of n more bytes than the range it is relative to. */
  datatype Number = Number(value: int, bytes: nat)

  function Pow256(n: nat): (r: int)
    ensures r >= 1
  {
    if n == 0 then 1 else 256 * Pow256(n - 1)
  }

  /** The part of a range below the subrange of a decision, and the width of that subrange. */
  function Below(range: int, t: Tables, x: Decision): int {
    if x.bit == 0 then 0
    else if x.Model? then Bound(range, Prob(t, x.cell))
    else range / 2
  }

  function Width(range: int, t: Tables, x: Decision): int {
    if x.Direct? then range / 2
    else if x.bit == 0 then Bound(range, Prob(t, x.cell))
    else range - Bound(range, Prob(t, x.cell))
  }

  /** Range encoding: each decision narrows the interval to its part of it, a byte is added whenever
      the interval is narrower than TOP, and the result is the low end of the last interval. */
  function Encode(range: int, t: Tables, ds: seq<Decision>): Number
    requires LEASTRANGE <= range < W32 && ProbsOk(t) && AreBits(ds)
    decreases |ds|, W32 - range
  {
    if range < TOP then
      var x := Encode(range * 256, t, ds);
      Number(x.value, x.bytes + 1)
    else if ds == [] then
      Number(0, 0)
    else
      NarrowOk(range, t, ds[0]);
      var x := Encode(Width(range, t, ds[0]), Learn(t, ds[0]), ds[1..]);
      Number(Below(range, t, ds[0]) * Pow256(x.bytes) + x.value, x.bytes)
  }

  lemma NarrowOk(range: int, t: Tables, x: Decision)
    requires TOP <= range < W32 && ProbsOk(t) && IsBit(x.bit)
    ensures LEASTRANGE <= Width(range, t, x) < W32
    ensures 0 <= Below(range, t, x) && Below(range, t, x) + Width(range, t, x) <= range
    ensures ProbsOk(Learn(t, x))
  {
    if x.Model? {
      assert ProbOk(t, x.cell);
      BoundSplits(range, Prob(t, x.cell));
      AdaptKeepsProbs(t, x.cell, x.bit);
    }
  }

  /** The number lies in the interval it started from. */
  lemma {:induction false} EncodeInRange(range: int, t: Tables, ds: seq<Decision>)
    requires LEASTRANGE <= range < W32 && ProbsOk(t) && AreBits(ds)
    ensures var x := Encode(range, t, ds); 0 <= x.value < range * Pow256(x.bytes)
    decreases |ds|, W32 - range
  {
    if range < TOP {
      EncodeInRange(range * 256, t, ds);
      var x := Encode(range * 256, t, ds);
      ByteMore(range, Pow256(x.bytes));
    } else if ds != [] {
      NarrowOk(range, t, ds[0]);
      EncodeInRange(Width(range, t, ds[0]), Learn(t, ds[0]), ds[1..]);
      var x := Encode(Width(range, t, ds[0]), Learn(t, ds[0]), ds[1..]);
      Nested(Below(range, t, ds[0]), Width(range, t, ds[0]), range, x.value, Pow256(x.bytes));
    }
  }

  lemma ByteMore(range: int, p: int)
    ensures range * 256 * p == range * (256 * p)
  {
  }

  lemma Nested(a: int, w: int, range: int, v: int, p: int)
    requires 0 <= a && a + w <= range && 0 <= v < w * p && p >= 1
    ensures 0 <= a * p + v < range * p
  {
    assert a * p + w * p == (a + w) * p;
    MulMono(a + w, range, p);
    MulMono(0, a, p);
  }

  /** The value of bytes, most significant first. */
  function Value(s: seq<byte>): (r: nat) {
    if s == [] then 0 else Value(s[..|s| - 1]) * 256 + s[|s| - 1]
  }

  /** A number as n bytes. */
  function Bytes(v: nat, n: nat): (s: seq<byte>)
    ensures |s| == n
    decreases n
  {
    if n == 0 then [] else Bytes(v / 256, n - 1) + [v % 256]
  }

  /** The encoder's output: four bytes for the first range, after one that is always zero, and one
      for each byte added later. */
  function EncodeBytes(ds: seq<Decision>): seq<byte>
    requires AreBits(ds)
  {
    InitIsOk([0, 0, 0, 0, 0]);
    EncodeInRange(W32 - 1, map[], ds);
    var x := Encode(W32 - 1, map[], ds);
    Bytes(x.value, 5 + x.bytes)
  }

  // ----- decoding inverts encoding -----

  /** What the decoder has read and the bytes it will read next make up the number. */
  ghost predicate Holds(d: Dec, x: Number) {
    |d.rest| >= x.bytes && d.code * Pow256(x.bytes) + Value(d.rest[..x.bytes]) == x.value
  }

  lemma {:induction false} ValueBelow(s: seq<byte>)
    ensures Value(s) < Pow256(|s|)
  {
    if s != [] {
      ValueBelow(s[..|s| - 1]);
    }
  }

  lemma {:induction false} ValueFirst(s: seq<byte>)
    requires s != []
    ensures Value(s) == s[0] * Pow256(|s| - 1) + Value(s[1..])
  {
    var t := s[..|s| - 1];
    if |s| == 1 {
      assert Value(t) == 0;
    } else {
      ValueFirst(t);
      assert s[1..][..|s| - 2] == t[1..];
      assert Value(s[1..]) == Value(t[1..]) * 256 + s[|s| - 1];
      Shift(s[0], Pow256(|s| - 2), Value(t[1..]));
    }
  }

  lemma Shift(a: int, p: int, v: int)
    ensures (a * p + v) * 256 == a * (256 * p) + v * 256
  {
  }

  /** Normalising moves one byte of the number into the code. */
  lemma NormalizeHolds(d: Dec, x: Number)
    requires DecOk(d) && d.code < d.range < TOP && x.bytes > 0 && Holds(d, x)
    ensures Normalize(d).Got? && Holds(Normalize(d).dec, Number(x.value, x.bytes - 1))
    ensures Normalize(d).dec.code < Normalize(d).dec.range
    ensures Normalize(d).dec.rest == d.rest[1..]
  {
    var s, n := d.rest[..x.bytes], x.bytes - 1;
    ValueFirst(s);
    assert s[1..] == d.rest[1..][..n];
    OneMore(d.code, s[0], Pow256(n));
  }

  lemma OneMore(c: int, b: int, p: int)
    ensures c * (256 * p) + b * p == (c * 256 + b) * p
  {
  }

  /** The code is the number divided by the weight of the bytes still to come. */
  lemma CodeOfNumber(a: int, c: int, p: int, v: int, low: int, w: int)
    requires c * p + low == a * p + v && 0 <= low < p && 0 <= v < w * p
    ensures a <= c < a + w && (c - a) * p + low == v
  {
    assert (c - a) * p == c * p - a * p;
    assert (a + w) * p == a * p + w * p;
    if c < a {
      MulMono(c + 1, a, p);
    }
    if c >= a + w {
      MulMono(a + w, c, p);
    }
  }

  /** The decision at the front of an encoding is the one the decoder takes. */
  lemma DecideInverts(d: Dec, x: Decision, v: nat, n: nat)
    requires Normal(d) && IsBit(x.bit)
    requires Holds(d, Number(Below(d.range, d.tables, x) * Pow256(n) + v, n))
    requires v < Width(d.range, d.tables, x) * Pow256(n)
    ensures Decide(Bit, d, x) == Got(Follow(d, x), x.bit)
    ensures DecOk(Follow(d, x)) && Follow(d, x).code < Follow(d, x).range == Width(d.range, d.tables, x)
    ensures Follow(d, x).tables == Learn(d.tables, x) && Follow(d, x).rest == d.rest
    ensures Holds(Follow(d, x), Number(v, n))
  {
    var low, a, w := Value(d.rest[..n]), Below(d.range, d.tables, x), Width(d.range, d.tables, x);
    ValueBelow(d.rest[..n]);
    CodeOfNumber(a, d.code, Pow256(n), v, low, w);
    NarrowOk(d.range, d.tables, x);
    assert Normalize(d) == Got(d, ());
    assert Follow(d, x).code == d.code - a;
  }

  /** The main step: from any point of an encoding the decoder takes the encoder's decisions, ends with the
      encoder's probabilities, and has then read exactly the encoder's bytes once it normalises. */
  lemma {:induction false} ReadsEncoding(d: Dec, ds: seq<Decision>)
    requires DecOk(d) && d.code < d.range && AreBits(ds)
    requires Holds(d, Encode(d.range, d.tables, ds))
    ensures Reads(Bit, d, ds) && DecOk(After(Bit, d, ds))
    ensures After(Bit, d, ds).tables == TablesAfter(d.tables, ds)
    ensures var end := Normalize(After(Bit, d, ds));
            end.Got? && end.dec.rest == d.rest[Encode(d.range, d.tables, ds).bytes..]
    decreases |ds|, W32 - d.range
  {
    if d.range < TOP {
      NormalizeHolds(d, Encode(d.range, d.tables, ds));
      var n := Normalize(d).dec;
      ReadsEncoding(n, ds);
      ReadsNormalized(d, ds);
    } else if ds != [] {
      var x := ds[0];
      NarrowOk(d.range, d.tables, x);
      var t, w := Learn(d.tables, x), Width(d.range, d.tables, x);
      var e := Encode(w, t, ds[1..]);
      EncodeInRange(w, t, ds[1..]);
      DecideInverts(d, x, e.value, e.bytes);
      ReadsEncoding(Follow(d, x), ds[1..]);
    }
  }

  /** Deciding normalises first. */
  lemma ReadsNormalized(d: Dec, ds: seq<Decision>)
    requires DecOk(d) && d.code < d.range && Normalize(d).Got? && Reads(Bit, Normalize(d).dec, ds)
    ensures Reads(Bit, d, ds)
    ensures ds != [] ==> After(Bit, d, ds) == After(Bit, Normalize(d).dec, ds)
  {
    NormalizeRestores(d);
  }

  /** Decoding inverts encoding: whatever follows the encoder's bytes, the decoder takes the encoder's decisions. */
  lemma DecoderInvertsEncoder(ds: seq<Decision>, tail: seq<byte>)
    requires AreBits(ds)
    ensures Init(EncodeBytes(ds) + tail).Got?
    ensures var d := Init(EncodeBytes(ds) + tail).dec;
            && Reads(Bit, d, ds) && After(Bit, d, ds).tables == TablesAfter(map[], ds)
            && Normalize(After(Bit, d, ds)).Got? && Normalize(After(Bit, d, ds)).dec.rest == tail
  {
    InitIsOk([0, 0, 0, 0, 0]);
    var x := Encode(W32 - 1, map[], ds);
    EncodeInRange(W32 - 1, map[], ds);
    var s := EncodeBytes(ds);
    InitHolds(x, tail);
    var d := Init(s + tail).dec;
    InitIsOk(s + tail);
    ReadsEncoding(d, ds);
    assert d.rest[x.bytes..] == tail;
  }

  lemma {:induction false} BytesValue(v: nat, n: nat)
    requires v < Pow256(n)
    ensures Value(Bytes(v, n)) == v
  {
    if n > 0 {
      BytesValue(v / 256, n - 1);
      assert Bytes(v, n)[..n - 1] == Bytes(v / 256, n - 1);
    }
  }

  /** The first five bytes of a number and the others. */
  lemma {:induction false} BytesSplit(v: nat, n: nat)
    ensures Bytes(v, 5 + n)[..5] == Bytes(v / Pow256(n), 5)
    ensures Bytes(v, 5 + n)[5..] == Bytes(v, n)
  {
    if n > 0 {
      BytesSplit(v / 256, n - 1);
      DivTwice(v, Pow256(n - 1));
      var t := Bytes(v / 256, 5 + n - 1);
      assert Bytes(v, 5 + n) == t + [v % 256];
      assert (t + [v % 256])[..5] == t[..5];
      assert (t + [v % 256])[5..] == t[5..] + [v % 256];
    } else {
      assert Pow256(0) == 1 && v / 1 == v;
    }
  }

  lemma DivTwice(v: nat, p: int)
    requires p >= 1
    ensures v / 256 / p == v / (256 * p)
  {
    var q, r := v / 256 / p, (v / 256) % p;
    assert v / 256 == q * p + r;
    assert v == (q * p + r) * 256 + v % 256;
    assert (q * p + r) * 256 == q * (256 * p) + r * 256;
    var m := 256 * p;
    Sizes.SameQuotient(m, q, r * 256 + v % 256, v / m, v % m);
  }

  lemma InitHolds(x: Number, tail: seq<byte>)
    requires 0 <= x.value < (W32 - 1) * Pow256(x.bytes)
    ensures var r := Init(Bytes(x.value, 5 + x.bytes) + tail);
            r.Got? && Holds(r.dec, x) && r.dec.code < r.dec.range == W32 - 1
            && r.dec.rest == Bytes(x.value, 5 + x.bytes)[5..] + tail
  {
    var s, p := Bytes(x.value, 5 + x.bytes), Pow256(x.bytes);
    var high, low := x.value / p, x.value % p;
    BytesSplit(x.value, x.bytes);
    HighPart(x.value, p, W32 - 1);
    FirstFive(high);
    var d := Init(s + tail).dec;
    var f := s[..5];
    assert (s + tail)[1] == f[1] && (s + tail)[2] == f[2] && (s + tail)[3] == f[3] && (s + tail)[4] == f[4];
    assert (s + tail)[5..] == s[5..] + tail;
    assert d.rest[..x.bytes] == s[5..];
    LowBytes(x.value, x.bytes);
  }

  lemma HighPart(v: nat, p: int, m: int)
    requires p >= 1 && v < m * p
    ensures 0 <= v / p < m
  {
    if v / p >= m {
      MulMono(m, v / p, p);
    }
  }

  lemma FirstFive(v: nat)
    requires v < W32
    ensures var s := Bytes(v, 5); s[0] == 0 && Word(s[1], s[2], s[3], s[4]) == v
  {
    var a, b, c := v / 256, v / 256 / 256, v / 256 / 256 / 256;
    assert Bytes(v, 5) == Bytes(a, 4) + [v % 256];
    assert Bytes(a, 4) == Bytes(b, 3) + [a % 256];
    assert Bytes(b, 3) == Bytes(c, 2) + [b % 256];
    assert Bytes(c, 2) == Bytes(c / 256, 1) + [c % 256];
  }

  /** The low bytes hold the number modulo their weight. */
  lemma {:induction false} LowBytes(v: nat, n: nat)
    ensures v / Pow256(n) * Pow256(n) + Value(Bytes(v, n)) == v
  {
    if n > 0 {
      LowBytes(v / 256, n - 1);
      assert Bytes(v, n)[..n - 1] == Bytes(v / 256, n - 1);
      DivTwice(v, Pow256(n - 1));
      Shift(v / 256 / Pow256(n - 1), Pow256(n - 1), Value(Bytes(v / 256, n - 1)));
    } else {
      assert v / 1 == v;
    }
  }
}
