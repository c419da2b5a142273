/** The packets of an LZMA stream: how the decoder reads one, and the decisions that encode it. */
module LzmaPackets {
  import opened Words
  import opened LzmaTables
  import opened LzmaRange

  /** A literal byte, a copy of one byte, a copy from one of the four remembered distances, or a copy
      from a new distance; a match of distance ENDMARK is the end marker. Distances count from zero. */
  datatype Packet =
    | Lit(b: int)
    | ShortRep
    | Rep(k: int, len: int)
    | Match(distance: int, len: int)

  const ENDMARK: int := W32 - 1

  predicate PacketOk(p: Packet) {
    match p
    case Lit(b) => 0 <= b < 256
    case ShortRep => true
    case Rep(k, len) => 0 <= k < 4 && 2 <= len < 274
    case Match(distance, len) => 0 <= distance < W32 && 2 <= len < 274
  }

  /** What the choice of tables depends on: the state, the low bits of the position, the literal
      context, and the byte a literal is matched against. */
  datatype Context = Context(state: int, posState: int, literal: int, matchByte: int)

  predicate ContextOk(x: Context, contexts: int) {
    0 <= x.state < NUMSTATES && 0 <= x.posState < 16 && 0 <= x.literal < contexts && 0 <= x.matchByte < 256
  }

  // ----- reading -----

  ghost predicate BitIs(bit: BitReader, d: Dec, c: Cell) {
    bit(d, c) == Bit(d, c)
  }

  /** The range decoder's way. */
  ghost predicate IsCoder(bit: BitReader) {
    forall d, c {:trigger BitIs(bit, d, c)} :: BitIs(bit, d, c)
  }

  ghost predicate BitOk(bit: BitReader, d: Dec, c: Cell) {
    DecOk(d) && bit(d, c).Got? ==> DecOk(bit(d, c).dec) && IsBit(bit(d, c).value)
  }

  /** It keeps the decoder within its bounds. */
  ghost predicate Reliable(bit: BitReader) {
    forall d, c {:trigger BitOk(bit, d, c)} :: BitOk(bit, d, c)
  }

  lemma CoderIsReliable(bit: BitReader)
    requires IsCoder(bit)
    ensures Reliable(bit)
  {
    forall d, c ensures BitOk(bit, d, c) {
      assert BitIs(bit, d, c);
      if DecOk(d) && Bit(d, c).Got? {
        BitKeepsOk(d, c);
      }
    }
  }

  /** RangeDecoderBitTreeDecode, from node m with n levels to go. */
  function Tree(bit: BitReader, d: Dec, t: Table, n: nat, m: int): Read<int>
    decreases n, d
  {
    if n == 0 then Got(d, m)
    else match bit(d, Cell(t, m))
      case Error => Error
      case Got(e, b) => Tree(bit, e, t, n - 1, 2 * m + b)
  }

  /** A whole tree: `res -= 1 << numLevels` takes off the bit the walk starts from. */
  function ReadTree(bit: BitReader, d: Dec, t: Table): Read<int> {
    Offset(Tree(bit, d, t, Levels(t), 1), -Pow2(Levels(t)))
  }

  function Offset(r: Read<int>, k: int): Read<int> {
    match r
    case Error => Error
    case Got(d, v) => Got(d, v + k)
  }

  /** The same tree with the least significant bit first: bits of weight i and up are added to acc. */
  function Reverse(bit: BitReader, d: Dec, t: Table, n: nat, m: int, i: int, acc: int): Read<int>
    decreases n, d
  {
    if n == 0 then Got(d, acc)
    else match bit(d, Cell(t, m))
      case Error => Error
      case Got(e, b) => Reverse(bit, e, t, n - 1, 2 * m + b, 2 * i, acc + b * i)
  }

  /** n direct bits after those in v. */
  function Directs(d: Dec, n: nat, v: int): Read<int>
    decreases n, d
  {
    if n == 0 then Got(d, v)
    else match DirectBit(d)
      case Error => Error
      case Got(e, b) => Directs(e, n - 1, 2 * v + b)
  }

  /** The top bit of the match byte still to be compared. */
  function MatchBit(matchByte: int): int {
    matchByte / 128 % 2
  }

  /** A literal in the making: its bits so far after a one, the match byte, and whether they agree so far. */
  datatype Partial = Partial(sym: int, matchByte: int, matched: bool)

  /** The cell of the next literal bit: in one of two further tables while the literal agrees with the match byte. */
  function LiteralCell(context: int, s: Partial): Cell {
    Cell(Literal(context), if s.matched then 256 + 256 * MatchBit(s.matchByte) + s.sym else s.sym)
  }

  function NextPartial(s: Partial, b: int): Partial {
    Partial(2 * s.sym + b, 2 * s.matchByte, s.matched && b == MatchBit(s.matchByte))
  }

  /** The bits of a literal after those in s. */
  function LiteralBits(bit: BitReader, d: Dec, context: int, n: nat, s: Partial): Read<int>
    decreases n, d
  {
    if n == 0 then Got(d, s.sym)
    else match bit(d, LiteralCell(context, s))
      case Error => Error
      case Got(e, b) => LiteralBits(bit, e, context, n - 1, NextPartial(s, b))
  }

  /** A literal is matched against the byte at the last distance when it follows a copy. */
  function NewPartial(x: Context): Partial {
    Partial(1, x.matchByte, x.state >= 7)
  }

  function ReadLiteral(bit: BitReader, d: Dec, x: Context): Read<Packet> {
    match LiteralBits(bit, d, x.literal, Levels(Literal(x.literal)), NewPartial(x))
    case Error => Error
    case Got(e, sym) => Got(e, Lit(sym % 256))
  }

  /** A length, counted from the shortest. */
  function ReadLen(bit: BitReader, d: Dec, rep: bool, posState: int): Read<int> {
    match bit(d, Cell(LenChoice(rep), 0))
    case Error => Error
    case Got(e, b) => if b == 0 then ReadTree(bit, e, LenLow(rep, posState)) else ReadLongLen(bit, e, rep, posState)
  }

  function ReadLongLen(bit: BitReader, d: Dec, rep: bool, posState: int): Read<int> {
    match bit(d, Cell(LenChoice2(rep), 0))
    case Error => Error
    case Got(e, b) =>
      if b == 0 then Offset(ReadTree(bit, e, LenMid(rep, posState)), 8) else Offset(ReadTree(bit, e, LenHigh(rep)), 16)
  }

  function LenState(len: int): int {
    if len < 4 then len else 3
  }

  /** A distance, counted from zero. */
  function ReadDistance(bit: BitReader, d: Dec, lenState: int): Read<int> {
    match ReadTree(bit, d, PosSlot(lenState))
    case Error => Error
    case Got(e, slot) => ReadSlot(bit, e, slot)
  }

  /** The distance within a slot. */
  function ReadSlot(bit: BitReader, e: Dec, slot: int): Read<int> {
    if slot < 4 then Got(e, slot)
    else if slot < 14 then Reverse(bit, e, SpecPos(slot), DirectBits(slot), 1, 1, SlotBase(slot))
    else
      match Directs(e, DirectBits(slot) - 4, 2 + slot % 2)
      case Error => Error
      case Got(f, v) => Reverse(bit, f, Align, AlignBits(slot), 1, 1, 16 * v)
  }

  function ReadMatch(bit: BitReader, d: Dec, x: Context): Read<Packet> {
    match ReadLen(bit, d, false, x.posState)
    case Error => Error
    case Got(e, len) =>
      match ReadDistance(bit, e, LenState(len))
      case Error => Error
      case Got(f, v) => Got(f, Match(v, len + 2))
  }

  function ReadRepLen(bit: BitReader, d: Dec, x: Context, k: int): Read<Packet> {
    match ReadLen(bit, d, true, x.posState)
    case Error => Error
    case Got(e, len) => Got(e, Rep(k, len + 2))
  }

  function ReadRep(bit: BitReader, d: Dec, x: Context): Read<Packet> {
    match bit(d, Cell(IsRepG0, x.state))
    case Error => Error
    case Got(e, b) => if b == 0 then ReadRep0(bit, e, x) else ReadOldRep(bit, e, x)
  }

  function ReadRep0(bit: BitReader, d: Dec, x: Context): Read<Packet> {
    match bit(d, Cell(IsRep0Long, 16 * x.state + x.posState))
    case Error => Error
    case Got(e, b) => if b == 0 then Got(e, ShortRep) else ReadRepLen(bit, e, x, 0)
  }

  function ReadOldRep(bit: BitReader, d: Dec, x: Context): Read<Packet> {
    match bit(d, Cell(IsRepG1, x.state))
    case Error => Error
    case Got(e, b) => if b == 0 then ReadRepLen(bit, e, x, 1) else ReadRep23(bit, e, x)
  }

  function ReadRep23(bit: BitReader, d: Dec, x: Context): Read<Packet> {
    match bit(d, Cell(IsRepG2, x.state))
    case Error => Error
    case Got(e, b) => ReadRepLen(bit, e, x, if b == 0 then 2 else 3)
  }

  function ReadCopy(bit: BitReader, d: Dec, x: Context): Read<Packet> {
    match bit(d, Cell(IsRep, x.state))
    case Error => Error
    case Got(e, b) => if b == 0 then ReadMatch(bit, e, x) else ReadRep(bit, e, x)
  }

  /** One packet. */
  function ReadPacket(bit: BitReader, d: Dec, x: Context): Read<Packet> {
    match bit(d, Cell(IsMatch, 16 * x.state + x.posState))
    case Error => Error
    case Got(e, b) => if b == 0 then ReadLiteral(bit, e, x) else ReadCopy(bit, e, x)
  }

  // ----- whatever the input, what is read is a packet -----

  lemma {:induction false} TreeOk(bit: BitReader, d: Dec, t: Table, n: nat, m: int)
    requires Reliable(bit) && DecOk(d) && Tree(bit, d, t, n, m).Got?
    ensures DecOk(Tree(bit, d, t, n, m).dec) && m * Pow2(n) <= Tree(bit, d, t, n, m).value < (m + 1) * Pow2(n)
    decreases n
  {
    if n > 0 {
      assert BitOk(bit, d, Cell(t, m));
      var e, b := bit(d, Cell(t, m)).dec, bit(d, Cell(t, m)).value;
      TreeOk(bit, e, t, n - 1, 2 * m + b);
      Halves(m, b, Pow2(n - 1));
    }
  }

  lemma ReadTreeOk(bit: BitReader, d: Dec, t: Table)
    requires Reliable(bit) && DecOk(d) && ReadTree(bit, d, t).Got?
    ensures DecOk(ReadTree(bit, d, t).dec) && 0 <= ReadTree(bit, d, t).value < Pow2(Levels(t))
  {
    TreeOk(bit, d, t, Levels(t), 1);
  }

  lemma Halves(m: int, b: int, p: int)
    requires 0 <= b <= 1 && p >= 1
    ensures m * (2 * p) <= (2 * m + b) * p && (2 * m + b + 1) * p <= (m + 1) * (2 * p)
  {
    assert (2 * m + b) * p == m * (2 * p) + b * p;
    assert (2 * m + b + 1) * p == m * (2 * p) + b * p + p;
    assert (m + 1) * (2 * p) == m * (2 * p) + 2 * p;
  }

  lemma {:induction false} ReverseOk(bit: BitReader, d: Dec, t: Table, n: nat, m: int, i: int, acc: int)
    requires Reliable(bit) && DecOk(d) && Reverse(bit, d, t, n, m, i, acc).Got? && i >= 1
    ensures DecOk(Reverse(bit, d, t, n, m, i, acc).dec)
    ensures acc <= Reverse(bit, d, t, n, m, i, acc).value <= acc + i * (Pow2(n) - 1)
    decreases n
  {
    if n > 0 {
      assert BitOk(bit, d, Cell(t, m));
      var e, b := bit(d, Cell(t, m)).dec, bit(d, Cell(t, m)).value;
      ReverseOk(bit, e, t, n - 1, 2 * m + b, 2 * i, acc + b * i);
      Weights(i, 1, Pow2(n - 1) - 1);
    }
  }

  lemma {:induction false} DirectsOk(d: Dec, n: nat, v: int)
    requires DecOk(d) && Directs(d, n, v).Got?
    ensures DecOk(Directs(d, n, v).dec) && v * Pow2(n) <= Directs(d, n, v).value < (v + 1) * Pow2(n)
    decreases n
  {
    if n > 0 {
      DirectBitKeepsOk(d);
      var e, b := DirectBit(d).dec, DirectBit(d).value;
      DirectsOk(e, n - 1, 2 * v + b);
      Halves(v, b, Pow2(n - 1));
    }
  }

  lemma {:induction false} LiteralBitsOk(bit: BitReader, d: Dec, context: int, n: nat, s: Partial)
    requires Reliable(bit) && DecOk(d) && LiteralBits(bit, d, context, n, s).Got?
    ensures DecOk(LiteralBits(bit, d, context, n, s).dec)
    decreases n
  {
    if n > 0 {
      var c := LiteralCell(context, s);
      assert BitOk(bit, d, c);
      LiteralBitsOk(bit, bit(d, c).dec, context, n - 1, NextPartial(s, bit(d, c).value));
    }
  }

  lemma ReadLenOk(bit: BitReader, d: Dec, rep: bool, posState: int)
    requires Reliable(bit) && DecOk(d) && ReadLen(bit, d, rep, posState).Got?
    ensures DecOk(ReadLen(bit, d, rep, posState).dec) && 0 <= ReadLen(bit, d, rep, posState).value < 272
  {
    SmallPowers();
    assert BitOk(bit, d, Cell(LenChoice(rep), 0));
    var e := bit(d, Cell(LenChoice(rep), 0)).dec;
    if bit(d, Cell(LenChoice(rep), 0)).value == 0 {
      ReadTreeOk(bit, e, LenLow(rep, posState));
    } else {
      assert BitOk(bit, e, Cell(LenChoice2(rep), 0));
      var f := bit(e, Cell(LenChoice2(rep), 0)).dec;
      if bit(e, Cell(LenChoice2(rep), 0)).value == 0 {
        ReadTreeOk(bit, f, LenMid(rep, posState));
      } else {
        ReadTreeOk(bit, f, LenHigh(rep));
      }
    }
  }

  /** Slots follow one another, and the last ends where 32 bits do. */
  lemma {:induction false} SlotEnd(slot: int)
    requires 0 <= slot < 64
    ensures 0 <= SlotBase(slot) && SlotBase(slot) + Pow2(DirectBits(slot)) <= W32
  {
    if slot >= 4 {
      SlotBaseIs(slot);
      FourTimes(2 + slot % 2, DirectBits(slot));
    }
  }

  lemma {:induction false} FourTimes(x: int, n: nat)
    requires 0 <= x <= 3 && n <= 30
    ensures 0 <= x * Pow2(n) && x * Pow2(n) + Pow2(n) <= W32
  {
    Pow2Grows(n, 30);
    WordPower();
    MulMono(x, 3, Pow2(n));
    MulMono(0, x, Pow2(n));
    assert Pow2(32) == 4 * Pow2(30);
  }

  lemma {:induction false} ReadSlotOk(bit: BitReader, e: Dec, slot: int)
    requires Reliable(bit) && DecOk(e) && 0 <= slot < 64 && ReadSlot(bit, e, slot).Got?
    ensures DecOk(ReadSlot(bit, e, slot).dec)
    ensures SlotBase(slot) <= ReadSlot(bit, e, slot).value < SlotBase(slot) + Pow2(DirectBits(slot))
  {
    if slot < 4 {
    } else if slot < 14 {
      ReverseOk(bit, e, SpecPos(slot), DirectBits(slot), 1, 1, SlotBase(slot));
    } else {
      var n := DirectBits(slot) - 4;
      SlotBaseIs(slot);
      DirectsOk(e, n, 2 + slot % 2);
      var f, v := Directs(e, n, 2 + slot % 2).dec, Directs(e, n, 2 + slot % 2).value;
      ReverseOk(bit, f, Align, AlignBits(slot), 1, 1, 16 * v);
      SmallPowers();
      Pow2Sum(n, 4);
      Sixteenths(2 + slot % 2, v, Pow2(n));
    }
  }

  lemma Sixteenths(h: int, v: int, p: int)
    requires h * p <= v < (h + 1) * p
    ensures h * (p * 16) <= 16 * v && 16 * v + 15 < h * (p * 16) + p * 16
  {
    assert h * (p * 16) == 16 * (h * p);
    assert (h + 1) * p == h * p + p;
  }

  lemma {:induction false} ReadDistanceOk(bit: BitReader, d: Dec, lenState: int)
    requires Reliable(bit) && DecOk(d) && ReadDistance(bit, d, lenState).Got?
    ensures DecOk(ReadDistance(bit, d, lenState).dec) && 0 <= ReadDistance(bit, d, lenState).value < W32
  {
    SmallPowers();
    ReadTreeOk(bit, d, PosSlot(lenState));
    var r := ReadTree(bit, d, PosSlot(lenState));
    ReadSlotOk(bit, r.dec, r.value);
    SlotEnd(r.value);
  }

  lemma ReadRepLenOk(bit: BitReader, d: Dec, x: Context, k: int)
    requires Reliable(bit) && DecOk(d) && ReadRepLen(bit, d, x, k).Got? && 0 <= k < 4
    ensures DecOk(ReadRepLen(bit, d, x, k).dec) && PacketOk(ReadRepLen(bit, d, x, k).value)
  {
    ReadLenOk(bit, d, true, x.posState);
  }

  lemma ReadRepOk(bit: BitReader, d: Dec, x: Context)
    requires Reliable(bit) && DecOk(d) && ReadRep(bit, d, x).Got?
    ensures DecOk(ReadRep(bit, d, x).dec) && PacketOk(ReadRep(bit, d, x).value)
  {
    var c := Cell(IsRepG0, x.state);
    assert BitOk(bit, d, c);
    if bit(d, c).value == 0 {
      ReadRep0Ok(bit, bit(d, c).dec, x);
    } else {
      ReadOldRepOk(bit, bit(d, c).dec, x);
    }
  }

  lemma ReadRep0Ok(bit: BitReader, d: Dec, x: Context)
    requires Reliable(bit) && DecOk(d) && ReadRep0(bit, d, x).Got?
    ensures DecOk(ReadRep0(bit, d, x).dec) && PacketOk(ReadRep0(bit, d, x).value)
  {
    var c := Cell(IsRep0Long, 16 * x.state + x.posState);
    assert BitOk(bit, d, c);
    match bit(d, c)
    case Error =>
    case Got(e, b) =>
      if b != 0 {
        ReadRepLenOk(bit, e, x, 0);
      }
  }

  lemma ReadOldRepOk(bit: BitReader, d: Dec, x: Context)
    requires Reliable(bit) && DecOk(d) && ReadOldRep(bit, d, x).Got?
    ensures DecOk(ReadOldRep(bit, d, x).dec) && PacketOk(ReadOldRep(bit, d, x).value)
  {
    var c := Cell(IsRepG1, x.state);
    assert BitOk(bit, d, c);
    if bit(d, c).value == 0 {
      ReadRepLenOk(bit, bit(d, c).dec, x, 1);
    } else {
      ReadRep23Ok(bit, bit(d, c).dec, x);
    }
  }

  lemma ReadRep23Ok(bit: BitReader, d: Dec, x: Context)
    requires Reliable(bit) && DecOk(d) && ReadRep23(bit, d, x).Got?
    ensures DecOk(ReadRep23(bit, d, x).dec) && PacketOk(ReadRep23(bit, d, x).value)
  {
    var c := Cell(IsRepG2, x.state);
    assert BitOk(bit, d, c);
    ReadRepLenOk(bit, bit(d, c).dec, x, if bit(d, c).value == 0 then 2 else 3);
  }

  lemma ReadLiteralOk(bit: BitReader, d: Dec, x: Context)
    requires Reliable(bit) && DecOk(d) && ReadLiteral(bit, d, x).Got?
    ensures DecOk(ReadLiteral(bit, d, x).dec) && PacketOk(ReadLiteral(bit, d, x).value)
  {
    LiteralBitsOk(bit, d, x.literal, Levels(Literal(x.literal)), NewPartial(x));
  }

  lemma ReadMatchOk(bit: BitReader, d: Dec, x: Context)
    requires Reliable(bit) && DecOk(d) && ReadMatch(bit, d, x).Got?
    ensures DecOk(ReadMatch(bit, d, x).dec) && PacketOk(ReadMatch(bit, d, x).value)
  {
    ReadLenOk(bit, d, false, x.posState);
    var r := ReadLen(bit, d, false, x.posState);
    ReadDistanceOk(bit, r.dec, LenState(r.value));
  }

  lemma ReadCopyOk(bit: BitReader, d: Dec, x: Context)
    requires Reliable(bit) && DecOk(d) && ReadCopy(bit, d, x).Got?
    ensures DecOk(ReadCopy(bit, d, x).dec) && PacketOk(ReadCopy(bit, d, x).value)
  {
    var c := Cell(IsRep, x.state);
    assert BitOk(bit, d, c);
    if bit(d, c).value == 0 {
      ReadMatchOk(bit, bit(d, c).dec, x);
    } else {
      ReadRepOk(bit, bit(d, c).dec, x);
    }
  }

  /** Whatever the input, what is read is a packet, and the decoder stays within its bounds. */
  lemma ReadPacketOk(bit: BitReader, d: Dec, x: Context)
    requires Reliable(bit) && DecOk(d) && ReadPacket(bit, d, x).Got?
    ensures DecOk(ReadPacket(bit, d, x).dec) && PacketOk(ReadPacket(bit, d, x).value)
  {
    var c := Cell(IsMatch, 16 * x.state + x.posState);
    assert BitOk(bit, d, c);
    if bit(d, c).value == 0 {
      ReadLiteralOk(bit, bit(d, c).dec, x);
    } else {
      ReadCopyOk(bit, bit(d, c).dec, x);
    }
  }

  // ----- encoding -----

  /** The top bit of an n-bit number, and the bits below it. */
  function Top(v: int, n: nat): int
    decreases n, v
  {
    if n <= 1 then v else Top(v / 2, n - 1)
  }

  function Low(v: int, n: nat): int
    decreases n, v
  {
    if n <= 1 then 0 else 2 * Low(v / 2, n - 1) + v % 2
  }

  lemma {:induction false} TopAndLow(v: int, n: nat)
    requires n >= 1 && 0 <= v < Pow2(n)
    ensures IsBit(Top(v, n)) && 0 <= Low(v, n) < Pow2(n - 1) && v == Top(v, n) * Pow2(n - 1) + Low(v, n)
  {
    if n > 1 {
      TopAndLow(v / 2, n - 1);
      var b, p := Top(v / 2, n - 1), Pow2(n - 2);
      assert 2 * (b * p) == b * (2 * p);
    }
  }

  /** The number h followed by n bits of v, and what it amounts to. */
  function Append(h: int, n: nat, v: int): int
    decreases n, v
  {
    if n == 0 then h else Append(2 * h + Top(v, n), n - 1, Low(v, n))
  }

  lemma {:induction false} AppendIs(h: int, n: nat, v: int)
    requires 0 <= v < Pow2(n)
    ensures Append(h, n, v) == h * Pow2(n) + v
    decreases n
  {
    if n > 0 {
      TopAndLow(v, n);
      AppendIs(2 * h + Top(v, n), n - 1, Low(v, n));
      Twice(h, Top(v, n), Pow2(n - 1));
    }
  }

  lemma Twice(h: int, b: int, p: int)
    ensures (2 * h + b) * p == h * (2 * p) + b * p
  {
  }

  /** acc plus n bits of v, least significant first, of weight i and up. */
  function AddBits(acc: int, i: int, n: nat, v: int): int
    decreases n, v
  {
    if n == 0 then acc else AddBits(acc + v % 2 * i, 2 * i, n - 1, v / 2)
  }

  lemma {:induction false} AddBitsIs(acc: int, i: int, n: nat, v: int)
    requires 0 <= v < Pow2(n)
    ensures AddBits(acc, i, n, v) == acc + i * v
    decreases n
  {
    if n > 0 {
      AddBitsIs(acc + v % 2 * i, 2 * i, n - 1, v / 2);
      Weights(i, v % 2, v / 2);
    }
  }

  lemma Weights(i: int, b: int, r: int)
    ensures b * i + 2 * i * r == i * (2 * r + b)
  {
  }

  function TreeDecs(t: Table, n: nat, m: int, v: int): seq<Decision>
    decreases n, v
  {
    if n == 0 then []
    else [Model(Cell(t, m), Top(v, n))] + TreeDecs(t, n - 1, 2 * m + Top(v, n), Low(v, n))
  }

  function TreeEnc(t: Table, v: int): seq<Decision> {
    TreeDecs(t, Levels(t), 1, v)
  }

  function ReverseDecs(t: Table, n: nat, m: int, v: int): seq<Decision>
    decreases n, v
  {
    if n == 0 then []
    else [Model(Cell(t, m), v % 2)] + ReverseDecs(t, n - 1, 2 * m + v % 2, v / 2)
  }

  function DirectDecs(n: nat, v: int): seq<Decision>
    decreases n, v
  {
    if n == 0 then []
    else [Direct(Top(v, n))] + DirectDecs(n - 1, Low(v, n))
  }

  function LiteralDecs(context: int, n: nat, s: Partial, v: int): seq<Decision>
    decreases n, v
  {
    if n == 0 then []
    else [Model(LiteralCell(context, s), Top(v, n))] + LiteralDecs(context, n - 1, NextPartial(s, Top(v, n)), Low(v, n))
  }

  function LiteralEnc(x: Context, b: int): seq<Decision> {
    LiteralDecs(x.literal, Levels(Literal(x.literal)), NewPartial(x), b)
  }

  function LenDecs(rep: bool, posState: int, len: int): seq<Decision> {
    if len < 8 then [Model(Cell(LenChoice(rep), 0), 0)] + TreeEnc(LenLow(rep, posState), len)
    else [Model(Cell(LenChoice(rep), 0), 1)] + LongLenDecs(rep, posState, len)
  }

  function LongLenDecs(rep: bool, posState: int, len: int): seq<Decision> {
    if len < 16 then [Model(Cell(LenChoice2(rep), 0), 0)] + TreeEnc(LenMid(rep, posState), len - 8)
    else [Model(Cell(LenChoice2(rep), 0), 1)] + TreeEnc(LenHigh(rep), len - 16)
  }

  /** The slot of a distance: twice the position of its top bit, plus the bit after that. */
  function SlotOf(v: int): int {
    if v < 4 then v else SlotOf(v / 2) + 2
  }

  function SlotDecs(slot: int, v: int): seq<Decision> {
    if slot < 4 then []
    else if slot < 14 then ReverseDecs(SpecPos(slot), DirectBits(slot), 1, v)
    else DirectDecs(DirectBits(slot) - 4, v / 16) + ReverseDecs(Align, AlignBits(slot), 1, v % 16)
  }

  function DistanceDecs(lenState: int, v: int): seq<Decision> {
    TreeEnc(PosSlot(lenState), SlotOf(v)) + SlotDecs(SlotOf(v), v - SlotBase(SlotOf(v)))
  }

  /** The decisions that encode a packet. */
  function PacketDecs(x: Context, p: Packet): seq<Decision> {
    if p.Lit? then [Model(Cell(IsMatch, 16 * x.state + x.posState), 0)] + LiteralEnc(x, p.b)
    else [Model(Cell(IsMatch, 16 * x.state + x.posState), 1)] + CopyEnc(x, p)
  }

  function CopyEnc(x: Context, p: Packet): seq<Decision> {
    match p
    case Match(distance, len) => [Model(Cell(IsRep, x.state), 0)] + MatchEnc(x, distance, len - 2)
    case Rep(k, len) => [Model(Cell(IsRep, x.state), 1)] + RepEnc(x, k, len - 2)
    case _ => [Model(Cell(IsRep, x.state), 1)] + ShortEnc(x)
  }

  function MatchEnc(x: Context, distance: int, len: int): seq<Decision> {
    LenDecs(false, x.posState, len) + DistanceDecs(LenState(len), distance)
  }

  function ShortEnc(x: Context): seq<Decision> {
    [Model(Cell(IsRepG0, x.state), 0)] + ([Model(Cell(IsRep0Long, 16 * x.state + x.posState), 0)] + [])
  }

  /** The choice of remembered distance k, and the length. */
  function RepEnc(x: Context, k: int, len: int): seq<Decision> {
    if k == 0 then
      [Model(Cell(IsRepG0, x.state), 0)]
      + ([Model(Cell(IsRep0Long, 16 * x.state + x.posState), 1)] + LenDecs(true, x.posState, len))
    else [Model(Cell(IsRepG0, x.state), 1)] + OldRepEnc(x, k, len)
  }

  function OldRepEnc(x: Context, k: int, len: int): seq<Decision> {
    if k == 1 then [Model(Cell(IsRepG1, x.state), 0)] + LenDecs(true, x.posState, len)
    else
      [Model(Cell(IsRepG1, x.state), 1)]
      + ([Model(Cell(IsRepG2, x.state), if k == 2 then 0 else 1)] + LenDecs(true, x.posState, len))
  }

  // ----- the decisions of a packet are bits -----

  lemma {:induction false} TreeBits(t: Table, n: nat, m: int, v: int)
    requires 0 <= v < Pow2(n)
    ensures AreBits(TreeDecs(t, n, m, v))
    decreases n
  {
    if n > 0 {
      TopAndLow(v, n);
      TreeBits(t, n - 1, 2 * m + Top(v, n), Low(v, n));
    }
  }

  lemma {:induction false} ReverseBits(t: Table, n: nat, m: int, v: int)
    ensures AreBits(ReverseDecs(t, n, m, v))
    decreases n
  {
    if n > 0 {
      ReverseBits(t, n - 1, 2 * m + v % 2, v / 2);
    }
  }

  lemma {:induction false} DirectsBits(n: nat, v: int)
    requires 0 <= v < Pow2(n)
    ensures AreBits(DirectDecs(n, v))
    decreases n
  {
    if n > 0 {
      TopAndLow(v, n);
      DirectsBits(n - 1, Low(v, n));
    }
  }

  lemma {:induction false} LiteralDecsBits(context: int, n: nat, s: Partial, v: int)
    requires 0 <= v < Pow2(n)
    ensures AreBits(LiteralDecs(context, n, s, v))
    decreases n
  {
    if n > 0 {
      TopAndLow(v, n);
      LiteralDecsBits(context, n - 1, NextPartial(s, Top(v, n)), Low(v, n));
    }
  }

  lemma LenBits(rep: bool, posState: int, len: int)
    requires 0 <= len < 272
    ensures AreBits(LenDecs(rep, posState, len))
  {
    SmallPowers();
    if len < 8 {
      TreeBits(LenLow(rep, posState), Levels(LenLow(rep, posState)), 1, len);
    } else if len < 16 {
      TreeBits(LenMid(rep, posState), Levels(LenMid(rep, posState)), 1, len - 8);
    } else {
      TreeBits(LenHigh(rep), Levels(LenHigh(rep)), 1, len - 16);
    }
  }

  lemma SlotBits(slot: int, v: int)
    requires 0 <= slot && 0 <= v < Pow2(DirectBits(slot))
    ensures AreBits(SlotDecs(slot, v))
  {
    if slot < 4 {
    } else if slot < 14 {
      ReverseBits(SpecPos(slot), DirectBits(slot), 1, v);
    } else {
      SmallPowers();
      Pow2Sum(DirectBits(slot) - 4, 4);
      DirectsBits(DirectBits(slot) - 4, v / 16);
      ReverseBits(Align, AlignBits(slot), 1, v % 16);
    }
  }

  lemma DistanceBits(lenState: int, v: int)
    requires 0 <= v < W32
    ensures AreBits(DistanceDecs(lenState, v))
  {
    var slot := SlotOf(v);
    SlotOfDistance(v);
    TreeBits(PosSlot(lenState), Levels(PosSlot(lenState)), 1, slot);
    SlotBits(slot, v - SlotBase(slot));
  }

  lemma PacketBits(x: Context, p: Packet)
    requires PacketOk(p)
    ensures AreBits(PacketDecs(x, p))
  {
    match p
    case Lit(b) =>
      SmallPowers();
      LiteralDecsBits(x.literal, Levels(Literal(x.literal)), NewPartial(x), b);
    case ShortRep =>
    case Rep(k, len) => LenBits(true, x.posState, len - 2);
    case Match(v, len) =>
      LenBits(false, x.posState, len - 2);
      DistanceBits(LenState(len - 2), v);
  }

  // ----- reading inverts encoding -----

  /** Reading a concatenation is reading its parts. */
  lemma {:induction false} ReadsSplit(bit: BitReader, d: Dec, a: seq<Decision>, b: seq<Decision>)
    requires Reads(bit, d, a + b)
    ensures Reads(bit, d, a) && Reads(bit, After(bit, d, a), b)
    ensures After(bit, d, a + b) == After(bit, After(bit, d, a), b)
    decreases |a|
  {
    if a == [] {
      assert a + b == b;
    } else {
      assert (a + b)[0] == a[0] && (a + b)[1..] == a[1..] + b;
      ReadsSplit(bit, Decide(bit, d, a[0]).dec, a[1..], b);
    }
  }

  /** The first of some decisions. */
  lemma ReadsFirst(bit: BitReader, d: Dec, x: Decision, ds: seq<Decision>)
    requires Reads(bit, d, [x] + ds)
    ensures Decide(bit, d, x).Got? && Decide(bit, d, x).value == x.bit
    ensures Reads(bit, Decide(bit, d, x).dec, ds) && After(bit, d, [x] + ds) == After(bit, Decide(bit, d, x).dec, ds)
  {
    assert ([x] + ds)[1..] == ds;
  }

  /** The first of some decisions, an adaptive bit. */
  lemma ReadsBit(bit: BitReader, d: Dec, c: Cell, b: int, ds: seq<Decision>)
    requires Reads(bit, d, [Model(c, b)] + ds)
    ensures bit(d, c).Got? && bit(d, c).value == b
    ensures Reads(bit, bit(d, c).dec, ds) && After(bit, d, [Model(c, b)] + ds) == After(bit, bit(d, c).dec, ds)
  {
    ReadsFirst(bit, d, Model(c, b), ds);
  }

  lemma {:induction false} TreeReads(bit: BitReader, d: Dec, t: Table, n: nat, m: int, v: int)
    requires Reads(bit, d, TreeDecs(t, n, m, v))
    ensures Tree(bit, d, t, n, m) == Got(After(bit, d, TreeDecs(t, n, m, v)), Append(m, n, v))
    decreases n
  {
    if n > 0 {
      var b, low := Top(v, n), Low(v, n);
      var c, k := Cell(t, m), 2 * m + b;
      ReadsBit(bit, d, c, b, TreeDecs(t, n - 1, k, low));
      TreeReads(bit, bit(d, c).dec, t, n - 1, k, low);
      assert Append(m, n, v) == Append(k, n - 1, low);
    }
  }

  lemma ReadTreeReads(bit: BitReader, d: Dec, t: Table, v: int)
    requires 0 <= v < Pow2(Levels(t)) && Reads(bit, d, TreeEnc(t, v))
    ensures ReadTree(bit, d, t) == Got(After(bit, d, TreeEnc(t, v)), v)
  {
    TreeReads(bit, d, t, Levels(t), 1, v);
    AppendIs(1, Levels(t), v);
  }

  lemma {:induction false} ReverseReads(bit: BitReader, d: Dec, t: Table, n: nat, m: int, i: int, acc: int, v: int)
    requires Reads(bit, d, ReverseDecs(t, n, m, v))
    ensures Reverse(bit, d, t, n, m, i, acc) == Got(After(bit, d, ReverseDecs(t, n, m, v)), AddBits(acc, i, n, v))
    decreases n
  {
    if n > 0 {
      ReadsBit(bit, d, Cell(t, m), v % 2, ReverseDecs(t, n - 1, 2 * m + v % 2, v / 2));
      ReverseReads(bit, bit(d, Cell(t, m)).dec, t, n - 1, 2 * m + v % 2, 2 * i, acc + v % 2 * i, v / 2);
    }
  }

  lemma {:induction false} DirectsReads(bit: BitReader, d: Dec, n: nat, h: int, v: int)
    requires Reads(bit, d, DirectDecs(n, v))
    ensures Directs(d, n, h) == Got(After(bit, d, DirectDecs(n, v)), Append(h, n, v))
    decreases n
  {
    if n > 0 {
      var x, ds := Direct(Top(v, n)), DirectDecs(n - 1, Low(v, n));
      ReadsFirst(bit, d, x, ds);
      DirectsReads(bit, Decide(bit, d, x).dec, n - 1, 2 * h + Top(v, n), Low(v, n));
    }
  }

  lemma {:induction false} LiteralReads(bit: BitReader, d: Dec, c: int, n: nat, s: Partial, v: int)
    requires Reads(bit, d, LiteralDecs(c, n, s, v))
    ensures LiteralBits(bit, d, c, n, s) == Got(After(bit, d, LiteralDecs(c, n, s, v)), Append(s.sym, n, v))
    decreases n
  {
    if n > 0 {
      var b, low := Top(v, n), Low(v, n);
      ReadsBit(bit, d, LiteralCell(c, s), b, LiteralDecs(c, n - 1, NextPartial(s, b), low));
      LiteralReads(bit, bit(d, LiteralCell(c, s)).dec, c, n - 1, NextPartial(s, b), low);
    }
  }

  lemma ReadLiteralReads(bit: BitReader, d: Dec, x: Context, v: int)
    requires 0 <= v < 256 && Reads(bit, d, LiteralEnc(x, v))
    ensures ReadLiteral(bit, d, x) == Got(After(bit, d, LiteralEnc(x, v)), Lit(v))
  {
    LiteralReads(bit, d, x.literal, Levels(Literal(x.literal)), NewPartial(x), v);
    LiteralSize(x.literal, v);
  }

  lemma LiteralSize(c: int, v: int)
    requires 0 <= v < 256
    ensures Append(1, Levels(Literal(c)), v) % 256 == v
  {
    SmallPowers();
    AppendIs(1, Levels(Literal(c)), v);
  }

  lemma LenReads(bit: BitReader, d: Dec, rep: bool, posState: int, len: int)
    requires 0 <= len < 272 && Reads(bit, d, LenDecs(rep, posState, len))
    ensures ReadLen(bit, d, rep, posState) == Got(After(bit, d, LenDecs(rep, posState, len)), len)
  {
    SmallPowers();
    if len < 8 {
      var x := Model(Cell(LenChoice(rep), 0), 0);
      ReadsBit(bit, d, x.cell, x.bit, TreeEnc(LenLow(rep, posState), len));
      ReadTreeReads(bit, bit(d, x.cell).dec, LenLow(rep, posState), len);
    } else {
      var x := Model(Cell(LenChoice(rep), 0), 1);
      ReadsBit(bit, d, x.cell, x.bit, LongLenDecs(rep, posState, len));
      LongLenReads(bit, bit(d, x.cell).dec, rep, posState, len);
    }
  }

  lemma LongLenReads(bit: BitReader, d: Dec, rep: bool, posState: int, len: int)
    requires 8 <= len < 272 && Reads(bit, d, LongLenDecs(rep, posState, len))
    ensures ReadLongLen(bit, d, rep, posState) == Got(After(bit, d, LongLenDecs(rep, posState, len)), len)
  {
    SmallPowers();
    var x := Model(Cell(LenChoice2(rep), 0), if len < 16 then 0 else 1);
    if len < 16 {
      ReadsBit(bit, d, x.cell, x.bit, TreeEnc(LenMid(rep, posState), len - 8));
      ReadTreeReads(bit, bit(d, x.cell).dec, LenMid(rep, posState), len - 8);
    } else {
      ReadsBit(bit, d, x.cell, x.bit, TreeEnc(LenHigh(rep), len - 16));
      ReadTreeReads(bit, bit(d, x.cell).dec, LenHigh(rep), len - 16);
    }
  }

  /** The slot of a distance holds it. */
  lemma {:induction false} SlotHolds(v: nat)
    ensures SlotBase(SlotOf(v)) <= v < SlotBase(SlotOf(v)) + Pow2(DirectBits(SlotOf(v)))
  {
    if v >= 8 {
      SlotHolds(v / 2);
      assert SlotOf(v / 2) >= 4;
      SlotTwice(SlotOf(v / 2));
    } else {
      SmallPowers();
      assert SlotOf(v) == if v < 4 then v else if v < 6 then 4 else 5;
    }
  }

  lemma {:induction false} SlotTwice(slot: int)
    requires slot >= 4
    ensures SlotBase(slot + 2) == 2 * SlotBase(slot) && Pow2(DirectBits(slot + 2)) == 2 * Pow2(DirectBits(slot))
  {
    assert DirectBits(slot + 2) == DirectBits(slot) + 1 && (slot + 2) % 2 == slot % 2;
    SlotBaseIs(slot);
    SlotBaseIs(slot + 2);
    var h, p := 2 + slot % 2, Pow2(DirectBits(slot));
    assert h * (2 * p) == 2 * (h * p);
  }

  /** A 32-bit distance has one of 64 slots. */
  lemma {:induction false} SlotBelow(v: nat, k: nat)
    requires v < Pow2(k) && k >= 2
    ensures 0 <= SlotOf(v) < 2 * k
  {
    if k > 2 && v >= 4 {
      SlotBelow(v / 2, k - 1);
    } else {
      SmallPowers();
    }
  }

  /** The slot of a 32-bit distance, six bits wide, holds it. */
  lemma {:induction false} SlotOfDistance(v: int)
    requires 0 <= v < W32
    ensures var slot := SlotOf(v);
            && 0 <= slot < 64 && slot < Pow2(Levels(PosSlot(0)))
            && SlotBase(slot) <= v < SlotBase(slot) + Pow2(DirectBits(slot))
  {
    SlotHolds(v);
    WordPower();
    SlotBelow(v, 32);
    SmallPowers();
  }

  lemma {:induction false} SlotReads(bit: BitReader, e: Dec, slot: int, v: int)
    requires 0 <= slot < 64 && 0 <= v < Pow2(DirectBits(slot)) && Reads(bit, e, SlotDecs(slot, v))
    ensures ReadSlot(bit, e, slot) == Got(After(bit, e, SlotDecs(slot, v)), SlotBase(slot) + v)
  {
    if slot < 4 {
    } else if slot < 14 {
      ReverseReads(bit, e, SpecPos(slot), DirectBits(slot), 1, 1, SlotBase(slot), v);
      AddBitsIs(SlotBase(slot), 1, DirectBits(slot), v);
    } else {
      var n, h := DirectBits(slot) - 4, 2 + slot % 2;
      ReadsSplit(bit, e, DirectDecs(n, v / 16), ReverseDecs(Align, AlignBits(slot), 1, v % 16));
      DirectsReads(bit, e, n, h, v / 16);
      var f, u := After(bit, e, DirectDecs(n, v / 16)), 16 * Append(h, n, v / 16);
      ReverseReads(bit, f, Align, AlignBits(slot), 1, 1, u, v % 16);
      LongSlot(h, n, AlignBits(slot), v);
      SlotBaseIs(slot);
    }
  }

  /** The direct bits, followed by the four that have a table. */
  lemma LongSlot(h: int, n: nat, a: nat, v: int)
    requires 0 <= v < Pow2(n + a) && a == 4
    ensures AddBits(16 * Append(h, n, v / 16), 1, a, v % 16) == h * Pow2(n + a) + v
  {
    SmallPowers();
    Pow2Sum(n, 4);
    AppendIs(h, n, v / 16);
    AddBitsIs(16 * Append(h, n, v / 16), 1, a, v % 16);
    assert 16 * (h * Pow2(n)) == h * (Pow2(n) * 16);
  }

  lemma {:induction false} DistanceReads(bit: BitReader, d: Dec, lenState: int, v: int)
    requires 0 <= v < W32 && Reads(bit, d, DistanceDecs(lenState, v))
    ensures ReadDistance(bit, d, lenState) == Got(After(bit, d, DistanceDecs(lenState, v)), v)
  {
    var slot := SlotOf(v);
    SlotOfDistance(v);
    var a, b := TreeEnc(PosSlot(lenState), slot), SlotDecs(slot, v - SlotBase(slot));
    ReadsSplit(bit, d, a, b);
    ReadTreeReads(bit, d, PosSlot(lenState), slot);
    SlotReads(bit, After(bit, d, a), slot, v - SlotBase(slot));
  }

  /** The length that follows the choice of a remembered distance. */
  lemma RepLenReads(bit: BitReader, d: Dec, x: Context, k: int, len: int)
    requires 0 <= len < 272 && Reads(bit, d, LenDecs(true, x.posState, len))
    ensures ReadRepLen(bit, d, x, k) == Got(After(bit, d, LenDecs(true, x.posState, len)), Rep(k, len + 2))
  {
    LenReads(bit, d, true, x.posState, len);
  }

  lemma RepReads(bit: BitReader, d: Dec, x: Context, k: int, len: int)
    requires 0 <= k < 4 && 0 <= len < 272 && Reads(bit, d, RepEnc(x, k, len))
    ensures ReadRep(bit, d, x) == Got(After(bit, d, RepEnc(x, k, len)), Rep(k, len + 2))
  {
    var c, ds := Cell(IsRepG0, x.state), LenDecs(true, x.posState, len);
    if k == 0 {
      var l := Cell(IsRep0Long, 16 * x.state + x.posState);
      ReadsBit(bit, d, c, 0, [Model(l, 1)] + ds);
      ReadsBit(bit, bit(d, c).dec, l, 1, ds);
      RepLenReads(bit, bit(bit(d, c).dec, l).dec, x, 0, len);
    } else {
      ReadsBit(bit, d, c, 1, OldRepEnc(x, k, len));
      OldRepReads(bit, bit(d, c).dec, x, k, len);
    }
  }

  lemma OldRepReads(bit: BitReader, d: Dec, x: Context, k: int, len: int)
    requires 1 <= k < 4 && 0 <= len < 272 && Reads(bit, d, OldRepEnc(x, k, len))
    ensures ReadOldRep(bit, d, x) == Got(After(bit, d, OldRepEnc(x, k, len)), Rep(k, len + 2))
  {
    var c, l, ds := Cell(IsRepG1, x.state), Cell(IsRepG2, x.state), LenDecs(true, x.posState, len);
    if k == 1 {
      ReadsBit(bit, d, c, 0, ds);
      RepLenReads(bit, bit(d, c).dec, x, 1, len);
    } else {
      var b := if k == 2 then 0 else 1;
      ReadsBit(bit, d, c, 1, [Model(l, b)] + ds);
      ReadsBit(bit, bit(d, c).dec, l, b, ds);
      RepLenReads(bit, bit(bit(d, c).dec, l).dec, x, k, len);
    }
  }

  lemma ShortReads(bit: BitReader, d: Dec, x: Context)
    requires Reads(bit, d, ShortEnc(x))
    ensures ReadRep(bit, d, x) == Got(After(bit, d, ShortEnc(x)), ShortRep)
  {
    var c, l := Cell(IsRepG0, x.state), Cell(IsRep0Long, 16 * x.state + x.posState);
    ReadsBit(bit, d, c, 0, [Model(l, 0)] + []);
    ReadsBit(bit, bit(d, c).dec, l, 0, []);
  }

  lemma ReadMatchReads(bit: BitReader, d: Dec, x: Context, v: int, len: int)
    requires 0 <= v < W32 && 0 <= len < 272 && Reads(bit, d, MatchEnc(x, v, len))
    ensures ReadMatch(bit, d, x) == Got(After(bit, d, MatchEnc(x, v, len)), Match(v, len + 2))
  {
    var a, b := LenDecs(false, x.posState, len), DistanceDecs(LenState(len), v);
    ReadsSplit(bit, d, a, b);
    LenReads(bit, d, false, x.posState, len);
    DistanceReads(bit, After(bit, d, a), LenState(len), v);
  }

  /** Two bits choose among a literal, a match, and the remembered distances. */
  lemma CopyBits(bit: BitReader, d: Dec, x: Context, b: int, ds: seq<Decision>) returns (e: Dec)
    requires Reads(bit, d, [Model(Cell(IsMatch, 16 * x.state + x.posState), 1)]
                           + ([Model(Cell(IsRep, x.state), b)] + ds))
    ensures Reads(bit, e, ds) && ReadPacket(bit, d, x) == if b == 0 then ReadMatch(bit, e, x) else ReadRep(bit, e, x)
    ensures After(bit, d, [Model(Cell(IsMatch, 16 * x.state + x.posState), 1)]
                          + ([Model(Cell(IsRep, x.state), b)] + ds)) == After(bit, e, ds)
  {
    var c, r := Cell(IsMatch, 16 * x.state + x.posState), Cell(IsRep, x.state);
    ReadsBit(bit, d, c, 1, [Model(r, b)] + ds);
    ReadsBit(bit, bit(d, c).dec, r, b, ds);
    e := bit(bit(d, c).dec, r).dec;
  }

  lemma MatchPacketReads(bit: BitReader, d: Dec, x: Context, v: int, len: int)
    requires 0 <= v < W32 && 2 <= len < 274 && Reads(bit, d, PacketDecs(x, Match(v, len)))
    ensures ReadPacket(bit, d, x) == Got(After(bit, d, PacketDecs(x, Match(v, len))), Match(v, len))
  {
    var e := MatchBits(bit, d, x, v, len);
    ReadMatchReads(bit, e, x, v, len - 2);
  }

  lemma MatchBits(bit: BitReader, d: Dec, x: Context, v: int, len: int) returns (e: Dec)
    requires Reads(bit, d, PacketDecs(x, Match(v, len)))
    ensures Reads(bit, e, MatchEnc(x, v, len - 2)) && ReadPacket(bit, d, x) == ReadMatch(bit, e, x)
    ensures After(bit, d, PacketDecs(x, Match(v, len))) == After(bit, e, MatchEnc(x, v, len - 2))
  {
    e := CopyBits(bit, d, x, 0, MatchEnc(x, v, len - 2));
  }

  lemma RepPacketReads(bit: BitReader, d: Dec, x: Context, k: int, len: int)
    requires 0 <= k < 4 && 2 <= len < 274 && Reads(bit, d, PacketDecs(x, Rep(k, len)))
    ensures ReadPacket(bit, d, x) == Got(After(bit, d, PacketDecs(x, Rep(k, len))), Rep(k, len))
  {
    var e := CopyBits(bit, d, x, 1, RepEnc(x, k, len - 2));
    RepReads(bit, e, x, k, len - 2);
  }

  lemma ShortPacketReads(bit: BitReader, d: Dec, x: Context)
    requires Reads(bit, d, PacketDecs(x, ShortRep))
    ensures ReadPacket(bit, d, x) == Got(After(bit, d, PacketDecs(x, ShortRep)), ShortRep)
  {
    var e := CopyBits(bit, d, x, 1, ShortEnc(x));
    ShortReads(bit, e, x);
  }

  lemma LitReads(bit: BitReader, d: Dec, x: Context, b: int)
    requires 0 <= b < 256 && Reads(bit, d, PacketDecs(x, Lit(b)))
    ensures ReadPacket(bit, d, x) == Got(After(bit, d, PacketDecs(x, Lit(b))), Lit(b))
  {
    var c := Cell(IsMatch, 16 * x.state + x.posState);
    ReadsBit(bit, d, c, 0, LiteralEnc(x, b));
    ReadLiteralReads(bit, bit(d, c).dec, x, b);
  }

  /** A decoder that takes the decisions of a packet reads that packet. */
  lemma PacketReads(bit: BitReader, d: Dec, x: Context, p: Packet)
    requires PacketOk(p) && Reads(bit, d, PacketDecs(x, p))
    ensures ReadPacket(bit, d, x) == Got(After(bit, d, PacketDecs(x, p)), p)
  {
    match p
    case Lit(b) => LitReads(bit, d, x, b);
    case ShortRep => ShortPacketReads(bit, d, x);
    case Rep(k, len) => RepPacketReads(bit, d, x, k, len);
    case Match(v, len) => MatchPacketReads(bit, d, x, v, len);
  }
}
