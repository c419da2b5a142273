/** The probabilities of the LZMA decoder: separate tables, and their places in one flat array. */
module LzmaTables {
  import opened Words
  import Sizes

  /** One adaptive probability table. */
  datatype Table =
    | IsMatch
    | IsRep
    | IsRepG0
    | IsRepG1
    | IsRepG2
    | IsRep0Long
    | PosSlot(lenState: int)
    | SpecPos(slot: int)
    | Align
    | LenChoice(rep: bool)
    | LenChoice2(rep: bool)
    | LenLow(rep: bool, posState: int)
    | LenMid(rep: bool, posState: int)
    | LenHigh(rep: bool)
    | Literal(context: int)

  datatype Cell = Cell(table: Table, index: int)

  /** The tables as maps from cells to probabilities; a cell not yet used is at one half. */
  type Tables = map<Cell, int>

  function Prob(t: Tables, c: Cell): int {
    if c in t then t[c] else 1024
  }

  // ----- powers of two -----

  lemma {:induction false} Pow2Sum(a: nat, b: nat)
    ensures Pow2(a + b) == Pow2(a) * Pow2(b)
  {
    if b > 0 {
      Pow2Sum(a, b - 1);
      assert Pow2(a) * Pow2(b) == 2 * (Pow2(a) * Pow2(b - 1));
    }
  }

  /** n & ((1 << k) - 1), n >> k, and n << k. */
  function LowBits(n: int, k: nat): int
    decreases k, n
  {
    if k == 0 then 0 else n % 2 + 2 * LowBits(n / 2, k - 1)
  }

  function ShiftRight(n: int, k: nat): int
    decreases k, n
  {
    if k == 0 then n else ShiftRight(n / 2, k - 1)
  }

  function ShiftLeft(n: int, k: nat): int
    decreases k, n
  {
    if k == 0 then n else ShiftLeft(2 * n, k - 1)
  }

  lemma {:induction false} LowBitsBelow(n: int, k: nat)
    ensures 0 <= LowBits(n, k) < Pow2(k)
    decreases k
  {
    if k > 0 {
      LowBitsBelow(n / 2, k - 1);
    }
  }

  lemma {:induction false} ShiftRightBelow(n: int, k: nat, j: nat)
    requires 0 <= n < Pow2(k + j)
    ensures 0 <= ShiftRight(n, k) < Pow2(j)
    decreases k
  {
    if k > 0 {
      ShiftRightBelow(n / 2, k - 1, j);
    }
  }

  /** Bits shifted in below those of h stay below the next power. */
  lemma {:induction false} ShiftLeftBelow(h: int, l: int, k: nat, j: nat)
    requires 0 <= h < Pow2(j) && 0 <= l < Pow2(k)
    ensures 0 <= ShiftLeft(h, k) + l < Pow2(j + k)
    decreases k
  {
    ShiftLeftIs(h, k);
    Pow2Sum(j, k);
    Concatenated(h, Pow2(j), l, Pow2(k));
  }

  lemma Concatenated(h: int, a: int, l: int, q: int)
    requires 0 <= h < a && 0 <= l < q
    ensures 0 <= h * q + l < a * q
  {
    assert (a - 1 - h) * q >= 0 && h * q >= 0;
  }

  lemma {:induction false} ShiftLeftIs(h: int, k: nat)
    ensures ShiftLeft(h, k) == h * Pow2(k)
    decreases k
  {
    if k > 0 {
      ShiftLeftIs(2 * h, k - 1);
    }
  }

  /** The low bits of a number are those of the number modulo a higher power of two. */
  lemma {:induction false} LowBitsModulo(n: int, k: nat, j: nat)
    requires 0 <= n && k <= j
    ensures LowBits(n % Pow2(j), k) == LowBits(n, k)
    decreases k
  {
    if k > 0 {
      HalfModulo(n, Pow2(j - 1));
      LowBitsModulo(n / 2, k - 1, j - 1);
    }
  }

  lemma HalfModulo(n: int, q: int)
    requires 0 <= n && q >= 1
    ensures n % (2 * q) % 2 == n % 2 && n % (2 * q) / 2 == n / 2 % q
  {
    var a, r := n / 2 / q, n / 2 % q;
    assert n / 2 == a * q + r;
    assert n == a * (2 * q) + (2 * r + n % 2);
    var m := 2 * q;
    assert n == n / m * m + n % m;
    Sizes.SameQuotient(m, a, 2 * r + n % 2, n / m, n % m);
  }

  // ----- the flat array -----

  const NUMSTATES: int := 12
  const LIT_SIZE: int := 768
  const BASE_SIZE: int := 1846

  /** The bits that follow the slot of a distance. */
  function DirectBits(slot: int): nat {
    if slot < 4 then 0 else slot / 2 - 1
  }

  /** The first distance of a slot. */
  function SlotBase(slot: int): int {
    if slot < 4 then slot else ShiftLeft(2 + slot % 2, DirectBits(slot))
  }

  lemma SlotBaseIs(slot: int)
    requires slot >= 4
    ensures SlotBase(slot) == (2 + slot % 2) * Pow2(DirectBits(slot))
  {
    ShiftLeftIs(2 + slot % 2, DirectBits(slot));
  }

  /** Where a length coder starts. */
  function LenCoder(rep: bool): int {
    if rep then 1332 else 818
  }

  function Base(t: Table): int {
    match t
    case IsMatch => 0
    case IsRep => 192
    case IsRepG0 => 204
    case IsRepG1 => 216
    case IsRepG2 => 228
    case IsRep0Long => 240
    case PosSlot(l) => 432 + 64 * l
    case SpecPos(slot) => 688 + SlotBase(slot) - slot - 1
    case Align => 802
    case LenChoice(rep) => LenCoder(rep)
    case LenChoice2(rep) => LenCoder(rep) + 1
    case LenLow(rep, posState) => LenCoder(rep) + 2 + 8 * posState
    case LenMid(rep, posState) => LenCoder(rep) + 130 + 8 * posState
    case LenHigh(rep) => LenCoder(rep) + 258
    case Literal(context) => BASE_SIZE + LIT_SIZE * context
  }

  /** The first and the last index of a table; bit trees are indexed from one, which matters
      only where the tables of two slots leave no cell between them. */
  function First(t: Table): int {
    if t.SpecPos? then 1 else 0
  }

  function Limit(t: Table): int {
    match t
    case IsMatch => 192
    case IsRep => 12
    case IsRepG0 => 12
    case IsRepG1 => 12
    case IsRepG2 => 12
    case IsRep0Long => 192
    case PosSlot(_) => 64
    case SpecPos(slot) => Pow2(DirectBits(slot))
    case Align => 16
    case LenChoice(_) => 1
    case LenChoice2(_) => 1
    case LenLow(_, _) => 8
    case LenMid(_, _) => 8
    case LenHigh(_) => 256
    case Literal(_) => LIT_SIZE
  }

  /** The bits a tree in the table decodes. */
  function Levels(t: Table): nat {
    match t
    case PosSlot(_) => 6
    case SpecPos(slot) => DirectBits(slot)
    case LenLow(_, _) => 3
    case LenMid(_, _) => 3
    case LenHigh(_) => 8
    case Literal(_) => 8
    case Align => 4
    case _ => 1
  }

  /** The low bits of a distance that all long slots share a tree for. */
  function AlignBits(slot: int): nat {
    if slot < 14 then 0 else 4
  }

  /** The tables of a decoder with so many literal contexts. */
  predicate TableOk(t: Table, contexts: int) {
    match t
    case PosSlot(l) => 0 <= l < 4
    case SpecPos(slot) => 4 <= slot < 14
    case LenLow(_, posState) => 0 <= posState < 16
    case LenMid(_, posState) => 0 <= posState < 16
    case Literal(context) => 0 <= context < contexts
    case _ => true
  }

  predicate CellOk(c: Cell, contexts: int) {
    TableOk(c.table, contexts) && First(c.table) <= c.index < Limit(c.table)
  }

  /** The place of a cell in the flat array. */
  function Flat(c: Cell): int {
    Base(c.table) + c.index
  }

  function NumProbs(contexts: int): int {
    BASE_SIZE + LIT_SIZE * contexts
  }

  /** The ten slots with tables of their own tile the 114 cells from SpecPos up to Align. */
  lemma SpecPosTiles()
    ensures Base(SpecPos(4)) + First(SpecPos(4)) == 688
    ensures forall slot :: 4 <= slot < 13 ==>
                             Base(SpecPos(slot)) + Limit(SpecPos(slot))
                             == Base(SpecPos(slot + 1)) + First(SpecPos(slot + 1))
    ensures Base(SpecPos(13)) + Limit(SpecPos(13)) == Base(Align) == 688 + 114
  {
    SmallPowers();
    forall slot | 4 <= slot < 14 ensures SlotBase(slot) == (2 + slot % 2) * Pow2(DirectBits(slot)) {
      SlotBaseIs(slot);
    }
  }

  lemma SmallPowers()
    ensures Pow2(0) == 1 && Pow2(1) == 2 && Pow2(2) == 4 && Pow2(3) == 8 && Pow2(4) == 16 && Pow2(5) == 32
    ensures Pow2(6) == 64 && Pow2(7) == 128 && Pow2(8) == 256
  {
    assert Pow2(4) == 16;
  }

  /** Tables one after another: a number that orders them as the flat array does. */
  function Rank(t: Table): int {
    match t
    case IsMatch => 0
    case IsRep => 1
    case IsRepG0 => 2
    case IsRepG1 => 3
    case IsRepG2 => 4
    case IsRep0Long => 5
    case PosSlot(l) => 6 + l
    case SpecPos(slot) => 10 + slot - 4
    case Align => 20
    case LenChoice(rep) => LenRank(rep)
    case LenChoice2(rep) => LenRank(rep) + 1
    case LenLow(rep, posState) => LenRank(rep) + 2 + posState
    case LenMid(rep, posState) => LenRank(rep) + 18 + posState
    case LenHigh(rep) => LenRank(rep) + 34
    case Literal(context) => 100 + context
  }

  function LenRank(rep: bool): int {
    if rep then 60 else 21
  }

  /** Where the table of a rank ends in the flat array, at the latest. */
  function EndOf(r: int): int {
    if r < 6 then (if r == 0 then 192 else if r < 5 then 192 + 12 * r else 432)
    else if r < 10 then 432 + 64 * (r - 5)
    else if r < 20 then 688 + SlotBase(r - 6) + Pow2(DirectBits(r - 6)) - (r - 6) - 1
    else if r == 20 then 818
    else if r < 60 then LenEnd(818, r - 21)
    else if r < 100 then LenEnd(1332, r - 60)
    else BASE_SIZE + LIT_SIZE * (r - 99)
  }

  function LenEnd(start: int, r: int): int {
    if r < 2 then start + 1 + r
    else if r < 18 then start + 10 + 8 * (r - 2)
    else if r < 34 then start + 138 + 8 * (r - 18)
    else start + 514
  }

  /** A table lies between the end of the rank before it and the end of its own. */
  lemma TableInRank(t: Table, contexts: int)
    requires TableOk(t, contexts)
    ensures Rank(t) >= 0 && Base(t) + Limit(t) == EndOf(Rank(t))
    ensures Rank(t) > 0 ==> EndOf(Rank(t) - 1) <= Base(t) + First(t)
    ensures Rank(t) == 0 ==> Base(t) == 0
  {
    SmallPowers();
    if t.SpecPos? {
      SpecPosTiles();
      SlotAfter(t.slot);
    }
  }

  lemma SlotAfter(slot: int)
    requires 4 <= slot < 14
    ensures SlotBase(slot - 1) + Pow2(DirectBits(slot - 1)) == SlotBase(slot)
  {
    SmallPowers();
    SlotBaseIs(slot);
    if slot > 4 {
      SlotBaseIs(slot - 1);
    }
  }

  lemma {:induction false} EndsIncrease(r: int, s: int)
    requires 0 <= r <= s
    ensures EndOf(r) <= EndOf(s)
    decreases s
  {
    if r < s {
      EndsIncrease(r, s - 1);
      EndIncreases(s - 1);
    }
  }

  lemma EndIncreases(r: int)
    requires 0 <= r
    ensures EndOf(r) <= EndOf(r + 1)
  {
    SmallPowers();
    if 10 <= r < 19 {
      SlotAfter(r - 5);
    }
  }

  /** A table is known by its rank. */
  lemma RankIsOwn(t: Table, u: Table, contexts: int)
    requires TableOk(t, contexts) && TableOk(u, contexts) && Rank(t) == Rank(u)
    ensures t == u
  {
  }

  /** Every cell has a place of its own in the flat array. */
  lemma FlatIsInjective(c: Cell, d: Cell, contexts: int)
    requires CellOk(c, contexts) && CellOk(d, contexts) && Flat(c) == Flat(d)
    ensures c == d
  {
    var r, s := Rank(c.table), Rank(d.table);
    TableInRank(c.table, contexts);
    TableInRank(d.table, contexts);
    if r < s {
      EndsIncrease(r, s - 1);
    } else if s < r {
      EndsIncrease(s, r - 1);
    } else {
      RankIsOwn(c.table, d.table, contexts);
    }
  }

  /** The flat array has room for every cell. */
  lemma FlatInArray(c: Cell, contexts: int)
    requires CellOk(c, contexts) && contexts >= 1
    ensures 0 <= Flat(c) < NumProbs(contexts)
  {
    TableInRank(c.table, contexts);
    if c.table.Literal? {
    } else {
      EndsIncrease(Rank(c.table), 99);
    }
    if Rank(c.table) > 0 {
      EndsIncrease(0, Rank(c.table) - 1);
    }
  }
}
