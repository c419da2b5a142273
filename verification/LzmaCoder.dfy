/** The range decoder as the C code runs it: three words of state, an input position, and one flat array of
    probabilities updated in place. */
module LzmaCoder {
  import opened Words
  import opened LzmaTables
  import opened LzmaRange
  import opened LzmaPackets

  /** A method's answer is that of the function it computes: an error, or the same value and decoder. */
  ghost predicate Agrees<T>(r: Read<T>, ok: bool, v: T, d: Dec) {
    match r
    case Error => !ok
    case Got(e, x) => ok && v == x && d == e
  }

  /** The byte at i, and zero before the first. */
  function At(s: seq<byte>, i: int): byte {
    if 0 <= i < |s| then s[i] else 0
  }

  lemma ShiftIn(a: byte, b: byte, c: byte, d: byte, e: byte)
    ensures U32(Word(a, b, c, d) * 256 + e) == Word(b, c, d, e) && 0 <= Word(b, c, d, e) < W32
  {
    assert Word(a, b, c, d) * 256 + e == a * W32 + Word(b, c, d, e);
  }

  /** A node of a bit tree, k levels below the root, and the nodes below it. */
  predicate NodeAt(m: int, k: nat) {
    Pow2(k) <= m < Pow2(k + 1)
  }

  lemma NodeBelow(m: int, k: nat, n: nat)
    requires NodeAt(m, k) && k < n
    ensures 1 <= m < Pow2(n)
    ensures NodeAt(2 * m, k + 1) && NodeAt(2 * m + 1, k + 1)
  {
    Pow2Grows(k + 1, n);
  }

  lemma TreeStep(coder: BitReader, d: Dec, t: Table, n: nat, m: int, ok: bool, b: int, e: Dec)
    requires n > 0 && Agrees(coder(d, Cell(t, m)), ok, b, e)
    ensures Tree(coder, d, t, n, m) == if ok then Tree(coder, e, t, n - 1, 2 * m + b) else Error
  {
  }

  lemma ReverseStep(coder: BitReader, d: Dec, t: Table, n: nat, m: int, i: int, acc: int, ok: bool, b: int, e: Dec)
    requires n > 0 && Agrees(coder(d, Cell(t, m)), ok, b, e)
    ensures Reverse(coder, d, t, n, m, i, acc) ==
              if ok then Reverse(coder, e, t, n - 1, 2 * m + b, 2 * i, acc + b * i) else Error
  {
  }

  class RangeDecoder {
    const contexts: nat
    const Probs: array<int>
    var Range: int
    var Code: int
    var inStream: seq<byte>
    var Buffer: nat

    /** How the specification reads a bit: as Bit does. */
    ghost const coder: BitReader

    /** What the flat array holds, as separate tables. */
    ghost var tables: Tables

    /** A cell of a table is at its place in the array. */
    ghost predicate CellHeld(c: Cell)
      reads this`tables, Probs
    {
      CellOk(c, contexts) ==> 0 <= Flat(c) < Probs.Length && Probs[Flat(c)] == Prob(tables, c)
    }

    ghost predicate Valid()
      reads this, Probs
    {
      && contexts >= 1 && Buffer <= |inStream| && DecOk(View()) && IsCoder(coder)
      && (forall c {:trigger CellHeld(c)} :: CellHeld(c))
    }

    ghost function View(): Dec
      reads this
      requires Buffer <= |inStream|
    {
      Dec(Range, Code, inStream[Buffer..], tables)
    }

    ghost predicate Sized() {
      contexts >= 1 && Probs.Length >= NumProbs(contexts) && IsCoder(coder)
    }

    constructor (contexts: nat, Probs: array<int>, ghost coder: BitReader)
      requires contexts >= 1 && Probs.Length >= NumProbs(contexts) && IsCoder(coder)
      ensures Sized() && this.contexts == contexts && this.Probs == Probs && this.coder == coder
    {
      this.contexts, this.Probs, this.coder := contexts, Probs, coder;
    }

    /** Every probability at one half, and nothing to read. */
    method FillProbs()
      requires Sized()
      modifies this, Probs
      ensures Valid() && tables == map[]
    {
      for i := 0 to NumProbs(contexts)
        invariant forall j :: 0 <= j < i ==> Probs[j] == 1024
      {
        Probs[i] := 1024;
      }
      Range, Code, inStream, Buffer, tables := W32 - 1, 0, [], 0, map[];
      forall c ensures CellHeld(c) {
        if CellOk(c, contexts) {
          FlatInArray(c, contexts);
        }
      }
      forall c ensures ProbOk(map[], c) {
      }
    }

    /** RC_INIT */
    method InitInput(input: seq<byte>) returns (ok: bool)
      requires Valid() && tables == map[]
      modifies this`Range, this`Code, this`inStream, this`Buffer
      ensures Valid() && Agrees(Init(input), ok, (), View())
      ensures inStream == input
    {
      inStream, Buffer := input, 0;
      Code, Range := 0, W32 - 1;
      var i := 0;
      while i < 5
        invariant Valid() && 0 <= i <= 5 && Buffer == i && inStream == input && Range == W32 - 1 && i <= |input|
        invariant tables == map[]
        invariant Code == Word(At(input, i - 4), At(input, i - 3), At(input, i - 2), At(input, i - 1))
      {
        if Buffer == |inStream| {
          return false;
        }
        ShiftIn(At(input, i - 4), At(input, i - 3), At(input, i - 2), At(input, i - 1), input[i]);
        Code, Buffer := U32(Code * 256 + inStream[Buffer]), Buffer + 1;
        i := i + 1;
      }
      ok := true;
    }

    /** RC_NORMALIZE */
    method Renormalize() returns (ok: bool)
      requires Valid()
      modifies this`Range, this`Code, this`Buffer
      ensures Valid() && Agrees(Normalize(old(View())), ok, (), View())
      ensures ok ==> Range >= TOP
    {
      if Range < TOP {
        if Buffer == |inStream| {
          return false;
        }
        Range, Code, Buffer := Range * 256, U32(Code * 256 + inStream[Buffer]), Buffer + 1;
        NormalizeRestores(old(View()));
      }
      ok := true;
    }

    /** IfBit0, UpdateBit0 and UpdateBit1, on the probability at index i. */
    method GetBit(i: int, ghost c: Cell) returns (ok: bool, bit: int)
      requires Valid() && CellOk(c, contexts) && i == Flat(c)
      modifies this`Range, this`Code, this`Buffer, this`tables, Probs
      ensures Valid() && Agrees(coder(old(View()), c), ok, bit, View())
      ensures ok ==> IsBit(bit)
    {
      bit := 0;
      assert BitIs(coder, View(), c);
      ok := Renormalize();
      if !ok {
        return;
      }
      ghost var d := View();
      assert CellHeld(c) && ProbOk(tables, c);
      BoundIs(Range, Probs[i]);
      BoundSplits(Range, Probs[i]);
      var bound := Range / 2048 * Probs[i];
      if Code < bound {
        Range := bound;
        SetProb(i, Probs[i] + (2048 - Probs[i]) / 32, c, 0);
      } else {
        Range, Code, bit := Range - bound, Code - bound, 1;
        SetProb(i, Probs[i] - Probs[i] / 32, c, 1);
      }
      assert View() == Take(d, c, bit);
    }

    method SetProb(i: int, v: int, ghost c: Cell, ghost bit: int)
      requires Valid() && CellOk(c, contexts) && i == Flat(c) && IsBit(bit) && v == Adapt(Prob(tables, c), bit)
      modifies this`tables, Probs
      ensures Valid() && tables == AdaptAt(old(tables), c, bit)
    {
      assert CellHeld(c);
      Probs[i] := v;
      tables := AdaptAt(tables, c, bit);
      AdaptKeepsProbs(old(tables), c, bit);
      forall x ensures CellHeld(x) {
        assert old(CellHeld(x));
        if CellOk(x, contexts) && Flat(x) == i {
          FlatIsInjective(x, c, contexts);
        }
      }
    }

    /** A bit tree of so many levels in the table at base. */
    ghost predicate HasTree(t: Table, base: int, n: int) {
      TableOk(t, contexts) && base == Base(t) && n == Levels(t) >= 1 && Limit(t) == Pow2(Levels(t))
    }

    /** RC_GET_BIT at node m of a bit tree, k levels below its root. */
    method TreeBit(base: int, m: int, ghost t: Table, ghost k: nat, ghost n: nat) returns (ok: bool, bit: int)
      requires Valid() && HasTree(t, base, n) && NodeAt(m, k) && k < n
      modifies this`Range, this`Code, this`Buffer, this`tables, Probs
      ensures Valid() && Agrees(coder(old(View()), Cell(t, m)), ok, bit, View())
      ensures ok ==> NodeAt(2 * m + bit, k + 1)
    {
      NodeBelow(m, k, n);
      ok, bit := GetBit(base + m, Cell(t, m));
    }

    method TreeTurn(base: int, m: int, ghost t: Table, ghost i: nat, ghost n: nat) returns (ok: bool, m': int)
      requires Valid() && HasTree(t, base, n) && 1 <= i <= n && NodeAt(m, n - i)
      modifies this`Range, this`Code, this`Buffer, this`tables, Probs
      ensures Valid() && (ok ==> NodeAt(m', n - i + 1))
      ensures Tree(coder, old(View()), t, i, m) == if ok then Tree(coder, View(), t, i - 1, m') else Error
    {
      var bit;
      ok, bit := TreeBit(base, m, t, n - i, n);
      TreeStep(coder, old(View()), t, i, m, ok, bit, View());
      m' := 2 * m + bit;
    }

    /** RangeDecoderBitTreeDecode, in the table at base. */
    method BitTree(base: int, numLevels: int, ghost t: Table) returns (ok: bool, res: int)
      requires Valid() && HasTree(t, base, numLevels)
      modifies this`Range, this`Code, this`Buffer, this`tables, Probs
      ensures Valid() && Agrees(ReadTree(coder, old(View()), t), ok, res, View())
    {
      var i := numLevels;
      res := 1;
      ghost var goal := Tree(coder, View(), t, numLevels, 1);
      while i != 0
        invariant Valid() && 0 <= i <= numLevels && NodeAt(res, numLevels - i)
        invariant goal == Tree(coder, View(), t, i, res)
      {
        ok, res := TreeTurn(base, res, t, i, numLevels);
        if !ok {
          return;
        }
        i := i - 1;
      }
      ok, res := true, res - Pow2(numLevels);
    }

    method ReverseTurn(base: int, m: int, i: int, acc: int, ghost t: Table, ghost left: nat, ghost n: nat)
      returns (ok: bool, m': int, acc': int)
      requires Valid() && HasTree(t, base, n) && 1 <= left <= n && NodeAt(m, n - left)
      modifies this`Range, this`Code, this`Buffer, this`tables, Probs
      ensures Valid() && (ok ==> NodeAt(m', n - left + 1))
      ensures Reverse(coder, old(View()), t, left, m, i, acc) ==
                if ok then Reverse(coder, View(), t, left - 1, m', 2 * i, acc') else Error
    {
      var bit;
      ok, bit := TreeBit(base, m, t, n - left, n);
      ReverseStep(coder, old(View()), t, left, m, i, acc, ok, bit, View());
      m', acc' := 2 * m + bit, acc + bit * i;
    }

    /** The low bits of a distance, least significant first: `rep0 |= i` sets a bit that is clear. */
    method ReverseTree(base: int, numBits: int, rep: int, ghost t: Table) returns (ok: bool, rep0: int)
      requires Valid() && HasTree(t, base, numBits)
      modifies this`Range, this`Code, this`Buffer, this`tables, Probs
      ensures Valid() && Agrees(Reverse(coder, old(View()), t, Levels(t), 1, 1, rep), ok, rep0, View())
    {
      var numDirectBits, i, mi := numBits, 1, 1;
      rep0 := rep;
      ghost var goal := Reverse(coder, View(), t, numBits, 1, 1, rep);
      while numDirectBits != 0
        invariant Valid() && 0 <= numDirectBits <= numBits && NodeAt(mi, numBits - numDirectBits)
        invariant goal == Reverse(coder, View(), t, numDirectBits, mi, i, rep0)
      {
        ok, mi, rep0 := ReverseTurn(base, mi, i, rep0, t, numDirectBits, numBits);
        if !ok {
          return;
        }
        i, numDirectBits := 2 * i, numDirectBits - 1;
      }
      ok := true;
    }

    /** Bits of a distance without a model. */
    method DirectBits(n: nat, rep: int) returns (ok: bool, rep0: int)
      requires Valid() && n >= 1
      modifies this`Range, this`Code, this`Buffer
      ensures Valid() && Agrees(Directs(old(View()), n, rep), ok, rep0, View())
    {
      var numDirectBits := n;
      rep0 := rep;
      while numDirectBits != 0
        invariant Valid() && 0 <= numDirectBits
        invariant Directs(old(View()), n, rep) == Directs(View(), numDirectBits, rep0)
      {
        ghost var d := View();
        ok := Renormalize();
        if !ok {
          return;
        }
        Range, rep0 := Range / 2, 2 * rep0;
        if Code >= Range {
          Code, rep0 := Code - Range, rep0 + 1;
        }
        DirectBitKeepsOk(d);
        assert DirectBit(d).dec == View();
        numDirectBits := numDirectBits - 1;
      }
      ok := true;
    }

    /** One bit of a literal that has n bits to go. */
    method LiteralTurn(i: int, ghost context: int, ghost n: nat, ghost s: Partial) returns (ok: bool, bit: int)
      requires Valid() && CellOk(LiteralCell(context, s), contexts) && i == Flat(LiteralCell(context, s)) && n > 0
      modifies this`Range, this`Code, this`Buffer, this`tables, Probs
      ensures Valid() && (ok ==> IsBit(bit))
      ensures LiteralBits(coder, old(View()), context, n, s)
           == if ok then LiteralBits(coder, View(), context, n - 1, NextPartial(s, bit)) else Error
    {
      ok, bit := GetBit(i, LiteralCell(context, s));
    }

    /** One bit of a literal that has agreed with the match byte: whether it still does. */
    method MatchedTurn(prob: int, symbol0: int, matchByte0: int, ghost context: int, ghost left: nat)
      returns (ok: bool, symbol: int, matchByte: int, same: bool)
      requires Valid() && TableOk(Literal(context), contexts) && prob == Base(Literal(context))
      requires left <= 8 && NodeAt(symbol0, 8 - left) && symbol0 < 0x100
      modifies this`Range, this`Code, this`Buffer, this`tables, Probs
      ensures Valid() && left > 0 && (ok ==> NodeAt(symbol, 8 - left + 1))
      ensures LiteralBits(coder, old(View()), context, left, Partial(symbol0, matchByte0, true))
           == if ok then LiteralBits(coder, View(), context, left - 1, Partial(symbol, matchByte, same)) else Error
    {
      Complete(symbol0, 8 - left);
      matchByte := 2 * matchByte0;
      var bit := matchByte / 256 % 2 * 256;
      MatchedCell(context, symbol0, matchByte0, bit);
      var b;
      ok, b := LiteralTurn(prob + 0x100 + bit + symbol0, context, left, Partial(symbol0, matchByte0, true));
      symbol, same := 2 * symbol0 + b, (bit != 0) == (b != 0);
    }

    /** The literal bits that are compared with the match byte: they end with the literal, or with the
        first difference. */
    method MatchedBits(prob: int, matchByte0: int, ghost context: int, ghost n: nat)
      returns (ok: bool, symbol: int, ghost left: nat, ghost last: Partial)
      requires Valid() && TableOk(Literal(context), contexts) && prob == Base(Literal(context)) && n == 8
      modifies this`Range, this`Code, this`Buffer, this`tables, Probs
      ensures Valid() && (ok ==> left <= n && NodeAt(symbol, n - left) && last.sym == symbol && !last.matched)
      ensures LiteralBits(coder, old(View()), context, n, Partial(1, matchByte0, true))
           == if ok then LiteralBits(coder, View(), context, left, last) else Error
    {
      var matchByte := matchByte0;
      symbol, left, last := 1, n, Partial(1, matchByte0, true);
      ghost var goal := LiteralBits(coder, View(), context, n, last);
      while symbol < 0x100
        invariant Valid() && left <= n && NodeAt(symbol, n - left) && last == Partial(symbol, matchByte, true)
        invariant goal == LiteralBits(coder, View(), context, left, last)
        decreases left
      {
        var same;
        ok, symbol, matchByte, same := MatchedTurn(prob, symbol, matchByte, context, left);
        if !ok {
          return;
        }
        left, last := left - 1, Partial(symbol, matchByte, same);
        if !same {
          return;
        }
      }
      ok := true;
      Complete(symbol, n - left);
      last := last.(matched := false);
    }

    /** The bits of a literal on their own. */
    method PlainBits(prob: int, symbol0: int, ghost context: int, ghost n: nat, ghost s: Partial)
      returns (ok: bool, symbol: int)
      requires Valid() && TableOk(Literal(context), contexts) && prob == Base(Literal(context))
      requires n <= 8 && NodeAt(symbol0, 8 - n) && s.sym == symbol0 && !s.matched
      modifies this`Range, this`Code, this`Buffer, this`tables, Probs
      ensures Valid() && Agrees(LiteralBits(coder, old(View()), context, n, s), ok, symbol, View())
      ensures ok ==> NodeAt(symbol, 8)
    {
      symbol := symbol0;
      ghost var left, last := n, s;
      ghost var goal := LiteralBits(coder, View(), context, n, s);
      while symbol < 0x100
        invariant Valid() && left <= 8 && NodeAt(symbol, 8 - left) && last.sym == symbol && !last.matched
        invariant goal == LiteralBits(coder, View(), context, left, last)
        decreases left
      {
        Complete(symbol, 8 - left);
        var b;
        ok, b := LiteralTurn(prob + symbol, context, left, last);
        if !ok {
          return;
        }
        symbol, left, last := 2 * symbol + b, left - 1, NextPartial(last, b);
      }
      ok := true;
      Complete(symbol, 8 - left);
    }

    /** A literal, once its table is known. */
    method DecodeLiteral(prob: int, state: int, matchByte: int, ghost x: Context) returns (ok: bool, previousByte: int)
      requires Valid() && ContextOk(x, contexts) && prob == Base(Literal(x.literal))
      requires state == x.state && (state >= 7 ==> matchByte == x.matchByte)
      modifies this`Range, this`Code, this`Buffer, this`tables, Probs
      ensures Valid() && Agrees(ReadLiteral(coder, old(View()), x), ok, Lit(previousByte), View())
    {
      var symbol := 1;
      ghost var n, left, last := Levels(Literal(x.literal)), Levels(Literal(x.literal)), NewPartial(x);
      previousByte := 0;
      if state >= 7 {
        ok, symbol, left, last := MatchedBits(prob, matchByte, x.literal, n);
        if !ok {
          return;
        }
      }
      ok, symbol := PlainBits(prob, symbol, x.literal, left, last);
      previousByte := symbol % 256;
    }

    /** A length, with the length coder at prob. */
    method DecodeLen(prob: int, posState: int, ghost rep: bool) returns (ok: bool, len: int)
      requires Valid() && prob == LenCoder(rep) && 0 <= posState < 16
      modifies this`Range, this`Code, this`Buffer, this`tables, Probs
      ensures Valid() && Agrees(ReadLen(coder, old(View()), rep, posState), ok, len, View())
    {
      SmallPowers();
      len := 0;
      var bit;
      ok, bit := GetBit(prob, Cell(LenChoice(rep), 0));
      if !ok {
        return;
      }
      if bit == 0 {
        ok, len := BitTree(prob + 2 + 8 * posState, 3, LenLow(rep, posState));
      } else {
        ok, len := DecodeLongLen(prob, posState, rep);
      }
    }

    method DecodeLongLen(prob: int, posState: int, ghost rep: bool) returns (ok: bool, len: int)
      requires Valid() && prob == LenCoder(rep) && 0 <= posState < 16
      modifies this`Range, this`Code, this`Buffer, this`tables, Probs
      ensures Valid() && Agrees(ReadLongLen(coder, old(View()), rep, posState), ok, len, View())
    {
      SmallPowers();
      len := 0;
      var bit;
      ok, bit := GetBit(prob + 1, Cell(LenChoice2(rep), 0));
      if !ok {
        return;
      }
      if bit == 0 {
        ok, len := BitTree(prob + 130 + 8 * posState, 3, LenMid(rep, posState));
        len := len + 8;
      } else {
        ok, len := BitTree(prob + 258, 8, LenHigh(rep));
        len := len + 16;
      }
    }

    /** A distance, counted from zero. */
    method DecodeDistance(lenState: int) returns (ok: bool, rep0: int)
      requires Valid() && 0 <= lenState < 4
      modifies this`Range, this`Code, this`Buffer, this`tables, Probs
      ensures Valid() && Agrees(ReadDistance(coder, old(View()), lenState), ok, rep0, View())
    {
      SmallPowers();
      ghost var d := View();
      var posSlot;
      ok, posSlot := BitTree(432 + 64 * lenState, 6, PosSlot(lenState));
      rep0 := posSlot;
      if ok {
        CoderIsReliable(coder);
        ReadTreeOk(coder, d, PosSlot(lenState));
        ok, rep0 := DecodeSlot(posSlot);
      }
    }

    method DecodeSlot(posSlot: int) returns (ok: bool, rep0: int)
      requires Valid() && 0 <= posSlot < 64
      modifies this`Range, this`Code, this`Buffer, this`tables, Probs
      ensures Valid() && Agrees(ReadSlot(coder, old(View()), posSlot), ok, rep0, View())
    {
      ok, rep0 := true, posSlot;
      if posSlot >= 4 {
        var numDirectBits := posSlot / 2 - 1;
        rep0 := 2 + posSlot % 2;
        if posSlot < 14 {
          rep0 := ShiftLeft(rep0, numDirectBits);
          ok, rep0 := ReverseTree(688 + rep0 - posSlot - 1, numDirectBits, rep0, SpecPos(posSlot));
        } else {
          ok, rep0 := DirectBits(numDirectBits - 4, rep0);
          if !ok {
            return;
          }
          SmallPowers();
          ok, rep0 := ReverseTree(802, 4, 16 * rep0, Align);
        }
      }
    }

    method DecodeMatch(x: Context) returns (ok: bool, packet: Packet)
      requires Valid() && ContextOk(x, contexts)
      modifies this`Range, this`Code, this`Buffer, this`tables, Probs
      ensures Valid() && Agrees(ReadMatch(coder, old(View()), x), ok, packet, View())
    {
      var len, rep0;
      packet := ShortRep;
      ghost var d := View();
      ok, len := DecodeLen(818, x.posState, false);
      if !ok {
        return;
      }
      CoderIsReliable(coder);
      ReadLenOk(coder, d, false, x.posState);
      ok, rep0 := DecodeDistance(if len < 4 then len else 3);
      packet := Match(rep0, len + 2);
    }

    method DecodeRepLen(x: Context, k: int) returns (ok: bool, packet: Packet)
      requires Valid() && ContextOk(x, contexts)
      modifies this`Range, this`Code, this`Buffer, this`tables, Probs
      ensures Valid() && Agrees(ReadRepLen(coder, old(View()), x, k), ok, packet, View())
    {
      var len;
      ok, len := DecodeLen(1332, x.posState, true);
      packet := Rep(k, len + 2);
    }

    method DecodeOldRep(x: Context) returns (ok: bool, packet: Packet)
      requires Valid() && ContextOk(x, contexts)
      modifies this`Range, this`Code, this`Buffer, this`tables, Probs
      ensures Valid() && Agrees(ReadOldRep(coder, old(View()), x), ok, packet, View())
    {
      packet := ShortRep;
      var bit;
      ok, bit := GetBit(216 + x.state, Cell(IsRepG1, x.state));
      if !ok {
        return;
      }
      var k := 1;
      if bit != 0 {
        ok, bit := GetBit(228 + x.state, Cell(IsRepG2, x.state));
        if !ok {
          return;
        }
        k := if bit == 0 then 2 else 3;
      }
      ok, packet := DecodeRepLen(x, k);
    }

    method DecodeRep(x: Context) returns (ok: bool, packet: Packet)
      requires Valid() && ContextOk(x, contexts)
      modifies this`Range, this`Code, this`Buffer, this`tables, Probs
      ensures Valid() && Agrees(ReadRep(coder, old(View()), x), ok, packet, View())
    {
      packet := ShortRep;
      var bit;
      ok, bit := GetBit(204 + x.state, Cell(IsRepG0, x.state));
      if !ok {
        return;
      }
      if bit == 0 {
        ok, bit := GetBit(240 + 16 * x.state + x.posState, Cell(IsRep0Long, 16 * x.state + x.posState));
        if ok && bit != 0 {
          ok, packet := DecodeRepLen(x, 0);
        }
      } else {
        ok, packet := DecodeOldRep(x);
      }
    }

    /** One packet, read from the flat array, is the one the separate tables give. */
    method DecodePacket(x: Context) returns (ok: bool, packet: Packet)
      requires Valid() && ContextOk(x, contexts)
      modifies this`Range, this`Code, this`Buffer, this`tables, Probs
      ensures Valid() && Agrees(ReadPacket(coder, old(View()), x), ok, packet, View())
    {
      packet := ShortRep;
      var bit;
      ok, bit := GetBit(16 * x.state + x.posState, Cell(IsMatch, 16 * x.state + x.posState));
      if !ok {
        return;
      }
      if bit == 0 {
        var symbol;
        ok, symbol := DecodeLiteral(BASE_SIZE + LIT_SIZE * x.literal, x.state, x.matchByte, x);
        packet := Lit(symbol);
      } else {
        ok, packet := DecodeCopy(x);
      }
    }

    method DecodeCopy(x: Context) returns (ok: bool, packet: Packet)
      requires Valid() && ContextOk(x, contexts)
      modifies this`Range, this`Code, this`Buffer, this`tables, Probs
      ensures Valid() && Agrees(ReadCopy(coder, old(View()), x), ok, packet, View())
    {
      packet := ShortRep;
      var bit;
      ok, bit := GetBit(192 + x.state, Cell(IsRep, x.state));
      if !ok {
        return;
      }
      if bit == 0 {
        ok, packet := DecodeMatch(x);
      } else {
        ok, packet := DecodeRep(x);
      }
    }
  }

  /** The cell of a compared bit, and when the literal still agrees with the match byte after it. */
  lemma MatchedCell(context: int, sym: int, matchByte: int, bit: int)
    requires 1 <= sym < 0x100 && bit == 2 * matchByte / 256 % 2 * 256
    ensures var s := Partial(sym, matchByte, true);
            && (bit == 0 || bit == 0x100)
            && LiteralCell(context, s) == Cell(Literal(context), 0x100 + bit + sym)
            && forall b :: IsBit(b) ==> NextPartial(s, b) == Partial(2 * sym + b, 2 * matchByte, (bit != 0) == (b != 0))
  {
  }

  /** A literal whose bits so far are sym: whether its eight bits are complete. */
  lemma Complete(sym: int, k: nat)
    requires NodeAt(sym, k) && k <= 8
    ensures sym < 0x100 <==> k < 8
    ensures 1 <= sym < 0x200 && (k < 8 ==> NodeAt(2 * sym, k + 1) && NodeAt(2 * sym + 1, k + 1))
  {
    SmallPowers();
    assert Pow2(9) == 2 * Pow2(8);
    if k < 8 {
      Pow2Grows(k + 1, 8);
      assert Pow2(k + 2) == 2 * Pow2(k + 1);
    }
  }
}
