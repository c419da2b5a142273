/** LzmaDecode built without _LZMA_OUT_READ: one call decodes the whole stream. */
module LzmaOneShot {
  import opened Words
  import opened LzmaTables
  import opened LzmaRange
  import opened LzmaPackets
  import opened LzmaMachine
  import opened LzmaCoder

  const LZMA_RESULT_OK: int := 0
  const LZMA_RESULT_DATA_ERROR: int := 1

  /** The set-up reads packets as the flat decoder does. */
  ghost predicate ReaderIs(s: Setup, p: Props, coder: BitReader, d: Dec, z: Lz)
    requires PropsOk(p)
  {
    s.read(d, z) == ReadPacket(coder, d, ContextOf(p, z))
  }

  ghost predicate ReadsLzma(s: Setup, p: Props, coder: BitReader) {
    && SetupOk(s) && PropsOk(p) && IsCoder(coder)
    && forall d, z {:trigger ReaderIs(s, p, coder, d, z)} :: ReaderIs(s, p, coder, d, z)
  }

  lemma LzmaReadsLzma(p: Props, w: int)
    requires PropsOk(p) && w >= 1
    ensures ReadsLzma(Lzma(p, w), p, Bit)
  {
    LzmaOk(p, w);
    BitIsCoder();
    forall d, z ensures ReaderIs(Lzma(p, w), p, Bit, d, z) {
    }
  }

  /** The local variables of the call, so that the parts of its body can be methods of their own. */
  class Call {
    const p: Props
    const rc: RangeDecoder
    const outStream: array<byte>
    var nowPos: nat
    var previousByte: byte
    var state: int
    var rep0: int
    var rep1: int
    var rep2: int
    var rep3: int

    ghost const s: Setup

    /** The variables between packets, or with len bytes of a copy to come. */
    ghost function Z(len: int): Lz
      reads this, outStream
      requires nowPos <= outStream.Length
    {
      Lz(state, rep0, rep1, rep2, rep3, outStream[..nowPos], len)
    }

    ghost predicate Vars()
      reads this, outStream
    {
      && PropsOk(p) && s.w >= outStream.Length && s.w >= 1
      && nowPos <= outStream.Length && previousByte == Back(outStream[..nowPos], 1)
    }

    ghost predicate Valid()
      reads this, outStream, rc, rc.Probs
    {
      Vars() && ReadsLzma(s, p, rc.coder) && rc.Valid() && rc.contexts == Contexts(p)
    }

    ghost function M(len: int): Machine
      reads this, outStream, rc
      requires nowPos <= outStream.Length && rc.Buffer <= |rc.inStream|
    {
      Machine(rc.View(), Z(len))
    }

    constructor (p: Props, rc: RangeDecoder, outStream: array<byte>, ghost s: Setup)
      requires PropsOk(p) && rc.Valid() && rc.contexts == Contexts(p)
      requires ReadsLzma(s, p, rc.coder) && s.w >= outStream.Length
      ensures Valid() && Z(0) == START
      ensures this.p == p && this.rc == rc && this.outStream == outStream && this.s == s
    {
      this.p, this.rc, this.outStream, this.s := p, rc, outStream, s;
      nowPos, previousByte, state := 0, 0, 0;
      rep0, rep1, rep2, rep3 := 1, 1, 1, 1;
    }

    /** outStream[nowPos++] = previousByte */
    method Put(b: byte)
      requires Vars() && nowPos < outStream.Length
      modifies this`nowPos, this`previousByte, outStream
      ensures Vars() && outStream[..nowPos] == old(outStream[..nowPos]) + [b]
    {
      previousByte := b;
      outStream[nowPos] := b;
      nowPos := nowPos + 1;
    }

    /** previousByte = outStream[nowPos - rep0] */
    method CopyOne()
      requires Vars() && nowPos < outStream.Length && 1 <= rep0 <= nowPos
      modifies this`nowPos, this`previousByte, outStream
      ensures Vars()
      ensures outStream[..nowPos] == old(outStream[..nowPos]) + [Back(old(outStream[..nowPos]), rep0)]
    {
      Put(outStream[nowPos - rep0]);
    }

    /** What a packet does, up to the first byte of a copy: len is the number of bytes to copy. */
    method Obey(packet: Packet) returns (ok: bool, len: int)
      requires Vars() && LzOk(s.w, Z(0)) && nowPos < outStream.Length && PacketOk(packet)
      modifies this`nowPos, this`previousByte, this`state, this`rep0, this`rep1, this`rep2, this`rep3, outStream
      ensures Vars()
      ensures match Play(s.w, old(Z(0)), packet)
              case None => !ok
              case Some(y) => ok && y == Z(len)
    {
      ok, len := true, 0;
      match packet {
        case Lit(b) =>
          Put(b);
          state := AfterLiteral(state);
        case ShortRep =>
          if nowPos == 0 {
            return false, 0;
          }
          state := if state < 7 then 9 else 11;
          CopyOne();
        case Rep(k, n) =>
          TakeRep(k);
          state := if state < 7 then 8 else 11;
          ok, len := rep0 <= nowPos, n;
        case Match(distance, n) =>
          rep0, rep1, rep2, rep3 := U32(distance + 1), rep0, rep1, rep2;
          state := if state < 7 then 7 else 10;
          if rep0 == 0 {
            return true, FINISHED;
          }
          ok, len := rep0 <= nowPos, n;
      }
    }

    /** The choice among the remembered distances. */
    method TakeRep(k: int)
      requires nowPos <= outStream.Length && 0 <= k < 4
      modifies this`rep0, this`rep1, this`rep2, this`rep3
      ensures Z(0) == MoveToFront(old(Z(0)), k)
    {
      if k != 0 {
        var distance;
        if k == 1 {
          distance := rep1;
        } else {
          if k == 2 {
            distance := rep2;
          } else {
            distance := rep3;
            rep3 := rep2;
          }
          rep2 := rep1;
        }
        rep1 := rep0;
        rep0 := distance;
      }
    }

    /** The byte a literal is matched against, after a copy. */
    method MatchByte() returns (b: byte)
      requires Vars() && LzOk(s.w, Z(0))
      ensures b == if state >= 7 then Back(Z(0).out, rep0) else 0
    {
      b := if state >= 7 then outStream[nowPos - rep0] else 0;
    }

    /** The context of the next packet: the same as the machine's. */
    method NextContext() returns (x: Context)
      requires Valid() && LzOk(s.w, Z(0))
      ensures x == ContextOf(p, Z(0)) && ContextOk(x, Contexts(p))
    {
      ContextInBounds(p, Z(0), s.w);
      var matchByte := MatchByte();
      x := Context(state, LowBits(nowPos, p.pb), LiteralContext(p, nowPos, previousByte), matchByte);
    }

    /** One packet. */
    method OnePacket() returns (ok: bool, len: int)
      requires Valid() && MachineOk(s.w, M(0)) && nowPos < outStream.Length
      modifies this`nowPos, this`previousByte, this`state, this`rep0, this`rep1, this`rep2, this`rep3, outStream
      modifies rc`Range, rc`Code, rc`Buffer, rc`tables, rc.Probs
      ensures Valid()
      ensures match Turn(s, old(M(0)))
              case Failed => !ok
              case Done(m) => ok && m == M(len)
    {
      len := 0;
      ghost var m := M(0);
      var x := NextContext();
      var packet;
      assert ReaderIs(s, p, rc.coder, m.d, m.z) && ReadOk(s.read, m.d, m.z);
      ok, packet := rc.DecodePacket(x);
      if ok {
        assert Z(0) == m.z;
        ok, len := Obey(packet);
      }
    }

    /** The bytes of a copy, as many as there is room for. */
    method CopyRest(len0: int) returns (len: int)
      requires Valid() && MachineOk(s.w, M(len0)) && len0 >= 0
      modifies this`nowPos, this`previousByte, outStream
      ensures Valid() && MachineOk(s.w, M(len)) && (len == 0 || nowPos == outStream.Length)
      ensures nowPos + len <= old(nowPos) + len0
      ensures len >= 0 && RunTo(s, old(M(len0)), outStream.Length) == RunTo(s, M(len), outStream.Length)
      ensures nowPos >= old(nowPos) && (len0 > 0 && old(nowPos) < outStream.Length ==> nowPos > old(nowPos))
    {
      len := len0;
      ghost var goal := RunTo(s, M(len), outStream.Length);
      while len != 0 && nowPos < outStream.Length
        invariant Valid() && len >= 0 && MachineOk(s.w, M(len)) && nowPos + len == old(nowPos) + len0
        invariant goal == RunTo(s, M(len), outStream.Length)
      {
        CopyKeepsOk(s.w, Z(len));
        ghost var m := M(len);
        CopyOne();
        len := len - 1;
        assert M(len) == m.(z := CopyByte(m.z));
      }
    }

    /** One packet, and of the copy it begins as much as there is room for. */
    method OneTurn(ghost goal: Run) returns (ok: bool, len: int)
      requires Valid() && MachineOk(s.w, M(0)) && nowPos < outStream.Length
      requires goal == RunTo(s, M(0), outStream.Length)
      modifies this`nowPos, this`previousByte, this`state, this`rep0, this`rep1, this`rep2, this`rep3, outStream
      modifies rc`Range, rc`Code, rc`Buffer, rc`tables, rc.Probs
      ensures Valid() && (!ok ==> goal == Failed)
      ensures ok ==> MachineOk(s.w, M(len)) && (len == 0 || len == FINISHED || nowPos == outStream.Length)
      ensures ok ==> goal == RunTo(s, M(len), outStream.Length)
      ensures ok ==> nowPos > old(nowPos) || (len == FINISHED && nowPos == old(nowPos))
    {
      ghost var m := M(0);
      TurnOk(s, m, outStream.Length);
      ok, len := OnePacket();
      if ok && len > 0 {
        len := CopyRest(len);
      }
    }

    /** The main loop. */
    method Decode() returns (ok: bool, ghost len: int)
      requires Valid() && MachineOk(s.w, M(0)) && nowPos == 0
      modifies this`nowPos, this`previousByte, this`state, this`rep0, this`rep1, this`rep2, this`rep3, outStream
      modifies rc`Range, rc`Code, rc`Buffer, rc`tables, rc.Probs
      ensures Valid()
      ensures Agree(RunTo(s, old(M(0)), outStream.Length), ok, M(len))
    {
      var n := 0;
      len := 0;
      ghost var goal := RunTo(s, M(0), outStream.Length);
      while nowPos < outStream.Length && n != FINISHED
        invariant Valid() && MachineOk(s.w, M(n)) && (n == 0 || n == FINISHED || nowPos == outStream.Length)
        invariant n == len && goal == RunTo(s, M(n), outStream.Length)
        decreases outStream.Length - nowPos, if n == FINISHED then 0 else 1
      {
        ok, n := OneTurn(goal);
        if !ok {
          return;
        }
        len := n;
      }
      ok := true;
    }

    /** The main loop and the last RC_NORMALIZE. */
    method DecodeAll() returns (ok: bool)
      requires Valid() && MachineOk(s.w, M(0)) && nowPos == 0
      modifies this`nowPos, this`previousByte, this`state, this`rep0, this`rep1, this`rep2, this`rep3, outStream
      modifies rc`Range, rc`Code, rc`Buffer, rc`tables, rc.Probs
      ensures Valid()
      ensures match Piece(s, old(M(0)), outStream.Length)
              case Failed => !ok
              case Done(m) => ok && m.d == rc.View() && m.z.out == outStream[..nowPos]
    {
      PieceIs(s, M(0), outStream.Length);
      ghost var len;
      ok, len := Decode();
      if ok {
        ok := rc.Renormalize();
      }
    }
  }

  /** LzmaDecode: the probabilities start at one half, and the call ends with a last RC_NORMALIZE. */
  method LzmaDecode(p: Props, Probs: array<int>, inStream: seq<byte>, outStream: array<byte>, ghost s: Setup,
                    ghost coder: BitReader)
    returns (result: int, inSizeProcessed: nat, outSizeProcessed: nat)
    requires PropsOk(p) && Probs.Length >= NumProbs(Contexts(p))
    requires ReadsLzma(s, p, coder) && s.w >= outStream.Length
    modifies Probs, outStream
    ensures match LzmaMachine.Decode(s, inStream, outStream.Length)
            case Failed => result == LZMA_RESULT_DATA_ERROR
            case Done(m) =>
              && result == LZMA_RESULT_OK
              && outSizeProcessed == |m.z.out| <= outStream.Length && outStream[..outSizeProcessed] == m.z.out
              && inSizeProcessed == |inStream| - |m.d.rest| && inStream[inSizeProcessed..] == m.d.rest
  {
    result, inSizeProcessed, outSizeProcessed := LZMA_RESULT_DATA_ERROR, 0, 0;
    var rc := new RangeDecoder(Contexts(p), Probs, coder);
    rc.FillProbs();
    var ok := rc.InitInput(inStream);
    if ok {
      StartIsOk(inStream, s.w);
      var call := new Call(p, rc, outStream, s);
      ok := call.DecodeAll();
      if ok {
        result, inSizeProcessed, outSizeProcessed := LZMA_RESULT_OK, rc.Buffer, call.nowPos;
      }
    }
  }

  /** How a call ends: with an error, or with the machine in the state of the run. */
  ghost predicate Agree(r: Run, ok: bool, m: Machine) {
    match r
    case Failed => !ok
    case Done(n) => ok && n == m
  }

  lemma TurnOk(s: Setup, m: Machine, target: int)
    requires SetupOk(s) && MachineOk(s.w, m) && m.z.len == 0 && |m.z.out| < target
    ensures Turn(s, m).Done? ==>
              var n := Turn(s, m).m;
              && MachineOk(s.w, n) && (|n.z.out| > |m.z.out| || n.z.len != 0)
              && RunTo(s, m, target) == RunTo(s, n, target)
    ensures Turn(s, m) == Failed ==> RunTo(s, m, target) == Failed
  {
    if Turn(s, m).Done? {
      TurnKeepsOk(s, m);
    }
  }

  // ----- LzmaDecodeProperties -----

  /** The byte that holds all three properties. */
  function PropsByte(p: Props): int {
    (p.pb * 5 + p.lp) * 9 + p.lc
  }

  /** Reads the five bytes before a stream: an error if there are fewer, or if the first is not the byte of
      any properties; else those properties, and the dictionary size, at least one. */
  method LzmaDecodeProperties(propsData: seq<byte>, size: int) returns (result: int, p: Props, dictionarySize: int)
    requires size <= |propsData|
    ensures result == LZMA_RESULT_OK <==> size >= 5 && propsData[0] < 9 * 5 * 5
    ensures result != LZMA_RESULT_OK ==> result == LZMA_RESULT_DATA_ERROR
    ensures result == LZMA_RESULT_OK ==>
              && PropsOk(p) && PropsByte(p) == propsData[0]
              && p.lc == propsData[0] % 9 && p.lp == propsData[0] / 9 % 5 && p.pb == propsData[0] / 45
              && var a: int, b: int, c: int := propsData[2], propsData[3], propsData[4];
                 var d := propsData[1] + 0x100 * a + 0x1_0000 * b + 0x100_0000 * c;
              dictionarySize == (if d == 0 then 1 else d) && 1 <= dictionarySize < W32
  {
    result, p, dictionarySize := LZMA_RESULT_DATA_ERROR, Props(0, 0, 0), 0;
    if size < 5 {
      return;
    }
    var prop0: int := propsData[0];
    if prop0 >= 9 * 5 * 5 {
      return;
    }
    var pb, lp := 0, 0;
    while prop0 >= 9 * 5
      invariant 0 <= prop0 && propsData[0] == pb * 45 + prop0 && 0 <= pb <= 5
    {
      pb, prop0 := pb + 1, prop0 - 9 * 5;
    }
    while prop0 >= 9
      invariant 0 <= prop0 && propsData[0] == pb * 45 + lp * 9 + prop0 && 0 <= lp <= 5
    {
      lp, prop0 := lp + 1, prop0 - 9;
    }
    p := Props(prop0, lp, pb);
    var weight: int := 1;
    for i := 0 to 4
      invariant weight == if i == 0 then 1 else if i == 1 then 0x100 else if i == 2 then 0x1_0000
                          else if i == 3 then 0x100_0000 else W32
      invariant dictionarySize == Word(if i > 3 then propsData[4] else 0, if i > 2 then propsData[3] else 0,
                                       if i > 1 then propsData[2] else 0, if i > 0 then propsData[1] else 0)
    {
      dictionarySize := dictionarySize + propsData[1 + i] * weight;
      weight := weight * 0x100;
    }
    if dictionarySize == 0 {
      dictionarySize := 1;
    }
    result := LZMA_RESULT_OK;
  }

  /** No two properties share a byte, and every byte below 225 is the byte of some. */
  lemma PropsByteIsInvertible(p: Props, q: Props)
    requires PropsOk(p) && PropsOk(q) && PropsByte(p) == PropsByte(q)
    ensures p == q && 0 <= PropsByte(p) < 225
  {
  }
}
