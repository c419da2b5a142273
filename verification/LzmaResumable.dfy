/** LzmaDecode built with _LZMA_OUT_READ: the state is kept between calls, and copies come from a
    circular dictionary. */
module LzmaResumable {
  import opened Words
  import opened LzmaTables
  import opened LzmaRange
  import opened LzmaPackets
  import opened LzmaMachine
  import opened LzmaCoder
  import opened LzmaOneShot

  const NEEDINIT: int := -2

  /** Where the byte `distance` back is in a circular dictionary. */
  function Behind(pos: int, distance: int, size: int): int {
    if distance <= pos then pos - distance else pos - distance + size
  }

  /** The index the code computes, in 32-bit words. */
  function Index(pos: int, distance: int, size: int): int {
    var i := U32(pos - distance);
    if i >= size then U32(i + size) else i
  }

  /** It is the right one unless the difference, wrapped, still looks like an index: the dictionary would
      have to be larger than half the address space. */
  lemma IndexIsRight(pos: int, distance: int, size: int)
    requires 0 <= pos < size < W32 && 1 <= distance <= size
    ensures Index(pos, distance, size) == Behind(pos, distance, size) <==> distance - pos <= W32 - size
  {
    if distance > pos {
      assert U32(pos - distance) == pos - distance + W32;
      if pos - distance + W32 >= size {
        assert U32(pos - distance + W32 + size) == pos - distance + size;
      }
    }
  }

  class Window {
    const buffer: array<byte>
    var pos: int

    /** Everything put into the dictionary so far. */
    ghost var history: seq<byte>

    ghost predicate Valid()
      reads this, buffer
    {
      && 1 <= buffer.Length <= W31 && 0 <= pos < buffer.Length
      && forall i {:trigger Held(i)} :: Held(i)
    }

    /** The byte i back is where it should be; before the first byte there is a zero. */
    ghost predicate Held(i: int)
      reads this, buffer
    {
      (i == 1 || 1 <= i <= |history|) && i <= buffer.Length && 0 <= pos < buffer.Length ==>
        0 <= Behind(pos, i, buffer.Length) < buffer.Length
        && buffer[Behind(pos, i, buffer.Length)] == Back(history, i)
    }

    constructor (buffer: array<byte>)
      requires 1 <= buffer.Length <= W31
      ensures this.buffer == buffer
    {
      this.buffer, pos, history := buffer, 0, [];
    }

    /** dictionaryPos = 0; dictionary[dictionarySize - 1] = 0; */
    method Reset()
      requires 1 <= buffer.Length <= W31
      modifies this, buffer
      ensures Valid() && history == []
    {
      pos, history := 0, [];
      buffer[buffer.Length - 1] := 0;
    }

    /** dictionary[pos] for pos = dictionaryPos - rep0 */
    method ByteAt(rep0: int) returns (b: byte)
      requires Valid() && (rep0 == 1 || 1 <= rep0 <= Reach(buffer.Length, |history|))
      ensures b == Back(history, rep0)
    {
      IndexIsRight(pos, rep0, buffer.Length);
      assert Held(rep0);
      b := buffer[Index(pos, rep0, buffer.Length)];
    }

    /** The byte before dictionaryPos. */
    method Previous() returns (b: byte)
      requires Valid()
      ensures b == Back(history, 1)
    {
      assert Held(1);
      b := if pos == 0 then buffer[buffer.Length - 1] else buffer[pos - 1];
    }

    /** dictionary[dictionaryPos] = b; if (++dictionaryPos == dictionarySize) dictionaryPos = 0; */
    method Put(b: byte)
      requires Valid()
      modifies this, buffer
      ensures Valid() && history == old(history) + [b]
    {
      buffer[pos] := b;
      pos := pos + 1;
      if pos == buffer.Length {
        pos := 0;
      }
      history := history + [b];
      forall i ensures Held(i) {
        assert old(Held(i - 1));
      }
    }
  }

  class Decoder {
    const p: Props
    const rc: RangeDecoder
    const window: Window
    var state: int
    var rep0: int
    var rep1: int
    var rep2: int
    var rep3: int
    var remainLen: int
    var globalPos: int
    var distanceLimit: int

    /** Of the call under way: its output position, and what had been put out before. */
    var nowPos: nat
    ghost var start: nat

    /** How often globalPos has wrapped. */
    ghost var wraps: nat

    ghost const s: Setup

    ghost function Z(len: int): Lz
      reads this, window
    {
      Lz(state, rep0, rep1, rep2, rep3, window.history, len)
    }

    ghost function M(len: int): Machine
      reads this, window, rc
      requires rc.Buffer <= |rc.inStream|
    {
      Machine(rc.View(), Z(len))
    }

    /** The output is what the call has added to the history. */
    ghost predicate Output(outStream: array<byte>)
      reads this, window, outStream
    {
      && nowPos <= outStream.Length && start + nowPos == |window.history|
      && outStream[..nowPos] == window.history[start..] && outStream != window.buffer
    }

    /** The variables, with len bytes of a copy to come. */
    ghost predicate Vars(len: int)
      reads this, window, window.buffer
    {
      && PropsOk(p) && window.Valid() && s.w == window.buffer.Length
      && distanceLimit == Reach(s.w, |window.history| + if len > 0 then len else 0)
      && 0 <= globalPos < W32 && globalPos + W32 * wraps == start
    }

    ghost predicate Ready(len: int)
      reads this, window, window.buffer, rc, rc.Probs
    {
      Vars(len) && ReadsLzma(s, p, rc.coder) && rc.Valid() && rc.contexts == Contexts(p) && MachineOk(s.w, M(len))
    }

    /** Between calls. */
    ghost predicate Valid()
      reads this, window, window.buffer, rc, rc.Probs
    {
      && PropsOk(p) && ReadsLzma(s, p, rc.coder) && 1 <= s.w == window.buffer.Length <= W31
      && rc.Sized() && rc.contexts == Contexts(p)
      && (remainLen != NEEDINIT ==> Ready(remainLen) && start == |window.history|)
    }

    /** LzmaDecoderInit */
    constructor (p: Props, Probs: array<int>, dictionary: array<byte>, ghost s: Setup, ghost coder: BitReader)
      requires PropsOk(p) && Probs.Length >= NumProbs(Contexts(p)) && 1 <= dictionary.Length <= W31
      requires ReadsLzma(s, p, coder) && s.w == dictionary.Length
      ensures Valid() && remainLen == NEEDINIT && fresh(rc) && fresh(window)
      ensures this.s == s && rc.Probs == Probs && window.buffer == dictionary
    {
      this.p, this.s := p, s;
      rc := new RangeDecoder(Contexts(p), Probs, coder);
      window := new Window(dictionary);
      remainLen := NEEDINIT;
    }

    /** The machine a call starts from, given the input it gets. */
    ghost function Before(input: seq<byte>): Run
      reads this, window, rc
      requires remainLen != NEEDINIT ==> rc.Buffer <= |rc.inStream|
    {
      if remainLen == NEEDINIT then
        match Init(input)
        case Error => Failed
        case Got(d, _) => Done(Machine(d, START))
      else Done(Machine(rc.View().(rest := input), Z(remainLen)))
    }

    /** outStream[nowPos++] = b, and into the dictionary */
    method Put(b: byte, outStream: array<byte>)
      requires Output(outStream) && nowPos < outStream.Length && window.Valid()
      modifies this`nowPos, window, window.buffer, outStream
      ensures Output(outStream) && window.Valid() && nowPos == old(nowPos) + 1
      ensures window.history == old(window.history) + [b]
    {
      outStream[nowPos] := b;
      nowPos := nowPos + 1;
      window.Put(b);
    }

    method CopyOne(outStream: array<byte>)
      requires Output(outStream) && nowPos < outStream.Length && window.Valid()
      requires rep0 == 1 || 1 <= rep0 <= Reach(window.buffer.Length, |window.history|)
      modifies this`nowPos, window, window.buffer, outStream
      ensures Output(outStream) && window.Valid() && nowPos == old(nowPos) + 1
      ensures window.history == old(window.history) + [Back(old(window.history), rep0)]
    {
      var b := window.ByteAt(rep0);
      Put(b, outStream);
    }

    /** if (distanceLimit < dictionarySize) distanceLimit++; */
    method OneMore()
      modifies this`distanceLimit
      ensures distanceLimit ==
                if old(distanceLimit) < window.buffer.Length then old(distanceLimit) + 1 else old(distanceLimit)
    {
      if distanceLimit < window.buffer.Length {
        distanceLimit := distanceLimit + 1;
      }
    }

    /** distanceLimit for a copy of len bytes, all of them at once */
    method ManyMore(len: int)
      requires 0 <= distanceLimit <= window.buffer.Length && len >= 0
      modifies this`distanceLimit
      ensures distanceLimit == Reach(window.buffer.Length, old(distanceLimit) + len)
    {
      distanceLimit := if window.buffer.Length - distanceLimit > len then distanceLimit + len else window.buffer.Length;
    }

    /** What a packet does, up to the first byte of a copy. */
    method Obey(packet: Packet, outStream: array<byte>) returns (ok: bool, len: int)
      requires Vars(0) && LzOk(s.w, Z(0)) && Output(outStream) && nowPos < outStream.Length && PacketOk(packet)
      modifies this`nowPos, this`state, this`rep0, this`rep1, this`rep2, this`rep3, this`distanceLimit
      modifies window, window.buffer, outStream
      ensures Output(outStream) && (ok ==> Vars(len)) && nowPos >= old(nowPos)
      ensures match Play(s.w, old(Z(0)), packet)
              case None => !ok
              case Some(y) => ok && y == Z(len)
    {
      ok, len := true, 0;
      match packet {
        case Lit(b) =>
          Put(b, outStream);
          OneMore();
          state := AfterLiteral(state);
        case ShortRep =>
          if distanceLimit == 0 {
            return false, 0;
          }
          state := if state < 7 then 9 else 11;
          CopyOne(outStream);
          OneMore();
        case Rep(_, _) => ok, len := ObeyCopy(packet);
        case Match(_, _) => ok, len := ObeyCopy(packet);
      }
    }

    /** A packet that begins a copy, or ends the stream. */
    method ObeyCopy(packet: Packet) returns (ok: bool, len: int)
      requires Vars(0) && LzOk(s.w, Z(0)) && PacketOk(packet) && (packet.Rep? || packet.Match?)
      modifies this`state, this`rep0, this`rep1, this`rep2, this`rep3, this`distanceLimit
      ensures ok ==> Vars(len)
      ensures match Play(s.w, old(Z(0)), packet)
              case None => !ok
              case Some(y) => ok && y == Z(len)
    {
      match packet {
        case Rep(k, n) =>
          TakeRep(k);
          state := if state < 7 then 8 else 11;
          ok, len := BeginCopy(n);
        case Match(distance, n) =>
          rep0, rep1, rep2, rep3 := U32(distance + 1), rep0, rep1, rep2;
          state := if state < 7 then 7 else 10;
          if rep0 == 0 {
            return true, FINISHED;
          }
          ok, len := BeginCopy(n);
      }
    }

    /** The check of a distance, and the new limit. */
    method BeginCopy(n: int) returns (ok: bool, len: int)
      requires Vars(0) && n > 0
      modifies this`distanceLimit
      ensures len == n && ok == (rep0 <= Reach(s.w, |window.history|)) && (ok ==> Vars(n))
    {
      ok, len := rep0 <= distanceLimit, n;
      if ok {
        ManyMore(n);
      }
    }

    method TakeRep(k: int)
      requires 0 <= k < 4
      modifies this`rep0, this`rep1, this`rep2, this`rep3
      ensures Z(0) == MoveToFront(old(Z(0)), k)
    {
      if k != 0 {
        var distance;
        if k == 1 {
          distance := rep1;
        } else {
          if k == 2 {
            distance := rep2;
          } else {
            distance := rep3;
            rep3 := rep2;
          }
          rep2 := rep1;
        }
        rep1 := rep0;
        rep0 := distance;
      }
    }

    /** The low bits of the position are those of the number of bytes put out, although globalPos wraps. */
    lemma PositionBits(k: nat)
      requires 0 <= globalPos && globalPos + W32 * wraps == start && start + nowPos == |window.history| && k <= 32
      ensures LowBits(U32(nowPos + globalPos), k) == LowBits(|window.history|, k)
    {
      WordPower();
      AddModulo(globalPos, nowPos, wraps);
      LowBitsModulo(|window.history|, k, 32);
    }

    method NextContext(outStream: array<byte>) returns (x: Context)
      requires Ready(0) && Output(outStream)
      ensures x == ContextOf(p, Z(0)) && ContextOk(x, Contexts(p))
    {
      ContextInBounds(p, Z(0), s.w);
      PositionBits(p.pb);
      PositionBits(p.lp);
      var position := U32(nowPos + globalPos);
      var previousByte := window.Previous();
      var matchByte := 0;
      if state >= 7 {
        matchByte := window.ByteAt(rep0);
      }
      x := Context(state, LowBits(position, p.pb), LiteralContext(p, position, previousByte), matchByte);
    }

    method OnePacket(outStream: array<byte>) returns (ok: bool, len: int)
      requires Ready(0) && Output(outStream) && nowPos < outStream.Length
      modifies this`nowPos, this`state, this`rep0, this`rep1, this`rep2, this`rep3, this`distanceLimit
      modifies window, window.buffer, outStream
      modifies rc`Range, rc`Code, rc`Buffer, rc`tables, rc.Probs
      ensures Output(outStream) && nowPos >= old(nowPos) && rc.Buffer <= |rc.inStream|
      ensures ok ==> nowPos > old(nowPos) || len != 0
      ensures match Turn(s, old(M(0)))
              case Failed => !ok
              case Done(m) => ok && m == M(len) && Ready(len)
    {
      len := 0;
      ghost var m := M(0);
      TurnOk(s, m, |m.z.out| + 1);
      var x := NextContext(outStream);
      var packet;
      assert ReaderIs(s, p, rc.coder, m.d, m.z) && ReadOk(s.read, m.d, m.z);
      ok, packet := rc.DecodePacket(x);
      if ok {
        assert Z(0) == m.z;
        ok, len := Obey(packet, outStream);
      }
    }

    method CopyTurn(len: int, outStream: array<byte>)
      requires Ready(len) && Output(outStream) && len > 0 && nowPos < outStream.Length
      modifies this`nowPos, window, window.buffer, outStream
      ensures Ready(len - 1) && Output(outStream) && nowPos == old(nowPos) + 1
      ensures M(len - 1) == old(M(len)).(z := CopyByte(old(Z(len))))
    {
      CopyKeepsOk(s.w, Z(len));
      CopyOne(outStream);
    }

    /** The bytes of a copy, as many as there is room for. */
    method CopyRest(len0: int, outStream: array<byte>, ghost aim: Machine -> Run, ghost goal: Run) returns (len: int)
      requires Ready(len0) && Output(outStream) && len0 >= 0
      requires Leads(aim, s, start + outStream.Length) && goal == aim(M(len0))
      modifies this`nowPos, window, window.buffer, outStream
      ensures Ready(len) && Output(outStream) && len >= 0
      ensures (len == 0 || nowPos == outStream.Length) && nowPos + len == old(nowPos) + len0
      ensures goal == aim(M(len))
    {
      len := len0;
      while len != 0 && nowPos < outStream.Length
        invariant Ready(len) && Output(outStream) && len >= 0 && nowPos + len == old(nowPos) + len0
        invariant goal == aim(M(len))
      {
        CopyIsKept(aim, s, start + outStream.Length, M(len));
        CopyTurn(len, outStream);
        len := len - 1;
      }
    }

    /** One packet, and of the copy it begins as much as there is room for. */
    method OneTurn(outStream: array<byte>, ghost aim: Machine -> Run, ghost goal: Run) returns (ok: bool, len: int)
      requires Ready(0) && Output(outStream) && nowPos < outStream.Length
      requires Leads(aim, s, start + outStream.Length) && goal == aim(M(0))
      modifies this`nowPos, this`state, this`rep0, this`rep1, this`rep2, this`rep3, this`distanceLimit
      modifies window, window.buffer, outStream
      modifies rc`Range, rc`Code, rc`Buffer, rc`tables, rc.Probs
      ensures Output(outStream) && rc.Buffer <= |rc.inStream|
      ensures ok ==> Ready(len) && (len == 0 || len == FINISHED || nowPos == outStream.Length)
      ensures ok ==> nowPos > old(nowPos) || (len == FINISHED && nowPos == old(nowPos))
      ensures goal == if ok then aim(M(len)) else Failed
    {
      TurnIsKept(aim, s, start + outStream.Length, M(0));
      ok, len := OnePacket(outStream);
      if ok && len > 0 {
        len := CopyRest(len, outStream, aim, goal);
      }
    }

    /** The main loop, with no copy under way unless there is no room for it. */
    method MainLoop(len0: int, outStream: array<byte>, ghost aim: Machine -> Run, ghost goal: Run)
      returns (ok: bool, len: int)
      requires Ready(len0) && Output(outStream) && (len0 == 0 || nowPos == outStream.Length)
      requires Leads(aim, s, start + outStream.Length) && goal == aim(M(len0))
      modifies this`nowPos, this`state, this`rep0, this`rep1, this`rep2, this`rep3, this`distanceLimit
      modifies window, window.buffer, outStream
      modifies rc`Range, rc`Code, rc`Buffer, rc`tables, rc.Probs
      ensures Output(outStream) && rc.Buffer <= |rc.inStream|
      ensures ok ==> Ready(len) && (len == FINISHED || nowPos == outStream.Length)
      ensures goal == if ok then aim(M(len)) else Failed
    {
      ok, len := true, len0;
      while nowPos < outStream.Length && len != FINISHED
        invariant Ready(len) && Output(outStream) && (len == 0 || len == FINISHED || nowPos == outStream.Length)
        invariant goal == aim(M(len))
        decreases outStream.Length - nowPos, if len == FINISHED then 0 else 1
      {
        ok, len := OneTurn(outStream, aim, goal);
        if !ok {
          return;
        }
      }
      ok := true;
    }

    /** The copy left over from the call before, and the main loop: the call's run ends in `goal`. */
    method Loop(outStream: array<byte>, ghost aim: Machine -> Run, ghost goal: Run) returns (ok: bool, len: int)
      requires Ready(remainLen) && Output(outStream) && nowPos == 0 && remainLen >= 0
      requires Leads(aim, s, start + outStream.Length) && goal == aim(M(remainLen))
      modifies this`nowPos, this`state, this`rep0, this`rep1, this`rep2, this`rep3, this`distanceLimit
      modifies window, window.buffer, outStream
      modifies rc`Range, rc`Code, rc`Buffer, rc`tables, rc.Probs
      ensures Output(outStream) && rc.Buffer <= |rc.inStream| && (ok ==> Ready(len))
      ensures Agree(goal, ok, M(len))
    {
      len := CopyRest(remainLen, outStream, aim, goal);
      ok, len := MainLoop(len, outStream, aim, goal);
      if ok {
        StopIsKept(aim, s, start + outStream.Length, M(len));
      }
    }

    /** if (len == kLzmaNeedInitId): start a new stream. */
    method Initialise(input: seq<byte>) returns (ok: bool)
      requires Valid() && remainLen == NEEDINIT
      modifies this, rc, rc.Probs, window, window.buffer
      ensures rc.Buffer <= |rc.inStream| && Agree(old(Before(input)), ok, M(0))
      ensures ok ==> Valid() && remainLen == 0 && rc.inStream == input
    {
      rc.FillProbs();
      ResetVariables();
      ok := rc.InitInput(input);
      if ok {
        StartIsOk(input, s.w);
        remainLen := 0;
      }
    }

    method ResetVariables()
      requires 1 <= window.buffer.Length <= W31 && PropsOk(p) && s.w == window.buffer.Length
      modifies this, window, window.buffer
      ensures Vars(0) && Z(0) == START && start == 0 && remainLen == old(remainLen)
    {
      state, rep0, rep1, rep2, rep3 := 0, 1, 1, 1, 1;
      globalPos, distanceLimit, start, nowPos, wraps := 0, 0, 0, 0, 0;
      window.Reset();
    }

    /** What a call that started from m answers and leaves behind, when its run ends in r. */
    ghost predicate Answers(r: Run, m: Machine, input: seq<byte>, outStream: array<byte>, result: int, inSize: nat,
                            outSize: nat)
      reads this, window, window.buffer, rc, rc.Probs, outStream
    {
      match r
      case Failed => result == LZMA_RESULT_DATA_ERROR
      case Done(n) =>
        && result == LZMA_RESULT_OK && Valid() && remainLen != NEEDINIT && n == M(remainLen)
        && outSize <= outStream.Length && m.z.out + outStream[..outSize] == n.z.out
        && inSize == |input| - |n.d.rest| && input[inSize..] == n.d.rest
    }

    /** One call, with the next part of the input: it goes on where the last one stopped, and leaves
        the state to go on from. After an error nothing is promised. */
    method Decode(input: seq<byte>, outStream: array<byte>) returns (result: int, inSize: nat, outSize: nat)
      requires Valid() && outStream != window.buffer
      modifies this, rc, rc.Probs, window, window.buffer, outStream
      ensures match old(Before(input))
              case Failed => result == LZMA_RESULT_DATA_ERROR
              case Done(m) =>
                && MachineOk(s.w, m)
                && Answers(Piece(s, m, outStream.Length), m, input, outStream, result, inSize, outSize)
    {
      result, inSize, outSize := LZMA_RESULT_DATA_ERROR, 0, 0;
      if remainLen == NEEDINIT {
        var ok := Initialise(input);
        if !ok {
          return;
        }
      } else {
        rc.inStream, rc.Buffer := input, 0;
      }
      if remainLen == FINISHED {
        result := LZMA_RESULT_OK;
      } else {
        result, inSize, outSize := Continue(outStream);
      }
    }

    method Continue(outStream: array<byte>) returns (result: int, inSize: nat, outSize: nat)
      requires Valid() && outStream != window.buffer && remainLen >= 0
      modifies this, rc`Range, rc`Code, rc`Buffer, rc`tables, rc.Probs, window, window.buffer, outStream
      ensures Answers(Piece(s, old(M(remainLen)), outStream.Length), old(M(remainLen)), rc.inStream,
                      outStream, result, inSize, outSize)
    {
      nowPos := 0;
      ghost var m := M(remainLen);
      ghost var aim, goal := PieceAim(s, m, outStream.Length);
      result, inSize, outSize := GoOn(outStream, aim, goal);
    }

    /** The last RC_NORMALIZE. */
    method LastNormalize(ghost len: int) returns (ok: bool)
      requires Ready(len)
      modifies rc`Range, rc`Code, rc`Buffer
      ensures rc.Buffer <= |rc.inStream| && (ok ==> Ready(len))
      ensures Agree(Finish(Done(old(M(len)))), ok, M(len))
    {
      ghost var n := M(len);
      ok := rc.Renormalize();
      if ok {
        FinishDone(Done(n), n);
        FinishOk(s, n);
        assert M(len) == n.(d := Normalize(n.d).dec);
      }
    }

    /** The loop and the last RC_NORMALIZE. */
    method LoopAndNormalize(outStream: array<byte>, ghost aim: Machine -> Run, ghost goal: Run)
      returns (ok: bool, len: int)
      requires Ready(remainLen) && Output(outStream) && nowPos == 0 && remainLen >= 0
      requires Leads(aim, s, start + outStream.Length) && goal == aim(M(remainLen))
      modifies this`nowPos, this`state, this`rep0, this`rep1, this`rep2, this`rep3, this`distanceLimit
      modifies window, window.buffer, outStream
      modifies rc`Range, rc`Code, rc`Buffer, rc`tables, rc.Probs
      ensures Output(outStream) && rc.Buffer <= |rc.inStream| && (ok ==> Ready(len))
      ensures Agree(Finish(goal), ok, M(len))
    {
      ok, len := Loop(outStream, aim, goal);
      if ok {
        ok := LastNormalize(len);
      }
    }

    /** The call, once its input is in place. */
    method GoOn(outStream: array<byte>, ghost aim: Machine -> Run, ghost goal: Run)
      returns (result: int, inSize: nat, outSize: nat)
      requires Valid() && Output(outStream) && remainLen >= 0 && nowPos == 0
      requires Leads(aim, s, start + outStream.Length) && goal == aim(M(remainLen))
      requires Finish(goal).Done? ==> window.history <= Finish(goal).m.z.out
      modifies this, rc`Range, rc`Code, rc`Buffer, rc`tables, rc.Probs, window, window.buffer, outStream
      ensures Answers(Finish(goal), old(M(remainLen)), rc.inStream, outStream, result, inSize, outSize)
    {
      result, inSize, outSize := LZMA_RESULT_DATA_ERROR, 0, 0;
      var ok, len := LoopAndNormalize(outStream, aim, goal);
      if ok {
        PrefixAndRest(old(window.history), window.history);
        Save(len);
        result, inSize, outSize := LZMA_RESULT_OK, rc.Buffer, nowPos;
      }
    }

    /** vs->GlobalPos = globalPos + nowPos; vs->RemainLen = len; */
    method Save(len: int)
      requires Ready(len) && start + nowPos == |window.history| && len != NEEDINIT
      modifies this`globalPos, this`remainLen, this`start, this`wraps
      ensures Ready(len) && remainLen == len && start == |window.history|
    {
      wraps := wraps + (globalPos + nowPos) / W32;
      globalPos, remainLen, start := U32(globalPos + nowPos), len, start + nowPos;
    }
  }

  /** One call of several: it takes its input from pos on, and gives what it puts out. */
  method OnePiece(dec: Decoder, input: seq<byte>, pos: nat, size: nat) returns (ok: bool, pos': nat, more: seq<byte>)
    requires dec.Valid() && pos <= |input|
    modifies dec, dec.rc, dec.rc.Probs, dec.window, dec.window.buffer
    ensures match old(dec.Before(input[pos..]))
            case Failed => !ok
            case Done(m) => MachineOk(dec.s.w, m) && Goes(dec, Piece(dec.s, m, size), m, input, ok, pos', more)
  {
    var buf := new byte[size];
    var result, inSize, outSize := dec.Decode(input[pos..], buf);
    ok, pos', more := result == LZMA_RESULT_OK, pos, [];
    if ok {
      assert input[pos..][inSize..] == input[pos + inSize..];
      pos', more := pos + inSize, buf[..outSize];
    }
  }

  /** How a call from m ends, when its run ends in r: it has put out more, and is at pos in the input. */
  ghost predicate Goes(dec: Decoder, r: Run, m: Machine, input: seq<byte>, ok: bool, pos: nat, more: seq<byte>)
    reads dec, dec.window, dec.window.buffer, dec.rc, dec.rc.Probs
  {
    match r
    case Failed => !ok
    case Done(n) =>
      && ok && dec.Valid() && dec.remainLen != NEEDINIT && n == dec.M(dec.remainLen)
      && pos <= |input| && n.d.rest == input[pos..] && m.z.out + more == n.z.out
  }

  /** Decodes an input by calls for so many bytes each, every one with the input the others have left. Together
      they put out what the pieces of the machine's run do. */
  method DecodeInPieces(dec: Decoder, input: seq<byte>, sizes: seq<nat>) returns (ok: bool, out: seq<byte>)
    requires dec.Valid() && dec.remainLen == NEEDINIT && sizes != []
    modifies dec, dec.rc, dec.rc.Probs, dec.window, dec.window.buffer
    ensures SetupOk(dec.s) && OutputOf(DecodePieces(dec.s, input, sizes), ok, out)
  {
    var pos: nat := 0;
    ok, out := true, [];
    ghost var goal := DecodePieces(dec.s, input, sizes);
    for k := 0 to |sizes|
      invariant dec.Valid() && pos <= |input| && ok
      invariant k == 0 ==> dec.remainLen == NEEDINIT && pos == 0 && out == []
      invariant k > 0 ==> UnderWay(dec, input, pos, out) && goal == Pieces(dec.s, dec.M(dec.remainLen), sizes[k..])
    {
      ghost var before := dec.Before(input[pos..]);
      assert input[0..] == input && sizes[0..] == sizes;
      var more;
      ok, pos, more := OnePiece(dec, input, pos, sizes[k]);
      if before.Done? {
        PiecesStep(dec.s, before.m, sizes, k);
      }
      if !ok {
        return;
      }
      out := out + more;
    }
  }

  /** Between two calls: the decoder has put out `out`, and its input goes on at pos. */
  ghost predicate UnderWay(dec: Decoder, input: seq<byte>, pos: nat, out: seq<byte>)
    reads dec, dec.window, dec.window.buffer, dec.rc, dec.rc.Probs
  {
    && dec.Valid() && dec.remainLen != NEEDINIT && pos <= |input|
    && dec.M(dec.remainLen).d.rest == input[pos..] && out == dec.window.history
  }

  ghost predicate OutputOf(r: Run, ok: bool, out: seq<byte>) {
    match r
    case Failed => !ok
    case Done(n) => ok && out == n.z.out
  }

  /** What DecodeInPieces promises of its answer, for a dictionary of v bytes, is what LzmaDecode promises of the
      same output in one call, if no distance exceeds the dictionary; otherwise the answer is an error. */
  lemma PiecesGiveTheSameBytes(s: Setup, v: int, input: seq<byte>, sizes: seq<nat>, ok: bool, out: seq<byte>)
    requires SetupOk(s) && 1 <= v <= s.w && sizes != [] && Init(input).Got?
    requires SetupOk(s.(w := v)) && OutputOf(DecodePieces(s.(w := v), input, sizes), ok, out)
    ensures MachineOk(s.w, Machine(Init(input).dec, START))
    ensures Within(s, Machine(Init(input).dec, START), Sum(sizes), v) || Sum(sizes) <= v ==>
              OutputOf(LzmaMachine.Decode(s, input, Sum(sizes)), ok, out)
    ensures !Within(s, Machine(Init(input).dec, START), Sum(sizes), v) ==> !ok
  {
    ResumableIsOneShot(s, v, input, sizes);
  }

  lemma PiecesStep(s: Setup, m: Machine, sizes: seq<nat>, k: nat)
    requires SetupOk(s) && MachineOk(s.w, m) && k < |sizes|
    ensures match Piece(s, m, sizes[k])
            case Failed => Pieces(s, m, sizes[k..]) == Failed
            case Done(n) => MachineOk(s.w, n) && Pieces(s, m, sizes[k..]) == Pieces(s, n, sizes[k + 1..])
  {
    FinishKeepsOk(s, m, sizes[k]);
    assert sizes[k..][1..] == sizes[k + 1..];
  }

  lemma PrefixAndRest(a: seq<byte>, b: seq<byte>)
    requires a <= b
    ensures b == a + b[|a|..]
  {
  }

  /** What the loop of a call keeps, and how it ends the call. */
  lemma PieceAim(s: Setup, m: Machine, size: nat) returns (aim: Machine -> Run, goal: Run)
    requires SetupOk(s) && MachineOk(s.w, m) && m.z.len != FINISHED
    ensures Leads(aim, s, |m.z.out| + size) && goal == aim(m) && Piece(s, m, size) == Finish(goal)
    ensures Finish(goal).Done? ==> m.z.out <= Finish(goal).m.z.out
  {
    aim := RunLeads(s, |m.z.out| + size);
    goal := aim(m);
    PieceIs(s, m, size);
    FinishKeepsOk(s, m, size);
  }

  lemma FinishOk(s: Setup, n: Machine)
    requires SetupOk(s) && MachineOk(s.w, n) && Normalize(n.d).Got?
    ensures MachineOk(s.w, n.(d := Normalize(n.d).dec))
  {
    NormalizeRestores(n.d);
  }

  lemma AddModulo(globalPos: int, n: int, wraps: nat)
    requires globalPos >= 0 && n >= 0
    ensures U32(n + globalPos) == (globalPos + W32 * wraps + n) % W32
  {
  }
}
