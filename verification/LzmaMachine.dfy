/** The LZMA decoder as a machine that reads packets and copies bytes, with the LZ77 expansion it
    computes, and what does not depend on how its output is cut into pieces. */
module LzmaMachine {
  import opened Words
  import opened LzmaTables
  import opened LzmaRange
  import opened LzmaPackets

  datatype Props = Props(lc: int, lp: int, pb: int)

  predicate PropsOk(p: Props) {
    0 <= p.lc < 9 && 0 <= p.lp < 5 && 0 <= p.pb < 5
  }

  /** 1 << (lc + lp) */
  function Contexts(p: Props): nat
    requires PropsOk(p)
  {
    Pow2(p.lp) * Pow2(p.lc)
  }

  /** The state of the machine besides the range decoder: what was put out so far, the remembered
      distances (counted from one), and how many bytes are still to be copied from distance rep0;
      FINISHED after the end marker. */
  datatype Lz = Lz(state: int, rep0: int, rep1: int, rep2: int, rep3: int, out: seq<byte>, len: int)

  const FINISHED: int := -1

  const START: Lz := Lz(0, 1, 1, 1, 1, [], 0)

  /** The byte at a distance back, counted from one; zero where there is none. */
  function Back(out: seq<byte>, distance: int): byte {
    if 1 <= distance <= |out| then out[|out| - distance] else 0
  }

  /** How far back a decoder that keeps the last w bytes can reach. */
  function Reach(w: int, n: int): int {
    if n < w then n else w
  }

  function LiteralContext(p: Props, n: int, previous: int): int
    requires PropsOk(p)
  {
    ShiftLeft(LowBits(n, p.lp), p.lc) + ShiftRight(previous, 8 - p.lc)
  }

  function ContextOf(p: Props, z: Lz): Context
    requires PropsOk(p)
  {
    Context(z.state, LowBits(|z.out|, p.pb), LiteralContext(p, |z.out|, Back(z.out, 1)),
            if z.state >= 7 then Back(z.out, z.rep0) else 0)
  }

  // ----- what packets mean -----

  function AfterLiteral(state: int): int {
    if state < 4 then 0 else if state < 10 then state - 3 else state - 6
  }

  datatype Option<T> = None | Some(value: T)

  /** Distance k moves to the front. */
  function MoveToFront(z: Lz, k: int): Lz {
    if k == 0 then z
    else if k == 1 then z.(rep0 := z.rep1, rep1 := z.rep0)
    else if k == 2 then z.(rep0 := z.rep2, rep1 := z.rep0, rep2 := z.rep1)
    else z.(rep0 := z.rep3, rep1 := z.rep0, rep2 := z.rep1, rep3 := z.rep2)
  }

  /** A copy of len bytes is to start, if it stays within reach. */
  function Begin(w: int, z: Lz, len: int): Option<Lz> {
    if z.rep0 > Reach(w, |z.out|) then None else Some(z.(len := len))
  }

  /** A packet changes the state and puts out a byte or begins a copy. */
  function Play(w: int, z: Lz, p: Packet): Option<Lz>
    requires PacketOk(p)
  {
    match p
    case Lit(b) => Some(z.(state := AfterLiteral(z.state), out := z.out + [b]))
    case ShortRep =>
      if Reach(w, |z.out|) == 0 then None
      else Some(z.(state := if z.state < 7 then 9 else 11, out := z.out + [Back(z.out, z.rep0)]))
    case Rep(k, len) => Begin(w, MoveToFront(z, k).(state := if z.state < 7 then 8 else 11), len)
    case Match(distance, len) =>
      var y := Lz(if z.state < 7 then 7 else 10, U32(distance + 1), z.rep0, z.rep1, z.rep2, z.out, FINISHED);
      if distance == ENDMARK then Some(y) else Begin(w, y, len)
  }

  function CopyByte(z: Lz): Lz {
    z.(out := z.out + [Back(z.out, z.rep0)], len := z.len - 1)
  }

  // ----- the invariant -----

  predicate RepOk(w: int, n: int, rep: int) {
    1 <= rep && (rep == 1 || rep <= Reach(w, n))
  }

  predicate LzOk(w: int, z: Lz) {
    && w >= 1 && 0 <= z.state < NUMSTATES && z.len >= FINISHED
    && ((z.state >= 7 || z.len > 0) && z.len != FINISHED ==> z.out != [])
    && (z.len != FINISHED ==>
          && RepOk(w, |z.out|, z.rep0) && RepOk(w, |z.out|, z.rep1)
          && RepOk(w, |z.out|, z.rep2) && RepOk(w, |z.out|, z.rep3))
  }

  datatype Machine = Machine(d: Dec, z: Lz)

  ghost predicate MachineOk(w: int, m: Machine) {
    DecOk(m.d) && LzOk(w, m.z)
  }

  /** Every packet keeps the state in range and the distances within reach. */
  lemma PlayKeepsOk(w: int, z: Lz, p: Packet)
    requires LzOk(w, z) && z.len == 0 && PacketOk(p) && Play(w, z, p).Some?
    ensures var y := Play(w, z, p).value;
            && LzOk(w, y) && z.out <= y.out && |y.out| <= |z.out| + 1
            && (|y.out| > |z.out| || y.len != 0) && (|y.out| > |z.out| ==> y.len == 0)
  {
  }

  lemma CopyKeepsOk(w: int, z: Lz)
    requires LzOk(w, z) && z.len > 0
    ensures LzOk(w, CopyByte(z))
  {
  }

  /** The tables a packet is read with are among those of the flat array. */
  lemma ContextInBounds(p: Props, z: Lz, w: int)
    requires PropsOk(p) && LzOk(w, z)
    ensures ContextOk(ContextOf(p, z), Contexts(p))
  {
    SmallPowers();
    LowBitsBelow(|z.out|, p.pb);
    Pow2Grows(p.pb, 4);
    LowBitsBelow(|z.out|, p.lp);
    ShiftRightBelow(Back(z.out, 1), 8 - p.lc, p.lc);
    ShiftLeftBelow(LowBits(|z.out|, p.lp), ShiftRight(Back(z.out, 1), 8 - p.lc), p.lc, p.lp);
    Pow2Sum(p.lp, p.lc);
  }

  // ----- runs -----

  datatype Run = Failed | Done(m: Machine)

  type Reader = (Dec, Lz) -> Read<Packet>

  /** What a run needs of the way packets are read: it yields packets and keeps the decoder within its
      bounds, and it normalises the decoder before anything else. */
  ghost predicate ReadOk(read: Reader, d: Dec, z: Lz) {
    DecOk(d) && read(d, z).Got? ==> DecOk(read(d, z).dec) && PacketOk(read(d, z).value)
  }

  ghost predicate ReadsLate(read: Reader, d: Dec, z: Lz) {
    DecOk(d) ==>
      match Normalize(d)
      case Error => read(d, z) == Error
      case Got(n, _) => DecOk(n) && read(d, z) == read(n, z)
  }

  /** The window, and the reader of packets. */
  datatype Setup = Setup(w: int, read: Reader)

  ghost predicate SetupOk(s: Setup) {
    && s.w >= 1
    && (forall d, z {:trigger ReadOk(s.read, d, z)} :: ReadOk(s.read, d, z))
    && (forall d, z {:trigger ReadsLate(s.read, d, z)} :: ReadsLate(s.read, d, z))
  }

  /** The LZMA reader of a stream with these properties. */
  function Lzma(p: Props, w: int): Setup
    requires PropsOk(p)
  {
    Setup(w, (d: Dec, z: Lz) => ReadPacket(Bit, d, ContextOf(p, z)))
  }

  lemma LzmaOk(p: Props, w: int)
    requires PropsOk(p) && w >= 1
    ensures SetupOk(Lzma(p, w))
  {
    var read := Lzma(p, w).read;
    BitIsCoder();
    CoderIsReliable(Bit);
    forall d, z ensures ReadOk(read, d, z) {
      if DecOk(d) && read(d, z).Got? {
        ReadPacketOk(Bit, d, ContextOf(p, z));
      }
    }
    forall d, z ensures ReadsLate(read, d, z) {
      if DecOk(d) {
        PacketNormalizes(d, ContextOf(p, z));
      }
    }
  }

  lemma BitIsCoder()
    ensures IsCoder(Bit)
  {
    forall d, c ensures BitIs(Bit, d, c) {
    }
  }

  lemma PacketNormalizes(d: Dec, x: Context)
    requires DecOk(d)
    ensures match Normalize(d)
            case Error => ReadPacket(Bit, d, x) == Error
            case Got(n, _) => DecOk(n) && ReadPacket(Bit, d, x) == ReadPacket(Bit, n, x)
  {
    if Normalize(d).Got? {
      NormalizeRestores(d);
      var c := Cell(IsMatch, 16 * x.state + x.posState);
      assert Bit(d, c) == Bit(Normalize(d).dec, c);
    }
  }

  /** Runs the machine until that many bytes are out, or the stream ends. */
  ghost function RunTo(s: Setup, m: Machine, target: int): Run
    requires SetupOk(s) && MachineOk(s.w, m)
    decreases target - |m.z.out|, if m.z.len == 0 then 1 else 0
  {
    if |m.z.out| >= target || m.z.len == FINISHED then Done(m)
    else if m.z.len > 0 then
      CopyKeepsOk(s.w, m.z);
      RunTo(s, m.(z := CopyByte(m.z)), target)
    else
      match Turn(s, m)
      case Failed => Failed
      case Done(n) =>
        TurnKeepsOk(s, m);
        RunTo(s, n, target)
  }

  /** One packet read and played. */
  ghost function Turn(s: Setup, m: Machine): Run
    requires SetupOk(s) && MachineOk(s.w, m)
  {
    match s.read(m.d, m.z)
    case Error => Failed
    case Got(e, packet) =>
      assert ReadOk(s.read, m.d, m.z);
      match Play(s.w, m.z, packet)
      case None => Failed
      case Some(y) => Done(Machine(e, y))
  }

  lemma TurnKeepsOk(s: Setup, m: Machine)
    requires SetupOk(s) && MachineOk(s.w, m) && m.z.len == 0 && Turn(s, m).Done?
    ensures var n := Turn(s, m).m;
            && MachineOk(s.w, n) && m.z.out <= n.z.out && |n.z.out| <= |m.z.out| + 1
            && (|n.z.out| > |m.z.out| || n.z.len != 0) && (|n.z.out| > |m.z.out| ==> n.z.len == 0)
  {
    var r := s.read(m.d, m.z);
    assert ReadOk(s.read, m.d, m.z);
    PlayKeepsOk(s.w, m.z, r.value);
  }

  /** Every reachable state keeps the invariant, whatever the input; output only grows, to the target
      unless the stream ends before. */
  lemma {:induction false} RunKeepsOk(s: Setup, m: Machine, target: int)
    requires SetupOk(s) && MachineOk(s.w, m) && RunTo(s, m, target).Done?
    ensures var n := RunTo(s, m, target).m;
            && MachineOk(s.w, n) && m.z.out <= n.z.out
            && (|n.z.out| <= target || n == m) && (|n.z.out| >= target || n.z.len == FINISHED)
    decreases target - |m.z.out|, if m.z.len == 0 then 1 else 0
  {
    if |m.z.out| >= target || m.z.len == FINISHED {
    } else if m.z.len > 0 {
      CopyKeepsOk(s.w, m.z);
      RunKeepsOk(s, m.(z := CopyByte(m.z)), target);
    } else {
      TurnKeepsOk(s, m);
      RunKeepsOk(s, Turn(s, m).m, target);
    }
  }

  /** Stopping on the way changes nothing. */
  lemma {:induction false} RunSplit(s: Setup, m: Machine, t: int, target: int)
    requires SetupOk(s) && MachineOk(s.w, m) && t <= target
    ensures match RunTo(s, m, t)
            case Failed => RunTo(s, m, target) == Failed
            case Done(n) => MachineOk(s.w, n) && RunTo(s, m, target) == RunTo(s, n, target)
    decreases t - |m.z.out|, if m.z.len == 0 then 1 else 0
  {
    if |m.z.out| >= t || m.z.len == FINISHED {
    } else if m.z.len > 0 {
      CopyKeepsOk(s.w, m.z);
      RunSplit(s, m.(z := CopyByte(m.z)), t, target);
    } else if Turn(s, m).Done? {
      TurnKeepsOk(s, m);
      RunSplit(s, Turn(s, m).m, t, target);
    }
  }

  /** What a loop keeps: a function of the machine that no step changes, and that gives the machine itself
      where the run stops. RunTo is one. */
  ghost predicate KeptAt(aim: Machine -> Run, s: Setup, target: int, m: Machine) {
    SetupOk(s) && MachineOk(s.w, m) ==>
      if |m.z.out| >= target || m.z.len == FINISHED then aim(m) == Done(m)
      else if m.z.len > 0 then aim(m) == aim(m.(z := CopyByte(m.z)))
      else match Turn(s, m)
        case Failed => aim(m) == Failed
        case Done(n) => aim(m) == aim(n)
  }

  ghost predicate Leads(aim: Machine -> Run, s: Setup, target: int) {
    forall m {:trigger KeptAt(aim, s, target, m)} :: KeptAt(aim, s, target, m)
  }

  lemma RunLeads(s: Setup, target: int) returns (aim: Machine -> Run)
    requires SetupOk(s)
    ensures Leads(aim, s, target)
    ensures forall m {:trigger aim(m)} :: MachineOk(s.w, m) ==> aim(m) == RunTo(s, m, target)
  {
    aim := m => if MachineOk(s.w, m) then RunTo(s, m, target) else Failed;
    forall m ensures KeptAt(aim, s, target, m) {
      if MachineOk(s.w, m) && m.z.len > 0 {
        CopyKeepsOk(s.w, m.z);
      } else if MachineOk(s.w, m) && m.z.len == 0 && Turn(s, m).Done? {
        TurnKeepsOk(s, m);
      }
    }
  }

  lemma StopIsKept(aim: Machine -> Run, s: Setup, target: int, m: Machine)
    requires Leads(aim, s, target) && SetupOk(s) && MachineOk(s.w, m) && (|m.z.out| >= target || m.z.len == FINISHED)
    ensures aim(m) == Done(m)
  {
    assert KeptAt(aim, s, target, m);
  }

  lemma CopyIsKept(aim: Machine -> Run, s: Setup, target: int, m: Machine)
    requires Leads(aim, s, target) && SetupOk(s) && MachineOk(s.w, m) && |m.z.out| < target && m.z.len > 0
    ensures aim(m) == aim(m.(z := CopyByte(m.z)))
  {
    assert KeptAt(aim, s, target, m);
  }

  lemma TurnIsKept(aim: Machine -> Run, s: Setup, target: int, m: Machine)
    requires Leads(aim, s, target) && SetupOk(s) && MachineOk(s.w, m) && |m.z.out| < target && m.z.len == 0
    ensures match Turn(s, m)
            case Failed => aim(m) == Failed
            case Done(n) => aim(m) == aim(n)
  {
    assert KeptAt(aim, s, target, m);
  }

  // ----- decoding in one piece, and in several -----

  /** The RC_NORMALIZE at the end of a call. */
  ghost function Finish(r: Run): Run {
    match r
    case Failed => Failed
    case Done(m) =>
      match Normalize(m.d)
      case Error => Failed
      case Got(e, _) => Done(m.(d := e))
  }

  /** A call that asks for size more bytes; after the end marker it has nothing to do. */
  ghost function Piece(s: Setup, m: Machine, size: nat): Run
    requires SetupOk(s) && MachineOk(s.w, m)
  {
    if m.z.len == FINISHED then Done(m) else Finish(RunTo(s, m, |m.z.out| + size))
  }

  lemma FinishDone(r: Run, n: Machine)
    requires r == Done(n) && Normalize(n.d).Got?
    ensures Finish(r) == Done(Machine(Normalize(n.d).dec, n.z))
  {
  }

  lemma PieceIs(s: Setup, m: Machine, size: nat)
    requires SetupOk(s) && MachineOk(s.w, m) && m.z.len != FINISHED
    ensures Piece(s, m, size) == Finish(RunTo(s, m, |m.z.out| + size))
  {
  }

  /** A machine about to decode an input. */
  lemma StartIsOk(input: seq<byte>, w: int)
    requires Init(input).Got? && w >= 1
    ensures MachineOk(w, Machine(Init(input).dec, START))
  {
    InitIsOk(input);
  }

  ghost function Decode(s: Setup, input: seq<byte>, size: nat): Run
    requires SetupOk(s)
  {
    match Init(input)
    case Error => Failed
    case Got(d, _) =>
      StartIsOk(input, s.w);
      Piece(s, Machine(d, START), size)
  }

  lemma FinishKeepsOk(s: Setup, m: Machine, size: nat)
    requires SetupOk(s) && MachineOk(s.w, m)
    ensures Piece(s, m, size).Done? ==>
              var n := Piece(s, m, size).m;
              MachineOk(s.w, n) && m.z.out <= n.z.out && (n.z.len != FINISHED ==> Normal(n.d))
  {
    if m.z.len != FINISHED && Piece(s, m, size).Done? {
      RunKeepsOk(s, m, |m.z.out| + size);
      NormalizeRestores(RunTo(s, m, |m.z.out| + size).m.d);
    }
  }

  /** Several calls in a row. */
  ghost function Pieces(s: Setup, m: Machine, sizes: seq<nat>): Run
    requires SetupOk(s) && MachineOk(s.w, m)
    decreases |sizes|
  {
    if sizes == [] then Done(m)
    else match Piece(s, m, sizes[0])
      case Failed => Failed
      case Done(n) =>
        FinishKeepsOk(s, m, sizes[0]);
        Pieces(s, n, sizes[1..])
  }

  /** Several calls from the start of an input. */
  ghost function DecodePieces(s: Setup, input: seq<byte>, sizes: seq<nat>): Run
    requires SetupOk(s)
  {
    match Init(input)
    case Error => Failed
    case Got(d, _) =>
      StartIsOk(input, s.w);
      Pieces(s, Machine(d, START), sizes)
  }

  function Sum(sizes: seq<nat>): nat {
    if sizes == [] then 0 else sizes[0] + Sum(sizes[1..])
  }

  /** Normalising early, at the end of a call, reads only what would be read anyway. */
  lemma {:induction false} NormalizeEarly(s: Setup, m: Machine, target: int)
    requires SetupOk(s) && MachineOk(s.w, m)
    ensures match Normalize(m.d)
            case Error => Finish(RunTo(s, m, target)) == Failed
            case Got(e, _) =>
              MachineOk(s.w, m.(d := e)) && Finish(RunTo(s, m, target)) == Finish(RunTo(s, m.(d := e), target))
    decreases target - |m.z.out|, if m.z.len == 0 then 1 else 0
  {
    if Normalize(m.d).Got? {
      NormalizeRestores(m.d);
    }
    if |m.z.out| >= target || m.z.len == FINISHED {
    } else if m.z.len > 0 {
      CopyKeepsOk(s.w, m.z);
      NormalizeEarly(s, m.(z := CopyByte(m.z)), target);
    } else {
      assert ReadsLate(s.read, m.d, m.z);
    }
  }

  /** Decoding in pieces is decoding in one: any calls in a row end as a single call for their sum does. */
  lemma {:induction false} PiecesAreOne(s: Setup, m: Machine, sizes: seq<nat>)
    requires SetupOk(s) && MachineOk(s.w, m) && sizes != []
    ensures Pieces(s, m, sizes) == Piece(s, m, Sum(sizes))
    decreases |sizes|
  {
    var more := sizes[1..];
    if m.z.len == FINISHED {
      if more != [] {
        PiecesAreOne(s, m, more);
      }
    } else {
      var target := |m.z.out| + Sum(sizes);
      FirstPiece(s, m, sizes[0], target);
      if Piece(s, m, sizes[0]).Done? {
        LastPiece(s, Piece(s, m, sizes[0]).m, target, more);
      }
    }
  }

  /** A call that goes on to the target ends as a shorter call and then the rest do. */
  lemma FirstPiece(s: Setup, m: Machine, size: nat, target: nat)
    requires SetupOk(s) && MachineOk(s.w, m) && m.z.len != FINISHED && |m.z.out| + size <= target
    ensures match Piece(s, m, size)
            case Failed => Finish(RunTo(s, m, target)) == Failed
            case Done(k) =>
              && MachineOk(s.w, k) && Normalize(k.d) == Got(k.d, ())
              && (k.z.len != FINISHED ==> |k.z.out| == |m.z.out| + size)
              && Finish(RunTo(s, m, target)) == Finish(RunTo(s, k, target))
  {
    var t := |m.z.out| + size;
    PieceIs(s, m, size);
    RunSplit(s, m, t, target);
    if RunTo(s, m, t).Done? {
      var n := RunTo(s, m, t).m;
      RunKeepsOk(s, m, t);
      NormalizeEarly(s, n, target);
      if Normalize(n.d).Got? {
        NormalizeRestores(n.d);
        FinishDone(Done(n), n);
      }
    }
  }

  lemma LastPiece(s: Setup, k: Machine, target: nat, more: seq<nat>)
    requires SetupOk(s) && MachineOk(s.w, k) && Normalize(k.d) == Got(k.d, ())
    requires k.z.len != FINISHED ==> target == |k.z.out| + Sum(more)
    ensures Pieces(s, k, more) == Finish(RunTo(s, k, target))
    decreases |more| + 1, 0
  {
    if more != [] {
      PiecesAreOne(s, k, more);
    }
  }

  // ----- the window -----

  /** No distance of the run exceeds v. */
  ghost predicate Within(s: Setup, m: Machine, target: int, v: int)
    requires SetupOk(s) && MachineOk(s.w, m)
    decreases target - |m.z.out|, if m.z.len == 0 then 1 else 0
  {
    if |m.z.out| >= target || m.z.len == FINISHED then true
    else if m.z.len > 0 then
      CopyKeepsOk(s.w, m.z);
      Within(s, m.(z := CopyByte(m.z)), target, v)
    else
      match Turn(s, m)
      case Failed => true
      case Done(n) =>
        TurnKeepsOk(s, m);
        (n.z.len > 0 ==> n.z.rep0 <= v) && Within(s, n, target, v)
  }

  /** A smaller window: the same run if no distance exceeds it, and otherwise an error. */
  lemma {:induction false} SmallerWindow(s: Setup, m: Machine, target: int, v: int)
    requires SetupOk(s) && MachineOk(v, m) && 1 <= v <= s.w
    ensures MachineOk(s.w, m)
    ensures RunTo(s.(w := v), m, target) == if Within(s, m, target, v) then RunTo(s, m, target) else Failed
    decreases target - |m.z.out|, if m.z.len == 0 then 1 else 0
  {
    if |m.z.out| >= target || m.z.len == FINISHED {
    } else if m.z.len > 0 {
      CopyKeepsOk(v, m.z);
      SmallerWindow(s, m.(z := CopyByte(m.z)), target, v);
    } else {
      TurnInWindow(s, m, v);
      if Turn(s.(w := v), m).Done? {
        TurnKeepsOk(s.(w := v), m);
        SmallerWindow(s, Turn(s.(w := v), m).m, target, v);
      }
    }
  }

  lemma TurnInWindow(s: Setup, m: Machine, v: int)
    requires SetupOk(s) && MachineOk(v, m) && 1 <= v <= s.w && m.z.len == 0
    ensures Turn(s, m) == Failed ==> Turn(s.(w := v), m) == Failed
    ensures Turn(s, m).Done? ==>
              Turn(s.(w := v), m) == if Turn(s, m).m.z.len > 0 && Turn(s, m).m.z.rep0 > v then Failed else Turn(s, m)
  {
    var r := s.read(m.d, m.z);
    if r.Got? {
      assert ReadOk(s.read, m.d, m.z);
    }
  }

  /** A window as long as the output is as good as any. */
  lemma LargeWindow(s: Setup, m: Machine, target: int, v: int)
    requires SetupOk(s) && MachineOk(v, m) && target <= v <= s.w && 1 <= v
    ensures MachineOk(s.w, m) && SetupOk(s.(w := v)) && RunTo(s.(w := v), m, target) == RunTo(s, m, target)
    decreases target - |m.z.out|, if m.z.len == 0 then 1 else 0
  {
    if |m.z.out| >= target || m.z.len == FINISHED {
    } else if m.z.len > 0 {
      CopyKeepsOk(v, m.z);
      LargeWindow(s, m.(z := CopyByte(m.z)), target, v);
    } else if Turn(s, m).Done? {
      var r := s.read(m.d, m.z);
      assert ReadOk(s.read, m.d, m.z);
      assert Turn(s.(w := v), m) == Turn(s, m);
      TurnKeepsOk(s.(w := v), m);
      LargeWindow(s, Turn(s, m).m, target, v);
    }
  }

  /** Resumable decoding with a dictionary of v bytes equals one-shot decoding exactly when no distance exceeds
      the dictionary, as when it is as long as the output; otherwise it reports an error. */
  lemma ResumableIsOneShot(s: Setup, v: int, input: seq<byte>, sizes: seq<nat>)
    requires SetupOk(s) && 1 <= v <= s.w && sizes != [] && Init(input).Got?
    ensures var m, n := Machine(Init(input).dec, START), Sum(sizes);
            && SetupOk(s.(w := v)) && MachineOk(v, m) && MachineOk(s.w, m)
            && Pieces(s.(w := v), m, sizes) == (if Within(s, m, n, v) then Decode(s, input, n) else Failed)
            && (n <= v ==> Pieces(s.(w := v), m, sizes) == Decode(s, input, n))
  {
    var m, n := Machine(Init(input).dec, START), Sum(sizes);
    StartIsOk(input, v);
    StartIsOk(input, s.w);
    PiecesAreOne(s.(w := v), m, sizes);
    SmallerWindow(s, m, n, v);
    if n <= v {
      LargeWindow(s, m, n, v);
    }
  }
}
