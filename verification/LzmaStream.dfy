/** Whole streams: the LZ77 expansion of packets, and decoding as the inverse of encoding them. */
module LzmaStream {
  import opened Words
  import opened LzmaTables
  import opened LzmaRange
  import opened LzmaPackets
  import opened LzmaMachine

  // ----- LZ77 expansion -----

  /** n bytes more, each the one that many bytes back. */
  function Copies(out: seq<byte>, distance: int, n: nat): seq<byte>
    decreases n
  {
    if n == 0 then out else Copies(out + [Back(out, distance)], distance, n - 1)
  }

  /** Each copied byte equals the byte a distance back, also when the copy overlaps itself; so a copy repeats
      the last `distance` bytes. */
  lemma {:induction false} CopiesRepeat(out: seq<byte>, distance: int, n: nat)
    requires 1 <= distance <= |out|
    ensures var r := Copies(out, distance, n);
            && |r| == |out| + n && out <= r
            && forall i :: |out| <= i < |r| ==> r[i] == r[i - distance]
    decreases n
  {
    if n > 0 {
      var out' := out + [Back(out, distance)];
      CopiesRepeat(out', distance, n - 1);
      var r := Copies(out, distance, n);
      assert r == Copies(out', distance, n - 1) && out' <= r;
      assert r[|out|] == out'[|out|] && r[|out| - distance] == out'[|out| - distance];
    }
  }

  /** The copy that has begun, to its end. */
  function CopyAll(z: Lz): Lz {
    if z.len <= 0 then z else z.(out := Copies(z.out, z.rep0, z.len), len := 0)
  }

  lemma {:induction false} CopiesAdd(out: seq<byte>, distance: int, n: nat)
    ensures |Copies(out, distance, n)| == |out| + n && out <= Copies(out, distance, n)
    decreases n
  {
    if n > 0 {
      CopiesAdd(out + [Back(out, distance)], distance, n - 1);
    }
  }

  lemma CopyAllKeepsOk(w: int, z: Lz)
    requires LzOk(w, z)
    ensures LzOk(w, CopyAll(z)) && CopyAll(z).len <= 0 && z.out <= CopyAll(z).out
    ensures |CopyAll(z).out| == |z.out| + if z.len > 0 then z.len else 0
  {
    if z.len > 0 {
      CopiesAdd(z.out, z.rep0, z.len);
    }
  }

  ghost predicate PacketsOk(ps: seq<Packet>) {
    forall i :: 0 <= i < |ps| ==> PacketOk(ps[i])
  }

  /** The expansion of packets, one whole packet after another; the end marker comes last. */
  ghost function Expand(w: int, z: Lz, ps: seq<Packet>): Option<Lz>
    requires LzOk(w, z) && PacketsOk(ps)
    decreases |ps|
  {
    if ps == [] then Some(z)
    else if z.len != 0 then None
    else match Play(w, z, ps[0])
      case None => None
      case Some(y) =>
        PlayKeepsOk(w, z, ps[0]);
        CopyAllKeepsOk(w, y);
        Expand(w, CopyAll(y), ps[1..])
  }

  lemma {:induction false} ExpandGrows(w: int, z: Lz, ps: seq<Packet>)
    requires LzOk(w, z) && PacketsOk(ps)
    requires Expand(w, z, ps).Some?
    ensures z.out <= Expand(w, z, ps).value.out && LzOk(w, Expand(w, z, ps).value)
    ensures ps != [] ==> z.len == 0 && Expand(w, z, ps).value.len <= 0
    decreases |ps|
  {
    if ps != [] {
      var y := Play(w, z, ps[0]).value;
      PlayKeepsOk(w, z, ps[0]);
      CopyAllKeepsOk(w, y);
      ExpandGrows(w, CopyAll(y), ps[1..]);
    }
  }

  // ----- encoding a stream -----

  /** Packets that can be played one after another from z. */
  ghost predicate Expands(s: Setup, z: Lz, ps: seq<Packet>) {
    SetupOk(s) && LzOk(s.w, z) && PacketsOk(ps) && Expand(s.w, z, ps).Some?
  }

  type Encoder = (Lz, Packet) -> seq<Decision>

  /** The encoder of packets yields bits, and the reader inverts it. */
  ghost predicate EncodesBits(e: Encoder, z: Lz, p: Packet) {
    PacketOk(p) ==> AreBits(e(z, p))
  }

  ghost predicate Inverts(read: Reader, e: Encoder, d: Dec, z: Lz, p: Packet) {
    PacketOk(p) && Reads(Bit, d, e(z, p)) ==> read(d, z) == Got(After(Bit, d, e(z, p)), p)
  }

  ghost predicate EncoderOk(s: Setup, e: Encoder) {
    && (forall z, p {:trigger EncodesBits(e, z, p)} :: EncodesBits(e, z, p))
    && (forall d, z, p {:trigger Inverts(s.read, e, d, z, p)} :: Inverts(s.read, e, d, z, p))
  }

  /** The LZMA encoder of packets. */
  function LzmaEncoder(p: Props): Encoder
    requires PropsOk(p)
  {
    (z: Lz, q: Packet) => PacketDecs(ContextOf(p, z), q)
  }

  lemma LzmaEncoderOk(p: Props, w: int)
    requires PropsOk(p)
    ensures EncoderOk(Lzma(p, w), LzmaEncoder(p))
  {
    var s, e := Lzma(p, w), LzmaEncoder(p);
    forall z, q ensures EncodesBits(e, z, q) {
      if PacketOk(q) {
        PacketBits(ContextOf(p, z), q);
      }
    }
    forall d, z, q ensures Inverts(s.read, e, d, z, q) {
      if PacketOk(q) && Reads(Bit, d, e(z, q)) {
        PacketReads(Bit, d, ContextOf(p, z), q);
      }
    }
  }

  /** The decisions that encode the packets, each in the state its predecessors lead to. */
  ghost function StreamDecs(s: Setup, e: Encoder, z: Lz, ps: seq<Packet>): seq<Decision>
    requires Expands(s, z, ps)
    decreases |ps|
  {
    if ps == [] then []
    else
      var y := Play(s.w, z, ps[0]).value;
      PlayKeepsOk(s.w, z, ps[0]);
      CopyAllKeepsOk(s.w, y);
      e(z, ps[0]) + StreamDecs(s, e, CopyAll(y), ps[1..])
  }

  lemma {:induction false} StreamBits(s: Setup, e: Encoder, z: Lz, ps: seq<Packet>)
    requires Expands(s, z, ps) && EncoderOk(s, e)
    ensures AreBits(StreamDecs(s, e, z, ps))
    decreases |ps|
  {
    if ps != [] {
      var y := Play(s.w, z, ps[0]).value;
      PlayKeepsOk(s.w, z, ps[0]);
      CopyAllKeepsOk(s.w, y);
      assert EncodesBits(e, z, ps[0]);
      StreamBits(s, e, CopyAll(y), ps[1..]);
    }
  }

  /** The bytes that encode the packets. */
  ghost function EncodeStream(s: Setup, e: Encoder, ps: seq<Packet>): seq<byte>
    requires Expands(s, START, ps) && EncoderOk(s, e)
  {
    StreamBits(s, e, START, ps);
    EncodeBytes(StreamDecs(s, e, START, ps))
  }

  /** Running a copy to its end, if the target is not before that. */
  lemma {:induction false} RunCopies(s: Setup, m: Machine, target: int)
    requires SetupOk(s) && MachineOk(s.w, m) && |m.z.out| + m.z.len <= target
    ensures MachineOk(s.w, m.(z := CopyAll(m.z)))
    ensures RunTo(s, m, target) == RunTo(s, m.(z := CopyAll(m.z)), target)
    decreases m.z.len
  {
    CopyAllKeepsOk(s.w, m.z);
    if m.z.len > 0 {
      CopyKeepsOk(s.w, m.z);
      RunCopies(s, m.(z := CopyByte(m.z)), target);
    }
  }

  /** A target that a stream can be decoded to: the end of its output, or beyond when an end marker follows. */
  predicate TargetOk(z: Lz, target: int) {
    if z.len == FINISHED then target > |z.out| else target == |z.out|
  }

  /** A decoder that takes the decisions of a stream puts out its expansion. */
  lemma {:induction false} StreamReads(s: Setup, e: Encoder, m: Machine, ps: seq<Packet>, target: int)
    requires Expands(s, m.z, ps) && EncoderOk(s, e) && MachineOk(s.w, m) && m.z.len == 0
    requires TargetOk(Expand(s.w, m.z, ps).value, target)
    requires Reads(Bit, m.d, StreamDecs(s, e, m.z, ps))
    ensures RunTo(s, m, target) == Done(Machine(After(Bit, m.d, StreamDecs(s, e, m.z, ps)), Expand(s.w, m.z, ps).value))
    decreases |ps|
  {
    if ps != [] {
      var x, y := m.z, Play(s.w, m.z, ps[0]).value;
      PlayKeepsOk(s.w, m.z, ps[0]);
      CopyAllKeepsOk(s.w, y);
      var a, b := e(x, ps[0]), StreamDecs(s, e, CopyAll(y), ps[1..]);
      ReadsSplit(Bit, m.d, a, b);
      assert Inverts(s.read, e, m.d, x, ps[0]);
      ExpandGrows(s.w, CopyAll(y), ps[1..]);
      OneTurn(s, m, ps[0], target);
      var n := Machine(After(Bit, m.d, a), CopyAll(y));
      if y.len == FINISHED {
        assert ps[1..] == [];
      } else {
        StreamReads(s, e, n, ps[1..], target);
      }
    }
  }

  /** Reading a packet and completing the copy it begins. */
  lemma OneTurn(s: Setup, m: Machine, packet: Packet, target: int)
    requires SetupOk(s) && MachineOk(s.w, m) && m.z.len == 0 && PacketOk(packet)
    requires s.read(m.d, m.z).Got? && s.read(m.d, m.z).value == packet
    requires Play(s.w, m.z, packet).Some? && |CopyAll(Play(s.w, m.z, packet).value).out| <= target
    requires Play(s.w, m.z, packet).value.len == FINISHED ==> |m.z.out| < target
    ensures var n := Machine(s.read(m.d, m.z).dec, CopyAll(Play(s.w, m.z, packet).value));
            MachineOk(s.w, n) && RunTo(s, m, target) == RunTo(s, n, target)
  {
    var y := Play(s.w, m.z, packet).value;
    PlayKeepsOk(s.w, m.z, packet);
    CopyAllKeepsOk(s.w, y);
    assert ReadOk(s.read, m.d, m.z);
    var n := Machine(s.read(m.d, m.z).dec, y);
    assert Turn(s, m) == Done(n);
    if y.len == 0 {
      assert |y.out| > |m.z.out|;
    }
    RunCopies(s, n, target);
  }

  /** Decoding inverts encoding, for every list of packets that has an expansion: the decoder puts out that
      expansion, with the encoder's probabilities, and stops right after the encoder's bytes. */
  lemma DecodeInvertsEncode(p: Props, w: int, ps: seq<Packet>, size: nat, tail: seq<byte>)
    requires PropsOk(p) && w >= 1 && PacketsOk(ps)
    requires Expand(w, START, ps).Some? && TargetOk(Expand(w, START, ps).value, size)
    ensures var s := Lzma(p, w);
            && Expands(s, START, ps) && EncoderOk(s, LzmaEncoder(p))
            && var r := Decode(s, EncodeStream(s, LzmaEncoder(p), ps) + tail, size);
            && r.Done? && r.m.z == Expand(w, START, ps).value && r.m.d.rest == tail
            && r.m.d.tables == TablesAfter(map[], StreamDecs(s, LzmaEncoder(p), START, ps))
  {
    LzmaOk(p, w);
    LzmaEncoderOk(p, w);
    DecodeInverts(Lzma(p, w), LzmaEncoder(p), ps, size, tail);
  }

  lemma DecodeInverts(s: Setup, e: Encoder, ps: seq<Packet>, size: nat, tail: seq<byte>)
    requires Expands(s, START, ps) && EncoderOk(s, e) && TargetOk(Expand(s.w, START, ps).value, size)
    ensures var r := Decode(s, EncodeStream(s, e, ps) + tail, size);
            && r.Done? && r.m.z == Expand(s.w, START, ps).value && r.m.d.rest == tail
            && r.m.d.tables == TablesAfter(map[], StreamDecs(s, e, START, ps))
  {
    var ds := StreamDecs(s, e, START, ps);
    StreamBits(s, e, START, ps);
    DecoderInvertsEncoder(ds, tail);
    DecodeStream(s, e, EncodeBytes(ds) + tail, ps, size);
  }

  lemma DecodeStream(s: Setup, e: Encoder, input: seq<byte>, ps: seq<Packet>, size: nat)
    requires Expands(s, START, ps) && EncoderOk(s, e) && TargetOk(Expand(s.w, START, ps).value, size)
    requires Init(input).Got?
    requires Reads(Bit, Init(input).dec, StreamDecs(s, e, START, ps))
    requires Normalize(After(Bit, Init(input).dec, StreamDecs(s, e, START, ps))).Got?
    ensures Decode(s, input, size)
         == Done(Machine(Normalize(After(Bit, Init(input).dec, StreamDecs(s, e, START, ps))).dec,
                         Expand(s.w, START, ps).value))
  {
    StartIsOk(input, s.w);
    var m, z := Machine(Init(input).dec, START), Expand(s.w, START, ps).value;
    StreamReads(s, e, m, ps, size);
    PieceIs(s, m, size);
    FinishDone(RunTo(s, m, size), Machine(After(Bit, m.d, StreamDecs(s, e, START, ps)), z));
  }

  // ----- every run is an expansion -----

  /** The packets a run reads. */
  ghost function PacketsRead(s: Setup, m: Machine, target: int): seq<Packet>
    requires SetupOk(s) && MachineOk(s.w, m)
    decreases target - |m.z.out|, if m.z.len == 0 then 1 else 0
  {
    if |m.z.out| >= target || m.z.len == FINISHED then []
    else if m.z.len > 0 then
      CopyKeepsOk(s.w, m.z);
      PacketsRead(s, m.(z := CopyByte(m.z)), target)
    else
      match Turn(s, m)
      case Failed => []
      case Done(n) =>
        TurnKeepsOk(s, m);
        [s.read(m.d, m.z).value] + PacketsRead(s, n, target)
  }

  /** Whatever the input, what is put out is the expansion of the packets read, but for the bytes of the
      last copy that are still to come. */
  lemma {:induction false} RunIsExpansion(s: Setup, m: Machine, target: int)
    requires SetupOk(s) && MachineOk(s.w, m) && RunTo(s, m, target).Done?
    ensures var n, ps := RunTo(s, m, target).m, PacketsRead(s, m, target);
            && PacketsOk(ps) && LzOk(s.w, CopyAll(m.z))
            && Expand(s.w, CopyAll(m.z), ps) == Some(CopyAll(n.z)) && n.z.out <= CopyAll(n.z).out
    decreases target - |m.z.out|, if m.z.len == 0 then 1 else 0
  {
    CopyAllKeepsOk(s.w, m.z);
    if |m.z.out| >= target || m.z.len == FINISHED {
    } else if m.z.len > 0 {
      CopyKeepsOk(s.w, m.z);
      RunIsExpansion(s, m.(z := CopyByte(m.z)), target);
    } else {
      var packet, n := s.read(m.d, m.z).value, Turn(s, m).m;
      TurnKeepsOk(s, m);
      assert ReadOk(s.read, m.d, m.z);
      RunIsExpansion(s, n, target);
      var ps := PacketsRead(s, n, target);
      assert ([packet] + ps)[1..] == ps;
    }
  }
}
