/** What a list of packets means, said of the packets alone: the remembered distances are the four used most
    recently, the state tells the kinds of the last packets, and the output is that of LZ77. */
module LzmaHistory {
  import opened Words
  import opened LzmaTables
  import opened LzmaRange
  import opened LzmaPackets
  import opened LzmaMachine
  import opened LzmaStream

  function Last<T>(s: seq<T>): (r: T)
    requires s != []
  {
    s[|s| - 1]
  }

  function Front<T>(s: seq<T>): (r: seq<T>)
    requires s != []
    ensures |r| == |s| - 1 && r + [Last(s)] == s
  {
    s[..|s| - 1]
  }

  /** Packets are played in order: the last one where those before it lead to. */
  lemma {:induction false} ExpandLast(w: int, z: Lz, ps: seq<Packet>)
    requires LzOk(w, z) && PacketsOk(ps) && ps != [] && Expand(w, z, ps).Some?
    ensures PacketsOk(Front(ps)) && Expand(w, z, Front(ps)).Some?
    ensures var y := Expand(w, z, Front(ps)).value;
            && y.len == 0 && LzOk(w, y) && Play(w, y, Last(ps)).Some?
            && Expand(w, z, ps).value == CopyAll(Play(w, y, Last(ps)).value)
    decreases |ps|
  {
    var y := CopyAll(Play(w, z, ps[0]).value);
    PlayKeepsOk(w, z, ps[0]);
    CopyAllKeepsOk(w, Play(w, z, ps[0]).value);
    if |ps| > 1 {
      ExpandLast(w, y, ps[1..]);
      assert Front(ps)[1..] == Front(ps[1..]);
    } else {
      assert Front(ps) == [] && ps[1..] == [];
    }
  }

  // ----- the remembered distances -----

  /** The remembered distances, counted from one. */
  function Distances(z: Lz): seq<int> {
    [z.rep0, z.rep1, z.rep2, z.rep3]
  }

  /** A packet that names a remembered distance moves it to the front, and one with a distance of its own
      puts that before the first three. */
  lemma PlayDistances(w: int, z: Lz, p: Packet)
    requires PacketOk(p) && Play(w, z, p).Some?
    ensures var s, t := Distances(z), Distances(CopyAll(Play(w, z, p).value));
            match p
            case Lit(_) => t == s
            case ShortRep => t == s
            case Rep(k, _) => t == [s[k]] + s[..k] + s[k + 1..]
            case Match(distance, _) => t == [if distance == ENDMARK then 0 else distance + 1] + s[..3]
  {
    var s := Distances(z);
    if p.Rep? {
      assert s[..3] == [z.rep0, z.rep1, z.rep2];
      assert s[..2] == [z.rep0, z.rep1];
      assert s[..1] == [z.rep0];
    }
  }

  /** A distance that was used, and the packet that introduced it: two packets may introduce equal distances,
      which are then remembered twice. */
  datatype Use = Use(id: nat, distance: int)

  /** The ids used after use t, and whether use t is the last of its id. */
  ghost function LaterIds(us: seq<Use>, t: nat): set<nat> {
    set i | t < i < |us| :: us[i].id
  }

  /** Use t is the last of its id, and k other ids were used since. */
  ghost predicate Recent(us: seq<Use>, k: nat, t: nat) {
    t < |us| && us[t].id !in LaterIds(us, t) && |LaterIds(us, t)| == k
  }

  /** The distance used is used again. */
  ghost predicate UsesAgain(us: seq<Use>, k: nat, vs: seq<Use>) {
    exists t: nat :: Recent(us, k, t) && vs == us + [us[t]]
  }

  /** A packet that copies uses a distance: the k-th of the most recently used, or a new one. */
  ghost predicate Uses(us: seq<Use>, p: Packet, vs: seq<Use>) {
    match p
    case Lit(_) => vs == us
    case ShortRep => UsesAgain(us, 0, vs)
    case Rep(k, _) => k >= 0 && UsesAgain(us, k, vs)
    case Match(distance, _) => vs == us + [Use(|us|, U32(distance + 1))]
  }

  /** The uses of packets, in order. At first, four distances of one are remembered. */
  ghost predicate History(ps: seq<Packet>, us: seq<Use>)
    decreases |ps|
  {
    if ps == [] then us == [Use(0, 1), Use(1, 1), Use(2, 1), Use(3, 1)]
    else exists vs :: History(Front(ps), vs) && Uses(vs, Last(ps), us)
  }

  /** The k-th of the most recently used distances. */
  ghost predicate IsRecent(us: seq<Use>, k: nat, distance: int) {
    exists t: nat :: Recent(us, k, t) && us[t].distance == distance
  }

  /** These are the most recently used distances, the last used first. */
  ghost predicate MostRecent(us: seq<Use>, ds: seq<int>) {
    forall k :: 0 <= k < |ds| ==> IsRecent(us, k, ds[k])
  }

  ghost predicate IdsBelow(us: seq<Use>) {
    forall i :: 0 <= i < |us| ==> us[i].id < |us|
  }

  /** Of two last uses, fewer ids were used since the later one; so no two have the same rank. */
  lemma LaterIsMoreRecent(us: seq<Use>, j: nat, s: nat, k: nat, t: nat)
    requires Recent(us, j, s) && Recent(us, k, t) && s < t
    ensures j > k
  {
    assert LaterIds(us, t) < LaterIds(us, s) by {
      assert us[t].id in LaterIds(us, s);
    }
    SmallerSet(LaterIds(us, t), LaterIds(us, s));
  }

  lemma SmallerSet(a: set<nat>, b: set<nat>)
    requires a < b
    ensures |a| < |b|
  {
    assert b == a + (b - a) && b - a != {};
  }

  lemma RankIsUnique(us: seq<Use>, k: nat, s: nat, t: nat)
    requires Recent(us, k, s) && Recent(us, k, t)
    ensures s == t
  {
    if s < t {
      LaterIsMoreRecent(us, k, s, k, t);
    } else if t < s {
      LaterIsMoreRecent(us, k, t, k, s);
    }
  }

  lemma LaterAfter(us: seq<Use>, x: Use, t: nat)
    requires t < |us|
    ensures LaterIds(us + [x], t) == LaterIds(us, t) + {x.id}
    ensures LaterIds(us + [x], |us|) == {}
  {
    var vs := us + [x];
    assert vs[|us|] == x;
    forall id | id in LaterIds(us, t) ensures id in LaterIds(vs, t) {
      var i :| t < i < |us| && us[i].id == id;
      assert vs[i].id == id;
    }
  }

  /** Another id used puts a distance one place back; an id that was already used since does not. */
  lemma OtherUsed(us: seq<Use>, x: Use, k: nat, t: nat)
    requires Recent(us, k, t) && x.id != us[t].id
    ensures Recent(us + [x], if x.id in LaterIds(us, t) then k else k + 1, t)
  {
    LaterAfter(us, x, t);
    if x.id in LaterIds(us, t) {
      assert LaterIds(us, t) + {x.id} == LaterIds(us, t);
    }
  }

  lemma LastUsed(us: seq<Use>, x: Use)
    ensures IsRecent(us + [x], 0, x.distance)
  {
    if us != [] {
      LaterAfter(us, x, 0);
    }
    assert LaterIds(us + [x], |us|) == {};
    assert Recent(us + [x], 0, |us|);
  }

  /** A new distance puts all others back. */
  lemma NewUse(us: seq<Use>, ds: seq<int>, distance: int)
    requires IdsBelow(us) && MostRecent(us, ds) && ds != []
    ensures IdsBelow(us + [Use(|us|, distance)]) && MostRecent(us + [Use(|us|, distance)], [distance] + Front(ds))
  {
    var x := Use(|us|, distance);
    LastUsed(us, x);
    forall k | 0 <= k < |ds| - 1 ensures IsRecent(us + [x], k + 1, ds[k]) {
      assert IsRecent(us, k, ds[k]);
      var t: nat :| Recent(us, k, t) && us[t].distance == ds[k];
      OtherUsed(us, x, k, t);
    }
  }

  /** A distance used again goes to the front, and those used since its last use go back one place. */
  lemma AgainUse(us: seq<Use>, ds: seq<int>, k: nat, vs: seq<Use>)
    requires IdsBelow(us) && MostRecent(us, ds) && k < |ds| && UsesAgain(us, k, vs)
    ensures IdsBelow(vs) && MostRecent(vs, [ds[k]] + ds[..k] + ds[k + 1..])
  {
    var t: nat :| Recent(us, k, t) && vs == us + [us[t]];
    var x, es := us[t], [ds[k]] + ds[..k] + ds[k + 1..];
    assert IsRecent(us, k, ds[k]);
    var r: nat :| Recent(us, k, r) && us[r].distance == ds[k];
    RankIsUnique(us, k, r, t);
    LastUsed(us, x);
    forall j | 0 <= j < |es| ensures IsRecent(vs, j, es[j]) {
      if j > 0 {
        StillRecent(us, ds, k, t, if j <= k then j - 1 else j);
      }
    }
  }

  lemma StillRecent(us: seq<Use>, ds: seq<int>, k: nat, t: nat, j: nat)
    requires MostRecent(us, ds) && k < |ds| && Recent(us, k, t) && j < |ds| && j != k
    ensures IsRecent(us + [us[t]], if j < k then j + 1 else j, ds[j])
  {
    assert IsRecent(us, j, ds[j]);
    var s: nat :| Recent(us, j, s) && us[s].distance == ds[j];
    if s < t {
      LaterIsMoreRecent(us, j, s, k, t);
      assert us[t].id in LaterIds(us, s);
    } else {
      assert s != t;
      LaterIsMoreRecent(us, k, t, j, s);
      assert us[s].id in LaterIds(us, t);
      assert LaterIds(us, s) <= LaterIds(us, t);
    }
    OtherUsed(us, us[t], j, s);
  }

  lemma HistoryStarts(us: seq<Use>)
    requires History([], us)
    ensures IdsBelow(us) && MostRecent(us, [1, 1, 1, 1])
  {
    assert us == [Use(0, 1), Use(1, 1), Use(2, 1), Use(3, 1)];
    assert LaterIds(us, 3) == {};
    assert LaterIds(us, 2) == {us[3].id};
    assert LaterIds(us, 1) == {us[2].id, us[3].id};
    assert LaterIds(us, 0) == {us[1].id, us[2].id, us[3].id};
    assert Recent(us, 0, 3) && Recent(us, 1, 2) && Recent(us, 2, 1) && Recent(us, 3, 0);
  }

  /** One packet's uses and the distances it leaves. */
  lemma UsesStep(w: int, z: Lz, p: Packet, us: seq<Use>, vs: seq<Use>)
    requires PacketOk(p) && Play(w, z, p).Some?
    requires IdsBelow(us) && MostRecent(us, Distances(z)) && Uses(us, p, vs)
    ensures IdsBelow(vs) && MostRecent(vs, Distances(CopyAll(Play(w, z, p).value)))
  {
    var s := Distances(z);
    PlayDistances(w, z, p);
    match p
    case Lit(_) =>
    case ShortRep =>
      AgainUse(us, s, 0, vs);
      assert [s[0]] + s[..0] + s[0 + 1..] == s;
    case Rep(k, _) => AgainUse(us, s, k, vs);
    case Match(distance, _) =>
      NewUse(us, s, U32(distance + 1));
      assert Front(s) == s[..3];
  }

  lemma UsesExist(p: Packet, us: seq<Use>, ds: seq<int>) returns (vs: seq<Use>)
    requires PacketOk(p) && MostRecent(us, ds) && |ds| == 4
    ensures Uses(us, p, vs)
  {
    vs := us;
    if p.Match? {
      vs := us + [Use(|us|, U32(p.distance + 1))];
    } else if !p.Lit? {
      var k := if p.Rep? then p.k else 0;
      assert IsRecent(us, k, ds[k]);
      var t: nat :| Recent(us, k, t);
      vs := us + [us[t]];
    }
  }

  /** The four remembered distances are always the most recently used, the last used first. */
  lemma {:induction false} RemembersMostRecent(w: int, ps: seq<Packet>, us: seq<Use>)
    requires w >= 1 && PacketsOk(ps) && Expand(w, START, ps).Some? && History(ps, us)
    ensures IdsBelow(us) && MostRecent(us, Distances(Expand(w, START, ps).value))
    decreases |ps|
  {
    if ps == [] {
      HistoryStarts(us);
    } else {
      ExpandLast(w, START, ps);
      var vs :| History(Front(ps), vs) && Uses(vs, Last(ps), us);
      RemembersMostRecent(w, Front(ps), vs);
      UsesStep(w, Expand(w, START, Front(ps)).value, Last(ps), vs, us);
    }
  }

  /** Packets that can be played have a history: what they name is always there. */
  lemma {:induction false} HasHistory(w: int, ps: seq<Packet>) returns (us: seq<Use>)
    requires w >= 1 && PacketsOk(ps) && Expand(w, START, ps).Some?
    ensures History(ps, us)
    decreases |ps|
  {
    if ps == [] {
      us := [Use(0, 1), Use(1, 1), Use(2, 1), Use(3, 1)];
    } else {
      ExpandLast(w, START, ps);
      var vs := HasHistory(w, Front(ps));
      RemembersMostRecent(w, Front(ps), vs);
      us := UsesExist(Last(ps), vs, Distances(Expand(w, START, Front(ps)).value));
    }
  }

  // ----- the state -----

  /** The literals since the last copy. */
  function LiteralsSince(ps: seq<Packet>): (m: nat)
    ensures m <= |ps|
    decreases |ps|
  {
    if ps == [] || !Last(ps).Lit? then 0 else 1 + LiteralsSince(Front(ps))
  }

  /** The last copy came first or after a literal. */
  predicate CopyAfterLiteral(ps: seq<Packet>, i: nat)
    requires i < |ps|
  {
    i == 0 || ps[i - 1].Lit?
  }

  /** What the state remembers of a copy: 0 for a match, 1 for a repeated distance, and 2 for a single byte
      repeated after a literal. */
  function CopyKind(p: Packet, afterLiteral: bool): int {
    if p.Match? then 0 else if p.ShortRep? && afterLiteral then 2 else 1
  }

  /** The state, by the last copy, the literals since, and whether a literal came before it. */
  function StateOf(ps: seq<Packet>): int {
    var m := LiteralsSince(ps);
    if m == |ps| || m >= 3 then 0
    else
      var i := |ps| - 1 - m;
      var kind := CopyKind(ps[i], CopyAfterLiteral(ps, i));
      if m == 2 then 1 + kind
      else if m == 1 then 4 + kind
      else if CopyAfterLiteral(ps, i) then 7 + kind
      else 10 + kind
  }

  lemma {:induction false} StateStep(w: int, z: Lz, ps: seq<Packet>)
    requires ps != [] && PacketOk(Last(ps)) && z.state == StateOf(Front(ps)) && Play(w, z, Last(ps)).Some?
    ensures CopyAll(Play(w, z, Last(ps)).value).state == StateOf(ps)
  {
    var qs, m := Front(ps), LiteralsSince(Front(ps));
    if Last(ps).Lit? {
      assert LiteralsSince(ps) == m + 1;
    } else {
      assert LiteralsSince(ps) == 0;
      assert z.state < 7 <==> CopyAfterLiteral(ps, |qs|) by {
        assert qs != [] ==> Last(qs) == ps[|qs| - 1];
      }
    }
  }

  /** The state is below seven exactly at the start and after a literal, zero after three literals, and otherwise
      tells the last copy. */
  lemma {:induction false} StateTellsLastPackets(w: int, ps: seq<Packet>)
    requires w >= 1 && PacketsOk(ps) && Expand(w, START, ps).Some?
    ensures Expand(w, START, ps).value.state == StateOf(ps)
    ensures Expand(w, START, ps).value.state < 7 <==> ps == [] || Last(ps).Lit?
    decreases |ps|
  {
    if ps != [] {
      ExpandLast(w, START, ps);
      StateTellsLastPackets(w, Front(ps));
      StateStep(w, Expand(w, START, Front(ps)).value, ps);
    }
  }

  // ----- the output -----

  /** The distance a packet copies from. */
  function DistanceOf(s: seq<int>, p: Packet): int
    requires |s| == 4 && PacketOk(p) && !p.Lit?
  {
    match p
    case ShortRep => s[0]
    case Rep(k, _) => s[k]
    case Match(distance, _) => distance + 1
  }

  predicate IsEnd(p: Packet) {
    p.Match? && p.distance == ENDMARK
  }

  function LengthOf(p: Packet): int {
    match p
    case Lit(_) => 1
    case ShortRep => 1
    case Rep(_, len) => len
    case Match(distance, len) => if distance == ENDMARK then 0 else len
  }

  /** A packet fails exactly if it reaches back before the output or the window. */
  lemma PlayFails(w: int, z: Lz, p: Packet)
    requires LzOk(w, z) && z.len == 0 && PacketOk(p)
    ensures Play(w, z, p).None? <==>
              !p.Lit? && !IsEnd(p) && (|z.out| < DistanceOf(Distances(z), p) || w < DistanceOf(Distances(z), p))
  {
  }

  /** A packet puts out its literal, or as many bytes as it says, each of them the one that far back. */
  lemma PlayPutsOut(w: int, z: Lz, p: Packet)
    requires LzOk(w, z) && z.len == 0 && PacketOk(p) && Play(w, z, p).Some?
    ensures var y := CopyAll(Play(w, z, p).value);
            && |y.out| == |z.out| + LengthOf(p) && z.out <= y.out && (y.len == FINISHED <==> IsEnd(p))
            && (p.Lit? ==> Last(y.out) == p.b)
            && (!p.Lit? ==> forall i {:trigger y.out[i]} :: |z.out| <= i < |y.out| ==>
                  0 <= i - DistanceOf(Distances(z), p) && y.out[i] == y.out[i - DistanceOf(Distances(z), p)])
  {
    PlayFails(w, z, p);
    var y := Play(w, z, p).value;
    if y.len > 0 {
      CopiesRepeat(y.out, y.rep0, y.len);
    }
  }
}
