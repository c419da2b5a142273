/** Doug Lea's allocator over a flat memory of words. */
module Dlmalloc {
  import opened Words
  import opened Sizes
  import opened BinBlocks
  import opened HeapModel
  import opened HeapMemory
  import opened BestFit

  /** malloc_getpagesize, and the largest arena and padding there are: the 512 MB of a MIPS segment. The proofs need
      the sum of two or three chunk sizes to stay below 2^31 - 16. */
  const PAGE: int := 4096
  const MAXARENA: int := 0x2000_0000

  /** The static initializer of `av_`: two zero words, then each bin header twice. */
  function InitialWord(av: int, i: int): int {
    if i < av + 8 then 0 else av + 8 * ((i - av - 8) / 8)
  }

  function InitialAv(av: int): Mem {
    map i {:trigger InitialWord(av, i)} | av <= i < av + AVSIZE && (i - av) % 4 == 0 :: InitialWord(av, i)
  }

  /** Rounding up to a page. */
  function RoundUp(x: int): (r: int)
    ensures r % PAGE == 0 && x <= r < x + PAGE
  {
    (x + PAGE - 1) - (x + PAGE - 1) % PAGE
  }

  /** Nothing changes but the top: its size, or that there is one at all. */
  ghost predicate SameButTop(h: Heap, g: Heap) {
    && g.bins == h.bins && g.av == h.av
    && if h.chunks == map[] then g.chunks.Keys <= {g.top}
       else h.top in h.chunks && h.top in g.chunks && g == h.(chunks := h.chunks[h.top := g.chunks[h.top]])
  }

  /** The first chunk starts where the bytes handed to callers are aligned. */
  lemma FirstAligned(b: int, front_misalign: int, a: int)
    requires front_misalign == (b + 8) % 8
    requires a == if front_misalign > 0 then b + 8 - front_misalign else b
    ensures a % 8 == 0
  {
  }

  /** The first top ends on a page. */
  lemma FirstTopEnd(a: int, s: int, end: int)
    requires a % 8 == 0 && end == RoundUp(a + s)
    ensures (end - a) % 8 == 0 && end - a >= s && end % PAGE == 0
  {
    PageIsEight(end);
    EightsApart(a, end);
  }

  lemma PageIsEight(x: int)
    requires x % PAGE == 0
    ensures x % 8 == 0
  {
  }

  lemma EightsApart(x: int, y: int)
    requires x % 8 == 0 && y % 8 == 0
    ensures (y - x) % 8 == 0
  {
  }

  /** Whole pages more or less change neither the alignment of a size nor a page boundary. */
  lemma PageSum(size: int, end: int, pages: int)
    requires size % 8 == 0 && pages % PAGE == 0 && end % PAGE == 0
    ensures (size + pages) % 8 == 0 && (pages + size) % 8 == 0 && (end + pages) % PAGE == 0
  {
  }

  /** The bytes malloc_trim gives back, computed in unsigned words and read as a long. */
  function TrimAmount(top_size: int, pad: int): int {
    Long((U32(top_size - pad - MINSIZE + (PAGE - 1)) / PAGE - 1) * PAGE)
  }

  /** The pads for which the difference, far below zero, wraps to a positive amount. */
  predicate TrimWraps(top_size: int, pad: int) {
    top_size + W31 - 17 < pad <= top_size + W32 - 4113
  }

  /** What the caller of malloc_trim can expect: whole pages, given back exactly when the top has more than a page over
      the padding, and more than the padding stays. */
  ghost predicate TrimIsRight(top_size: int, pad: int) {
    var extra := TrimAmount(top_size, pad);
    && (extra >= PAGE <==> top_size > pad + MINSIZE + PAGE)
    && (extra >= PAGE ==> extra % PAGE == 0 && pad + MINSIZE < top_size - extra <= pad + MINSIZE + PAGE)
  }

  /** It is so for every padding except those that wrap. */
  lemma TrimLeaves(top_size: int, pad: int)
    requires 0 <= top_size <= MAXARENA && 0 <= pad < W32
    ensures TrimIsRight(top_size, pad) <==> !TrimWraps(top_size, pad)
    ensures TrimWraps(top_size, pad) ==> TrimAmount(top_size, pad) >= PAGE && top_size < pad
  {
    var x := top_size - pad - MINSIZE + (PAGE - 1);
    var q := U32(x) / PAGE;
    if x < 0 {
      assert U32(x) == x + W32;
      if q <= W31 / PAGE {
        assert Long((q - 1) * PAGE) == (q - 1) * PAGE;
      } else {
        assert Long((q - 1) * PAGE) == (q - 1) * PAGE - W32;
      }
    } else {
      assert Long((q - 1) * PAGE) == (q - 1) * PAGE;
    }
  }

  /** A padding that makes malloc_trim give back more than the whole top. */
  lemma TrimTakesTooMuch()
    ensures TrimWraps(0x3000, W32 - 0x2000) && TrimAmount(0x3000, W32 - 0x2000) == 0x4000
  {
  }

  /** A new block at p for a padded request of nb bytes: large enough, with less than a
      chunk to spare, after a chunk in use, and every other block as it was. */
  ghost predicate Allocated(h0: Heap, h: Heap, p: int, nb: int) {
    && p !in Blocks(h0) && InUse(h, p)
    && Blocks(h) == Blocks(h0)[p := h.chunks[p].size]
    && nb <= h.chunks[p].size < nb + MINSIZE && h.chunks[p].prevInUse
  }

  /** The block at oldp has become the block at p, for a padded request of nb bytes, with as many of
      its first bytes as both have room for; every other block is as it was. */
  ghost predicate Resized(h0: Heap, m0: Mem, h: Heap, m: Mem, oldp: int, p: int, nb: int) {
    && oldp in Blocks(h0) && p !in Blocks(h0) - {oldp} && p in Blocks(h)
    && Blocks(h) == (Blocks(h0) - {oldp})[p := Blocks(h)[p]]
    && nb <= Blocks(h)[p] < nb + MINSIZE
    && Kept(m0, m, Blocks(h0) - {oldp})
    && Copied(m0, oldp + 8, m, p + 8, Least(Blocks(h0)[oldp], Blocks(h)[p]) - 4)
  }

  /** The last remainder ends at p, or starts there. */
  ghost predicate LastBefore(h: Heap, p: int) {
    |h.bins| == NAV && h.bins[1] != [] && h.bins[1][0] in h.chunks && Next(h, h.bins[1][0]) == p
  }

  ghost predicate LastAt(h: Heap, p: int) {
    |h.bins| == NAV && h.bins[1] != [] && h.bins[1][0] == p
  }

  /** A block beside the last remainder joins it when it is freed; any other leaves it as it is. */
  ghost predicate JoinsLast(h0: Heap, p: int, h: Heap) {
    && p in h0.chunks && |h0.bins| == NAV == |h.bins|
    && if LastBefore(h0, p) || LastAt(h0, Next(h0, p)) then
         |h.bins[1]| == 1 && var r := h.bins[1][0]; r in h.chunks && r <= p < Next(h, r)
       else h.bins[1] == h0.bins[1]
  }

  /** The last remainder is the one chunk that says it is in bin 1. */
  lemma LastIs(h: Heap, p: int)
    requires Shape(h) && p in h.chunks
    ensures h.chunks[p].bin == 1 <==> LastAt(h, p)
    ensures h.chunks[p].bin == 1 ==> h.bins[1] == [p]
  {
    assert FreeOk(h, p) && ItemOk(h, 1, 0);
  }

  /** The last remainder is the only free chunk that can end where it does. */
  lemma OnlyLastBefore(h: Heap, c: int, q: int)
    requires Shape(h) && c in h.chunks && LastBefore(h, c)
    ensures !h.chunks[c].prevInUse
    ensures q in h.chunks && Next(h, q) == c ==> h.chunks[q].bin == 1
  {
    var r := h.bins[1][0];
    Holds(h, 1, 0);
    assert ChunkOk(h, q) && PairOk(h, r, c) && PairOk(h, q, r) && PairOk(h, r, q);
  }

  /** Where the top starts once the block at p before it is freed: there, or at a free chunk before that. */
  ghost predicate TopStarts(h: Heap, p: int, q: int) {
    && p in h.chunks
    && if h.chunks[p].prevInUse then q == p else q in h.chunks && h.chunks[q].bin != 0 && Next(h, q) == p
  }

  /** The chunk after p gives a block there, with so many bytes before it, room for nb: the top if it remains a chunk,
      and a free chunk if it is large enough. */
  ghost predicate FitsForward(h: Heap, p: int, before: int, nb: int) {
    && p in h.chunks && Next(h, p) in h.chunks
    && var n := Next(h, p);
       var sum := before + h.chunks[p].size + h.chunks[n].size;
       if n == h.top then sum >= nb + MINSIZE else h.chunks[n].bin != 0 && sum >= nb
  }

  /** realloc leaves the block at p where it is. */
  ghost predicate Stays(h: Heap, p: int, nb: int) {
    p in h.chunks && (h.chunks[p].size >= nb || FitsForward(h, p, 0, nb))
  }

  /** The free chunk q before p gives it room, with the chunk after p or alone. */
  ghost predicate Shifts(h: Heap, q: int, p: int, nb: int) {
    && q in h.chunks && h.chunks[q].bin != 0 && Next(h, q) == p && p in h.chunks
    && (FitsForward(h, p, h.chunks[q].size, nb) || h.chunks[q].size + h.chunks[p].size >= nb)
  }

  ghost predicate NoShift(h: Heap, p: int, nb: int) {
    forall q {:trigger Shifts(h, q, p, nb)} :: !Shifts(h, q, p, nb)
  }

  /** There is no free chunk before p if PREV_INUSE says so, and one at most otherwise. */
  lemma NoFreeBefore(h: Heap, p: int, nb: int)
    requires Shape(h) && p in h.chunks && h.chunks[p].prevInUse
    ensures NoShift(h, p, nb)
  {
    forall q ensures !Shifts(h, q, p, nb) {
      assert ChunkOk(h, q) && PairOk(h, q, p);
    }
  }

  lemma OneBefore(h: Heap, p: int, q: int, nb: int)
    requires Shape(h) && p in h.chunks && q in h.chunks && h.chunks[q].bin != 0 && Next(h, q) == p
    requires !Shifts(h, q, p, nb)
    ensures NoShift(h, p, nb)
  {
    forall r ensures !Shifts(h, r, p, nb) {
      assert ChunkOk(h, r) && ChunkOk(h, q) && PairOk(h, q, r) && PairOk(h, r, q);
    }
  }

  /** Where realloc puts a block: where it is if the chunk after it gives room for it; else into the free chunk before
      it if that does; else where malloc finds room, or where it was if malloc finds it right behind it. */
  ghost predicate Placed(h: Heap, p: int, q: int, nb: int) {
    if Stays(h, p, nb) then q == p
    else if !NoShift(h, p, nb) then Shifts(h, q, p, nb)
    else Chosen(h, nb, q) || (q == p && p in h.chunks && Chosen(h, nb, Next(h, p)))
  }

  /** The place for an aligned block in one at m: m itself, or the first aligned address that leaves room for a chunk
      before it. */
  predicate Nearest(m: int, a: int, x: int)
    requires a > 0
  {
    if m % a == 0 then x == m else x % a == 0 && m + MINSIZE <= x < m + MINSIZE + a
  }

  /** The nearest place in the block that malloc would choose. */
  ghost predicate NearestIn(h: Heap, request: int, a: int, x: int)
    requires 0 <= request < W31 && a > 0
  {
    exists m {:trigger Nearest(m, a, x)} :: Chosen(h, Request2Size(request), m - 8) && Nearest(m, a, x)
  }

  function Least(x: int, y: int): int {
    if x < y then x else y
  }

  /** A new block at p of at least nb bytes, with less than a chunk to spare. */
  ghost predicate NewBlock(h0: Heap, h: Heap, p: int, nb: int) {
    && p !in Blocks(h0) && p in Blocks(h)
    && Blocks(h) == Blocks(h0)[p := Blocks(h)[p]]
    && nb <= Blocks(h)[p] < nb + MINSIZE
  }

  class Allocator {
    /** The address of the static array `av_`, and the arena the board gives to sbrk. */
    const av: int
    const memStart: int
    const memEnd: int

    /** What sbrk returns when it fails: MORECORE_FAILURE is -1, but the board's sbrk returns NULL. */
    const sbrkFails: int

    /** The tunable values. */
    const topPad: int
    const trimThreshold: int

    var mem: Mem

    /** The break, the first value sbrk returned (or -1), and the bytes counted as obtained. */
    var brk: int
    var sbrkBase: int
    var sbrkedMem: int

    ghost var h: Heap

    /** The allocator before its first call: every bin header points at itself, and `top` at bin 0. */
    constructor (av: int, memStart: int, memEnd: int, sbrkFails: int, topPad: int, trimThreshold: int)
      requires 0 <= av && av + AVSIZE < W32 && (av + AVSIZE <= memStart || memEnd <= av)
      requires 0 < memStart <= memEnd < W32 && memEnd - memStart <= MAXARENA
      requires (sbrkFails == -1 || sbrkFails == 0) && 0 <= topPad < MAXARENA && 0 <= trimThreshold < W32
      ensures Valid() && Blocks(h) == map[] && h.chunks == map[] && sbrkBase == -1
      ensures this.av == av && this.memStart == memStart && this.memEnd == memEnd && this.sbrkFails == sbrkFails
      ensures this.topPad == topPad && this.trimThreshold == trimThreshold && brk == memStart && Counted()
    {
      this.av, this.memStart, this.memEnd := av, memStart, memEnd;
      this.sbrkFails, this.topPad, this.trimThreshold := sbrkFails, topPad, trimThreshold;
      mem := InitialAv(av);
      brk, sbrkBase, sbrkedMem := memStart, -1, 0;
      h := Heap(map[], seq(NAV, i => []), av, 0, av, map[], 0);
      new;
      EmptyRep();
    }

    /** Memory represents the ghost heap, except for the tags of the chunks in `stale`. */
    ghost predicate Ready(stale: set<int>)
      reads this`mem, this`h
    {
      h.av == av && Shape(h) && Rep(mem, h, stale)
    }

    /** The arena: nothing obtained yet, or chunks from `base` to a break on a page boundary. */
    ghost predicate Arena()
      reads this
    {
      && Bounds()
      && if h.chunks == map[] then h.top == av && Ld(mem, av + 4) == 0
         else h.top in h.chunks && sbrkBase <= h.base && Next(h, h.top) == brk && brk % PAGE == 0
    }

    /** Where the arena lies, and how much of it has been obtained. */
    ghost predicate Bounds()
      reads this
    {
      && 0 <= av && av + AVSIZE < W32 && (av + AVSIZE <= memStart || memEnd <= av)
      && 0 < memStart <= brk <= memEnd < W32 && memEnd - memStart <= MAXARENA
      && (sbrkFails == -1 || sbrkFails == 0) && 0 <= topPad < MAXARENA && 0 <= trimThreshold < W32
      && (sbrkBase == -1 || memStart <= sbrkBase <= brk) && (sbrkBase == -1 ==> h.chunks == map[] && brk == memStart)
    }

    /** The state between calls. */
    ghost predicate Valid()
      reads this
    {
      Ready({}) && Arena() && (sbrkFails == 0 && h.chunks == map[] ==> sbrkBase == -1)
    }

    lemma EmptyRep()
      requires h == Heap(map[], seq(NAV, i => []), av, 0, av, map[], 0)
      requires mem == InitialAv(av)
      ensures Ready({}) && Ld(mem, av + 4) == 0
    {
      assert Shape(h) by {
        forall i, k ensures ItemOk(h, i, k) {
        }
        forall i, k, l ensures OrderOk(h, i, k, l) {
        }
      }
      forall i, k ensures LinkOk(mem, h, i, k) {
        if 1 <= i < NAV && -1 <= k < |h.bins[i]| {
          assert InitialWord(av, BinAt(h, i) + 8) == BinAt(h, i) == InitialWord(av, BinAt(h, i) + 12);
        }
      }
      assert InitialWord(av, av + 8) == av && InitialWord(av, av + 4) == 0;
      forall i ensures MarkOk(mem, h, i) {
      }
    }

    /** Chunks lie in the arena, below the break. */
    lemma InArena(p: int)
      requires Valid() && p in h.chunks
      ensures memStart <= p && Next(h, p) <= brk && h.chunks[p].size <= MAXARENA
      ensures h.chunks[h.top].size <= MAXARENA && h.chunks[p].size >= MINSIZE
    {
      assert ChunkOk(h, p) && PairOk(h, p, h.top) && ChunkOk(h, h.top);
    }

    // ----- fields of a chunk -----

    /** chunksize(p) */
    function ChunkSize(p: int): int
      reads this`mem
    {
      Ld(mem, p + 4) - Ld(mem, p + 4) % 4
    }

    /** prev_inuse(p) */
    predicate PrevInUse(p: int)
      reads this`mem
    {
      Ld(mem, p + 4) % 2 == 1
    }

    /** inuse(p) */
    predicate InUseBit(p: int)
      reads this`mem
    {
      PrevInUse(p + ChunkSize(p))
    }

    lemma EvenSize(a: int)
      requires Shape(h) && a in h.chunks
      ensures h.chunks[a].size >= MINSIZE && h.chunks[a].size % 2 == 0 && h.chunks[a].size % 4 == 0
    {
      assert ChunkOk(h, a) && AlignOk(h, a);
    }

    lemma ReadHead(p: int)
      requires Shape(h) && p in h.chunks && HeadOk(mem, h, p)
      ensures ChunkSize(p) == h.chunks[p].size && PrevInUse(p) == h.chunks[p].prevInUse
    {
      EvenSize(p);
    }

    lemma ReadTop()
      requires Valid()
      ensures h.chunks == map[] ==> ChunkSize(h.top) == 0
      ensures h.chunks != map[] ==> ChunkSize(h.top) == h.chunks[h.top].size >= MINSIZE && h.chunks[h.top].prevInUse
    {
      if h.chunks != map[] {
        assert HeadOk(mem, h, h.top) && ChunkOk(h, h.top);
        EvenSize(h.top);
      }
    }

    // ----- the macros -----

    /** set_head(p, v) */
    method SetHead(p: int, v: int, ghost stale: set<int>, ghost blocks: map<int, int>)
      requires Ready(stale) && Guards(h, blocks) && p in h.chunks
      modifies this`mem
      ensures mem == old(mem)[p + 4 := v] && Kept(old(mem), mem, blocks)
      ensures Rep(mem, h, stale + {p})
      ensures v == Word(h.chunks[p]) && FootOk(old(mem), h, p) ==> Rep(mem, h, stale - {p})
    {
      mem := mem[p + 4 := v];
      WriteHead(old(mem), h, stale, p, v);
      KeptHead(old(mem), h, p, v, blocks);
      if v == Word(h.chunks[p]) && FootOk(old(mem), h, p) {
        Restale(mem, h, stale + {p}, stale - {p});
      }
    }

    /** set_foot(p, v) */
    method SetFoot(p: int, v: int, ghost stale: set<int>, ghost blocks: map<int, int>)
      requires Ready(stale) && Guards(h, blocks)
      requires p in h.chunks && p !in blocks && p in stale && v == h.chunks[p].size && p != h.top
      modifies this`mem
      ensures mem == old(mem)[p + v := v] && Kept(old(mem), mem, blocks)
      ensures Rep(mem, h, stale) && FootOk(mem, h, p)
      ensures HeadOk(old(mem), h, p) ==> Rep(mem, h, stale - {p})
    {
      assert ChunkOk(h, p);
      mem := mem[p + v := v];
      WriteFoot(old(mem), h, stale, p, v);
      KeptFoot(old(mem), h, p, v, blocks);
      if HeadOk(old(mem), h, p) {
        Restale(mem, h, stale, stale - {p});
      }
    }

    /** unlink(p, bck, fwd) */
    method UnlinkChunk(p: int, ghost i: int, ghost k: int, ghost stale: set<int>, ghost blocks: map<int, int>)
      requires Ready(stale) && Guards(h, blocks)
      requires 1 <= i < NAV && 0 <= k < |h.bins[i]| && h.bins[i][k] == p
      modifies this`mem, this`h
      ensures p in old(h).chunks && Next(old(h), p) in old(h).chunks
      ensures h == Detach(old(h), i, k) && Shape(h) && InUse(h, p) && Guards(h, blocks)
      ensures Rep(mem, h, stale + {Next(h, p)}) && FootOk(mem, h, Next(h, p))
      ensures Kept(old(mem), mem, blocks) && SameWords(old(mem), mem, h)
    {
      assert LinkOk(mem, h, i, k) && LinkOk(mem, h, i, k - 1);
      var bck := Ld(mem, p + 12);
      var fwd := Ld(mem, p + 8);
      ghost var g := AfterUnlink(p, i, k, stale, blocks);
      mem := mem[fwd + 12 := bck];
      mem := mem[bck + 8 := fwd];
      h := g;
    }

    lemma AfterUnlink(p: int, i: int, k: int, stale: set<int>, blocks: map<int, int>) returns (g: Heap)
      requires Ready(stale) && Guards(h, blocks)
      requires 1 <= i < NAV && 0 <= k < |h.bins[i]| && h.bins[i][k] == p
      ensures p in h.chunks && Next(h, p) in h.chunks
      ensures g == Detach(h, i, k) && Shape(g) && InUse(g, p) && Guards(g, blocks)
      ensures var m := Join(mem, At(h, i, k - 1), At(h, i, k + 1));
              && Rep(m, g, stale + {Next(h, p)}) && FootOk(m, g, Next(h, p))
              && Kept(mem, m, blocks) && SameWords(mem, m, g)
    {
      Holds(h, i, k);
      g := Detach(h, i, k);
      Unlink(mem, h, stale, i, k);
      DetachKeepsShape(h, i, k);
      KeptJoin(mem, h, i, k - 1, i, k + 1, blocks);
      JoinWords(mem, h, i, k - 1, i, k + 1);
      assert GuardOk(h, blocks, p);
      GuardsKept(h, g, blocks);
      var m := Join(mem, At(h, i, k - 1), At(h, i, k + 1));
      forall a ensures SameWordAt(mem, m, g, a) {
        assert SameWordAt(mem, m, h, a);
      }
    }

    /** mark_binblock(ii) */
    method MarkBinBlock(ii: int, ghost stale: set<int>, ghost blocks: map<int, int>)
      requires Ready(stale) && Guards(h, blocks) && 2 <= ii < NAV
      modifies this`mem
      ensures Rep(mem, h, stale) && Marked(Ld(mem, av + 4), ii / BINBLOCKWIDTH)
      ensures Kept(old(mem), mem, blocks) && SameWords(old(mem), mem, h)
    {
      var w := Ld(mem, av + 4);
      mem := mem[av + 4 := Mark(w, ii / BINBLOCKWIDTH)];
      WordPower();
      MarkBound(w, ii / BINBLOCKWIDTH, 32);
      MarkOne(w, ii / BINBLOCKWIDTH, ii / BINBLOCKWIDTH);
      forall i | 2 <= i < NAV && h.bins[i] != [] && Marked(w, i / BINBLOCKWIDTH)
        ensures Marked(Mark(w, ii / BINBLOCKWIDTH), i / BINBLOCKWIDTH)
      {
        MarkOne(w, ii / BINBLOCKWIDTH, i / BINBLOCKWIDTH);
      }
      WriteMarks(old(mem), h, stale, Mark(w, ii / BINBLOCKWIDTH));
      KeptStatic(old(mem), h, av + 4, Mark(w, ii / BINBLOCKWIDTH), blocks);
      StaticWords(old(mem), h, Mark(w, ii / BINBLOCKWIDTH));
    }

    /** The search of frontlink: the first chunk of a sorted bin that is no larger than s. */
    method FindPlace(i: int, s: int, ghost stale: set<int>) returns (fwd: int, ghost k: int)
      requires Ready(stale) && 2 <= i < NAV && 0 <= s && i == BinIndex(s)
      requires forall a :: a in stale && a in h.chunks ==> h.chunks[a].bin == 0
      ensures Fits(h, i, k, s) && fwd == At(h, i, k)
    {
      var bck := av + 8 * i;
      assert LinkOk(mem, h, i, -1);
      fwd := Ld(mem, bck + 8);
      k := 0;
      while fwd != bck && s < ChunkSize(fwd)
        invariant 0 <= k <= |h.bins[i]| && fwd == At(h, i, k)
        invariant forall j :: 0 <= j < k && h.bins[i][j] in h.chunks ==> h.chunks[h.bins[i][j]].size > s
        decreases |h.bins[i]| - k
      {
        ReadItem(i, k, stale);
        assert LinkOk(mem, h, i, k);
        fwd := Ld(mem, fwd + 8);
        k := k + 1;
      }
      if k < |h.bins[i]| {
        NodesDiffer(h, i, k, i, -1);
        ReadItem(i, k, stale);
        forall j | k <= j < |h.bins[i]| && h.bins[i][j] in h.chunks ensures h.chunks[h.bins[i][j]].size <= s {
          assert OrderOk(h, i, k, j);
        }
      }
    }

    /** The head of a listed chunk reads as its size. */
    lemma ReadItem(i: int, k: int, stale: set<int>)
      requires Ready(stale) && 1 <= i < NAV && 0 <= k < |h.bins[i]|
      requires forall a :: a in stale && a in h.chunks ==> h.chunks[a].bin == 0
      ensures h.bins[i][k] in h.chunks && ChunkSize(h.bins[i][k]) == h.chunks[h.bins[i][k]].size
      ensures h.chunks[h.bins[i][k]].bin == i && h.bins[i][k] !in stale
    {
      Holds(h, i, k);
      assert HeadOk(mem, h, h.bins[i][k]);
      ReadHead(h.bins[i][k]);
    }

    lemma SmallBinFits(s: int)
      requires Shape(h) && MINSIZE <= s < 512 && s % 8 == 0
      ensures Fits(h, s / 8, 0, s)
    {
      BinIndexRange(s);
      forall j | 0 <= j < |h.bins[s / 8]| ensures h.bins[s / 8][j] in h.chunks && h.chunks[h.bins[s / 8][j]].size == s {
        Holds(h, s / 8, j);
        assert ItemOk(h, s / 8, j) && ChunkOk(h, h.bins[s / 8][j]) && AlignOk(h, h.bins[s / 8][j]);
        BinIndexRange(h.chunks[h.bins[s / 8][j]].size);
      }
    }

    /** The bin of frontlink, marked, and the neighbours p gets in it. */
    method ChoosePlace(s: int, ghost stale: set<int>, ghost blocks: map<int, int>)
      returns (bck: int, fwd: int, ghost k: int)
      requires Ready(stale) && Guards(h, blocks) && MINSIZE <= s && s % 8 == 0
      requires forall a :: a in stale && a in h.chunks ==> h.chunks[a].bin == 0
      modifies this`mem
      ensures 2 <= BinIndex(s) < NAV && Fits(h, BinIndex(s), k, s)
      ensures bck == At(h, BinIndex(s), k - 1) && fwd == At(h, BinIndex(s), k)
      ensures Rep(mem, h, stale) && Marked(Ld(mem, av + 4), BinIndex(s) / BINBLOCKWIDTH)
      ensures Kept(old(mem), mem, blocks) && SameWords(old(mem), mem, h)
    {
      BinIndexRange(s);
      if s < 512 {
        var idx := s / 8;
        MarkBinBlock(idx, stale, blocks);
        bck := av + 8 * idx;
        assert LinkOk(mem, h, idx, -1);
        fwd := Ld(mem, bck + 8);
        k := 0;
        SmallBinFits(s);
      } else {
        var idx := BinIndex(s);
        bck := av + 8 * idx;
        fwd := Ld(mem, bck + 8);
        assert LinkOk(mem, h, idx, -1) && MarkOk(mem, h, idx);
        if fwd == bck {
          if h.bins[idx] != [] { NodesDiffer(h, idx, 0, idx, -1); }
          MarkBinBlock(idx, stale, blocks);
          k := 0;
        } else {
          fwd, k := FindPlace(idx, s, stale);
          assert LinkOk(mem, h, idx, k - 1);
          bck := Ld(mem, fwd + 12);
          KeptSame(mem, blocks);
          SameWordsSame(mem, h);
        }
      }
    }

    /** frontlink(p, s, idx, bck, fwd): into its bin, ahead of the chunks of the same size. */
    method Frontlink(p: int, s: int, ghost stale: set<int>, ghost blocks: map<int, int>) returns (ghost k: int)
      requires Ready(stale) && Guards(h, blocks)
      requires CanFree(h, p) && h.chunks[p].size == s && p !in blocks
      requires forall a :: a in stale && a in h.chunks ==> h.chunks[a].bin == 0
      modifies this`mem, this`h
      ensures 0 <= s && 2 <= BinIndex(s) < NAV && Fits(old(h), BinIndex(s), k, s)
      ensures h == Attach(old(h), p, BinIndex(s), k) && Shape(h) && Guards(h, blocks)
      ensures Rep(mem, h, stale + {p, Next(h, p)})
      ensures Kept(old(mem), mem, blocks) && SameWords(old(mem), mem, old(h))
    {
      assert ChunkOk(h, p) && AlignOk(h, p);
      var bck, fwd;
      bck, fwd, k := ChoosePlace(s, stale, blocks);
      ghost var m := mem;
      Insert(p, bck, fwd, BinIndex(s), k, stale, blocks);
      KeptTrans(old(mem), m, mem, blocks);
      SameWordsTrans(old(mem), m, mem, old(h));
    }

    /** The four stores of frontlink. */
    method Insert(p: int, bck: int, fwd: int, ghost i: int, ghost k: int, ghost stale: set<int>, ghost blocks: map<int,
                  int>)
      requires Ready(stale) && Guards(h, blocks)
      requires CanFree(h, p) && p !in blocks && Fits(h, i, k, h.chunks[p].size)
      requires i >= 2 ==> Marked(Ld(mem, av + 4), i / BINBLOCKWIDTH)
      requires bck == At(h, i, k - 1) && fwd == At(h, i, k)
      modifies this`mem, this`h
      ensures h == Attach(old(h), p, i, k) && Shape(h) && Guards(h, blocks)
      ensures Rep(mem, h, stale + {p, Next(h, p)})
      ensures Kept(old(mem), mem, blocks) && SameWords(old(mem), mem, old(h))
    {
      LinkBetween(mem, h, stale, p, i, k, blocks);
      mem := mem[p + 12 := bck];
      mem := mem[p + 8 := fwd];
      mem := mem[bck + 8 := p];
      mem := mem[fwd + 12 := p];
      h := Attach(h, p, i, k);
    }

    // ----- free -----

    /** A listed chunk's fd is the last-remainder header exactly when that ring lists it. */
    lemma FdTellsRing(i: int, k: int, stale: set<int>)
      requires Ready(stale) && 1 <= i < NAV && 0 <= k < |h.bins[i]|
      ensures Ld(mem, h.bins[i][k] + 8) == BinAt(h, 1) <==> i == 1
    {
      assert LinkOk(mem, h, i, k);
      if k + 1 < |h.bins[i]| {
        NodesDiffer(h, i, k + 1, 1, -1);
      }
    }

    /** Join an in-use chunk with the in-use chunk after it; only its head is affected. */
    ghost method MergeGhost(p: int, stale: set<int>, blocks: map<int, int>)
      requires Ready(stale) && Guards(h, blocks)
      requires InUse(h, p) && InUse(h, Next(h, p)) && p !in blocks && Next(h, p) !in blocks
      modifies this`h
      ensures h == Merge(old(h), p) && Shape(h) && InUse(h, p) && Guards(h, blocks)
      ensures Rep(mem, h, stale - {Next(old(h), p)} + {p})
    {
      MergeKeepsShape(h, p);
      var g := Merge(h, p);
      Rechunk(mem, h, g, stale, stale - {Next(h, p)} + {p});
      GuardsKept(h, g, blocks);
      h := g;
    }

    /** The state of fREe between its two consolidations: c is the chunk being freed, p and sz what
        the code has made of it, and `blocks` everything the caller keeps. */
    ghost predicate Freeing(c: int, p: int, sz: int, islr: bool, next: int, stale: set<int>, blocks: map<int, int>)
      reads this`mem, this`h
    {
      && Ready(stale) && Guards(h, blocks)
      && InUse(h, c) && c !in blocks && Next(h, c) == next && next in h.chunks && next != h.top
      && Ld(mem, next + 4) == h.chunks[next].size
      && p in h.chunks && p + sz == next && h.chunks[p].prevInUse
      && (if islr then h.chunks[p].bin == 1 && Next(h, p) == c else p == c)
    }

    /** unlink(p, bck, fwd), which leaves alone the words of the in-use chunk c too. */
    method UnlinkBeside(p: int, ghost c: int, ghost i: int, ghost k: int, ghost stale: set<int>, ghost blocks: map<int,
                        int>)
      requires Ready(stale) && Guards(h, blocks)
      requires 1 <= i < NAV && 0 <= k < |h.bins[i]| && h.bins[i][k] == p && InUse(h, c)
      modifies this`mem, this`h
      ensures p in old(h).chunks && Next(old(h), p) in old(h).chunks
      ensures h == Detach(old(h), i, k) && Shape(h) && InUse(h, p) && Guards(h, blocks)
      ensures Rep(mem, h, stale + {Next(h, p)}) && FootOk(mem, h, Next(h, p))
      ensures Kept(old(mem), mem, blocks) && SameWords(old(mem), mem, h)
      ensures Copied(old(mem), c + 8, mem, c + 8, old(h).chunks[c].size - 4)
    {
      ghost var kept := blocks[c := h.chunks[c].size];
      forall a ensures GuardOk(h, kept, a) {
        assert GuardOk(h, blocks, a);
      }
      UnlinkChunk(p, i, k, stale, kept);
      forall a ensures GuardOk(h, blocks, a) {
        assert GuardOk(h, kept, a) && GuardOk(old(h), blocks, a);
      }
      KeptCopied(old(mem), mem, kept, c, kept[c] - 4);
      forall a, w ensures KeptAt(old(mem), mem, blocks, a, w) {
        assert GuardOk(old(h), blocks, a) && KeptAt(old(mem), mem, kept, a, w);
      }
    }

    /** unlink(p, bck, fwd) of the free chunk before the in-use chunk c, which it takes over. */
    method UnlinkBefore(p: int, ghost c: int, ghost i: int, ghost k: int, ghost stale: set<int>, ghost blocks: map<int,
                        int>)
      requires Ready(stale) && Guards(h, blocks)
      requires 1 <= i < NAV && 0 <= k < |h.bins[i]| && h.bins[i][k] == p
      requires p in h.chunks && Next(h, p) == c && InUse(h, c) && c !in blocks
      modifies this`mem, this`h
      ensures SameEnds(old(h), h)
      ensures Shape(h) && Guards(h, blocks) && Rep(mem, h, stale - {c} + {p})
      ensures InUse(h, p) && h.chunks[p].prevInUse && h.top == old(h).top && h.av == old(h).av
      ensures h.chunks == (old(h).chunks - {c})[p := h.chunks[p]] && p !in blocks
      ensures h.chunks[p].size == old(h).chunks[p].size + old(h).chunks[c].size
      ensures |h.bins| == |old(h).bins| && if i != 1 then h.bins[1] == old(h).bins[1] else h.bins[1] == []
      ensures Blocks(h) - {p} == Blocks(old(h)) - {c} && p !in Blocks(old(h))
      ensures Kept(old(mem), mem, blocks) && SameWords(old(mem), mem, h)
      ensures Copied(old(mem), c + 8, mem, c + 8, old(h).chunks[c].size - 4)
    {
      Holds(h, i, k);
      assert ChunkOk(h, p) && ChunkOk(h, c) && GuardOk(h, blocks, p);
      DetachBlocks(h, i, k);
      UnlinkBeside(p, c, i, k, stale, blocks);
      MergeBlocks(h, p);
      ghost var g := h;
      MergeGhost(p, stale + {c}, blocks);
      assert stale + {c} - {c} + {p} == stale - {c} + {p};
      forall a ensures SameWordAt(old(mem), mem, h, a) {
        assert SameWordAt(old(mem), mem, g, a);
      }
    }

    /** fREe, "consolidate backward" below the top. */
    method ConsolidateBackward(c: int, hd: int, sz0: int, ghost next: int, ghost blocks: map<int, int>)
      returns (ghost c': int, p: int, sz: int, islr: bool)
      requires Ready({next}) && Guards(h, blocks)
      requires InUse(h, c) && c !in blocks && Next(h, c) == next && next in h.chunks && next != h.top
      requires Ld(mem, next + 4) == h.chunks[next].size
      requires hd == Word(h.chunks[c]) && sz0 == h.chunks[c].size
      modifies this`mem, this`h
      ensures SameEnds(old(h), h)
      ensures Freeing(c', p, sz, islr, next, {next, c'}, blocks)
      ensures h.bins[1] == old(h).bins[1] && (islr <==> LastBefore(old(h), c)) && p <= c
      ensures Blocks(h) - {c'} == Blocks(old(h)) - {c}
      ensures h.chunks[next] == old(h).chunks[next]
      ensures Kept(old(mem), mem, blocks)
    {
      p, sz, islr, c' := c, sz0, false, c;
      assert ChunkOk(h, c) && PairOk(h, c, next);
      if LastBefore(h, c) { OnlyLastBefore(h, c, c); }
      EvenSize(c);
      KeptSame(mem, blocks);
      Restale(mem, h, {next}, {next, c});
      if hd % 2 == 0 {
        ghost var q := FreeBefore(h, c);
        ghost var i, k := Where(h, q);
        assert FootOk(mem, h, q) && FreeOk(h, q) && ChunkOk(h, q);
        var prevsz := Ld(mem, p);
        p := p - prevsz;
        sz := sz + prevsz;
        FdTellsRing(i, k, {next});
        if Ld(mem, p + 8) == av + 8 {
          islr := true;
          assert h.bins[1][0] == q;
        } else {
          NotLastBefore(c, q);
          UnlinkBefore(p, c, i, k, {next, c}, blocks);
          assert SameWordAt(old(mem), mem, h, next);
          assert {next, c} - {c} + {p} == {next, p};
          c' := p;
        }
      }
    }

    lemma NotLastBefore(c: int, q: int)
      requires Shape(h) && c in h.chunks && q in h.chunks && Next(h, q) == c && h.chunks[q].bin != 1
      ensures !LastBefore(h, c)
    {
      if LastBefore(h, c) {
        OnlyLastBefore(h, c, q);
      }
    }

    /** Let the last remainder grow over the in-use chunk after it; only tags are affected. */
    ghost method AbsorbGhost(p: int, stale: set<int>, blocks: map<int, int>)
      requires Ready(stale) && Guards(h, blocks)
      requires CanAbsorb(h, p) && p !in blocks && Next(h, p) !in blocks
      modifies this`h
      ensures h == Absorb(old(h), p) && Shape(h) && Guards(h, blocks)
      ensures Rep(mem, h, stale - {Next(old(h), p)} + {p, Next(h, p)})
      ensures Blocks(h) == Blocks(old(h)) - {Next(old(h), p)}
    {
      assert ChunkOk(h, p) && ChunkOk(h, Next(h, p));
      AbsorbKeepsShape(h, p);
      AbsorbBlocks(h, p);
      var g := Absorb(h, p);
      Rechunk(mem, h, g, stale, stale - {Next(h, p)} + {p, Next(g, p)});
      GuardsKept(h, g, blocks);
      h := g;
    }

    /** unlink(next, bck, fwd) of the free chunk after the in-use chunk c, which takes it over. */
    method UnlinkAfter(ghost c: int, n: int, ghost i: int, ghost k: int, ghost stale: set<int>, ghost blocks: map<int,
                       int>)
      requires Ready(stale) && Guards(h, blocks)
      requires 1 <= i < NAV && 0 <= k < |h.bins[i]| && h.bins[i][k] == n
      requires InUse(h, c) && Next(h, c) == n && c !in blocks
      modifies this`mem, this`h
      ensures SameEnds(old(h), h)
      ensures n in old(h).chunks && Next(old(h), n) in old(h).chunks
      ensures Shape(h) && Guards(h, blocks)
      ensures InUse(h, c) && InUse(h, Next(h, c)) && Next(h, c) == Next(old(h), n)
      ensures Rep(mem, h, stale - {n} + {c, Next(h, c)})
      ensures h.top == old(h).top && h.av == old(h).av
      ensures h.chunks[c] == old(h).chunks[c].(size := old(h).chunks[c].size + old(h).chunks[n].size)
      ensures h.chunks == (old(h).chunks - {n})[c := h.chunks[c]][Next(h, c) := h.chunks[Next(h, c)]]
      ensures h.chunks[Next(h, c)] == old(h).chunks[Next(h, c)].(prevInUse := true)
      ensures !old(h).chunks[Next(h, c)].prevInUse
      ensures Blocks(h) - {c} == Blocks(old(h)) - {c}
      ensures |h.bins| == |old(h).bins| && (i != 1 ==> h.bins[1] == old(h).bins[1])
      ensures Kept(old(mem), mem, blocks) && SameWords(old(mem), mem, h)
      ensures Copied(old(mem), c + 8, mem, c + 8, old(h).chunks[c].size - 4)
    {
      Holds(h, i, k);
      TakeNext(h, c, i, k);
      assert GuardOk(h, blocks, n);
      UnlinkBeside(n, c, i, k, stale, blocks);
      ghost var g := h;
      MergeGhost(c, stale + {Next(g, n)}, blocks);
      assert stale + {Next(g, n)} - {n} + {c} == stale - {n} + {c, Next(h, c)};
      forall a ensures SameWordAt(old(mem), mem, h, a) {
        assert SameWordAt(old(mem), mem, g, a);
      }
    }

    /** link_last_remainder(p), whatever that ring held before. */
    method LinkLastRemainder(p: int, ghost g: Heap, ghost stale: set<int>, ghost stale': set<int>,
                             ghost blocks: map<int, int>)
      requires Ready(stale) && Shape(g) && g.av == av && g.top == h.top
      requires g.bins == h.bins[1 := [p]] && Guards(g, blocks)
      requires forall a :: a in g.chunks && a !in stale' ==> a !in stale && a in h.chunks && g.chunks[a] == h.chunks[a]
      modifies this`mem, this`h
      ensures h == g && Rep(mem, h, stale')
      ensures Kept(old(mem), mem, blocks)
      ensures SameWords(old(mem), mem, g)
    {
      Relast(mem, h, g, stale, stale', p);
      KeptOnlyNode(mem, g, p, blocks);
      OnlyNodeWords(mem, g, p);
      var l := av + 8;
      mem := mem[l + 12 := p];
      mem := mem[l + 8 := p];
      mem := mem[p + 12 := l];
      mem := mem[p + 8 := l];
      h := g;
      assert SameWords(old(mem), mem, g);
    }

    /** The state of fREe after its consolidations: p is of size sz, and only its tags
        and the head of the chunk after it are still to be written. */
    ghost predicate Freed(p: int, sz: int, islr: bool, blocks: map<int, int>)
      reads this`mem, this`h
    {
      && p in h.chunks && p !in blocks && h.chunks[p].size == sz && h.chunks[p].prevInUse
      && Next(h, p) in h.chunks && Ld(mem, Next(h, p) + 4) == h.chunks[Next(h, p)].size
      && Ready({p, Next(h, p)}) && Guards(h, blocks)
      && if islr then h.chunks[p].bin == 1 else CanFree(h, p)
    }

    /** fREe, "re-insert last_remainder": the last remainder after the chunk c becomes part of it. */
    method ReinsertRemainder(c: int, n: int, ghost blocks: map<int, int>)
      requires Freeing(c, c, n - c, false, n, {n, c}, blocks)
      requires h.chunks[n].bin == 1
      modifies this`mem, this`h
      ensures SameEnds(old(h), h)
      ensures n in old(h).chunks && c in h.chunks
      ensures Freed(c, n - c + old(h).chunks[n].size, true, blocks) && h.bins[1] == [c]
      ensures Blocks(h) - {c} == Blocks(old(h)) - {c}
      ensures Kept(old(mem), mem, blocks)
    {
      assert ChunkOk(h, c) && ChunkOk(h, n);
      ReinsertKeepsShape(h, c);
      ghost var g := Reinsert(h, c);
      ghost var i, k := Where(h, n);
      Holds(h, i, k);
      assert GuardOk(h, blocks, n);
      GuardsKept(h, g, blocks);
      assert HeadOk(mem, h, Next(g, c));
      LinkLastRemainder(c, g, {n, c}, {c, Next(g, c)}, blocks);
      assert SameWordAt(old(mem), mem, h, Next(h, c));
    }

    /** fREe, "consolidate forward" below the top. */
    method ConsolidateForward(ghost c: int, p: int, sz0: int, islr0: bool, next: int, nextsz: int,
                              ghost blocks: map<int, int>)
      returns (sz: int, islr: bool)
      requires Freeing(c, p, sz0, islr0, next, {next, c}, blocks) && nextsz == h.chunks[next].size && p !in blocks
      modifies this`mem, this`h
      ensures SameEnds(old(h), h)
      ensures Freed(p, sz, islr, blocks) && sz >= sz0
      ensures h.bins[1] == if islr then [p] else old(h).bins[1]
      ensures islr <==> islr0 || LastAt(old(h), next)
      ensures Blocks(h) - {p} == Blocks(old(h)) - {c}
      ensures Kept(old(mem), mem, blocks)
    {
      sz, islr := sz0, islr0;
      LastIs(h, p);
      LastIs(h, next);
      ReadNextBit(c, next, {next, c});
      InOrder(p, c);
      ghost var m := mem;
      KeptSame(mem, blocks);
      if Ld(mem, next + nextsz + 4) % 2 == 0 {
        sz := sz + nextsz;
        ghost var i, k := Where(h, next);
        FdTellsRing(i, k, {next, c});
        if !islr && Ld(mem, next + 8) == av + 8 {
          islr := true;
          ReinsertRemainder(p, next, blocks);
          return;
        }
        UnlinkAfter(c, next, i, k, {next, c}, blocks);
        assert SameWordAt(m, mem, h, Next(h, c)) && SameWordAt(m, mem, h, c);
        assert {next, c} - {next} + {c, Next(h, c)} == {c, Next(h, c)};
      }
      if islr {
        AbsorbFreed(c, p, blocks);
      }
    }

    /** The last remainder p takes over the chunk c after it, whose neighbour after it is in use. */
    ghost method AbsorbFreed(c: int, p: int, blocks: map<int, int>)
      requires p in h.chunks && Next(h, p) == c && c in h.chunks && c !in blocks && p !in blocks
      requires CanAbsorb(h, p) && h.chunks[p].prevInUse && Ready({c, Next(h, c)}) && Guards(h, blocks)
      requires Ld(mem, Next(h, c) + 4) == h.chunks[Next(h, c)].size
      modifies this`h
      ensures Freed(p, old(h).chunks[p].size + old(h).chunks[c].size, true, blocks) && SameEnds(old(h), h)
      ensures Blocks(h) == Blocks(old(h)) - {c} && h.bins == old(h).bins
    {
      AbsorbGhost(p, {c, Next(h, c)}, blocks);
      assert {c, Next(h, p)} - {c} + {p, Next(h, p)} == {p, Next(h, p)};
    }

    /** The in-use bit of the chunk after c, read from the chunk after that. */
    lemma ReadNextBit(c: int, next: int, stale: set<int>)
      requires Ready(stale) && stale == {next, c}
      requires InUse(h, c) && Next(h, c) == next && next in h.chunks && next != h.top
      ensures c < next < Next(h, next) && Next(h, next) in h.chunks
      ensures Ld(mem, Next(h, next) + 4) % 2 == 0 <==> h.chunks[next].bin != 0
      ensures h.chunks[next].bin != 0 ==> Ld(mem, Next(h, next) + 4) == h.chunks[Next(h, next)].size
    {
      assert ChunkOk(h, c) && ChunkOk(h, next) && ChunkOk(h, Next(h, next));
      EvenSize(Next(h, next));
      assert HeadOk(mem, h, Next(h, next)) && PairOk(h, next, Next(h, next));
    }

    lemma InOrder(p: int, c: int)
      requires Shape(h) && p in h.chunks && c in h.chunks
      ensures p < Next(h, p) && (p < c ==> Next(h, p) <= c)
    {
      assert ChunkOk(h, p) && PairOk(h, p, c);
    }

    /** The end of fREe: write the tags of the consolidated chunk and put it in its bin. */
    method FinishFree(p: int, sz: int, islr: bool, ghost blocks: map<int, int>)
      requires Freed(p, sz, islr, blocks)
      modifies this`mem, this`h
      ensures SameEnds(old(h), h)
      ensures Ready({}) && Guards(h, blocks)
      ensures h.bins[1] == old(h).bins[1] && p in h.chunks && h.chunks[p].size == sz
      ensures Blocks(h) == Blocks(old(h)) - {p}
      ensures Kept(old(mem), mem, blocks)
    {
      WriteTags(p, sz, islr, blocks);
      ghost var m, n := mem, Next(h, p);
      if !islr {
        assert ChunkOk(h, p);
        ghost var k := Frontlink(p, sz, {n}, blocks);
        AttachBlocks(old(h), p, BinIndex(sz), k);
        KeptTrans(old(mem), m, mem, blocks);
        assert SameWordAt(m, mem, old(h), p) && SameWordAt(m, mem, old(h), n);
        assert {n} + {p, n} == {p, n};
        Restale(mem, h, {p, n}, {});
      }
    }

    /** The head and foot of a freed chunk. */
    method WriteTags(p: int, sz: int, islr: bool, ghost blocks: map<int, int>)
      requires Freed(p, sz, islr, blocks)
      modifies this`mem
      ensures Rep(mem, h, if islr then {} else {Next(h, p)})
      ensures Ld(mem, p + 4) == sz + 1 && Ld(mem, Next(h, p)) == sz
      ensures Ld(mem, Next(h, p) + 4) == h.chunks[Next(h, p)].size
      ensures islr ==> p !in Blocks(h)
      ensures Kept(old(mem), mem, blocks)
    {
      ghost var n := Next(h, p);
      assert ChunkOk(h, p) && ChunkOk(h, n);
      SetHead(p, sz + 1, {p, n}, blocks);
      ghost var m1 := mem;
      assert {p, n} + {p} == {p, n};
      SetFoot(p, sz, {p, n}, blocks);
      KeptTrans(old(mem), m1, mem, blocks);
      assert {p, n} - {p} == {n};
      if islr {
        ghost var i, k := Where(h, p);
        Holds(h, i, k);
        Restale(mem, h, {n}, {});
      }
    }

    // ----- the break and the top -----

    /** MORECORE: move the break inside the board's arena, or fail and change nothing. */
    method MoreCore(increment: int) returns (old_brk: int)
      requires 0 < memStart <= brk <= memEnd < W32 && memEnd - memStart <= MAXARENA
      requires -MAXARENA <= increment < W32 - MAXARENA && (sbrkFails == -1 || sbrkFails == 0)
      modifies this`brk
      ensures memStart <= brk <= memEnd
      ensures if old_brk == sbrkFails then brk == old(brk) else old_brk == old(brk) && brk == old(brk) + increment
      ensures old_brk != sbrkFails <==> memStart <= old(brk) + increment <= memEnd
    {
      var new_brk := U32(brk + increment);
      if new_brk < memStart || new_brk > memEnd {
        return sbrkFails;
      }
      old_brk := brk;
      brk := new_brk;
    }

    /** set_head(top, size | PREV_INUSE) where top already is a chunk. */
    method SetTopSize(size: int, ghost blocks: map<int, int>)
      requires Ready({}) && Guards(h, blocks) && h.top in h.chunks
      requires size >= MINSIZE && size % 8 == 0
      requires h.top + size <= av || av + AVSIZE <= h.top
      modifies this`mem, this`h
      ensures Ready({}) && Guards(h, blocks) && h == ResizeTop(old(h), size)
      ensures Blocks(h) == Blocks(old(h))
      ensures Kept(old(mem), mem, blocks) && Ld(mem, av + 4) == Ld(old(mem), av + 4)
    {
      ResizeTopKeepsShape(h, size);
      ghost var g := ResizeTop(h, size);
      Rechunk(mem, h, g, {}, {h.top});
      GuardsKept(h, g, blocks);
      h := g;
      ChunkCells(h, h.top, h.top);
      SetHead(Ld(mem, av + 8), size + 1, {h.top}, blocks);
      assert {h.top} - {h.top} == {};
    }

    /** The top now ends at the break. */
    method StretchTop(size: int, ghost blocks: map<int, int>)
      requires Ready({}) && Bounds() && Guards(h, blocks) && h.top in h.chunks && sbrkBase <= h.base
      requires size >= MINSIZE && size % 8 == 0 && h.top + size == brk && brk % PAGE == 0
      requires brk <= av || av + AVSIZE <= h.top
      modifies this`mem, this`h
      ensures Valid() && Guards(h, blocks) && h == ResizeTop(old(h), size)
      ensures Blocks(h) == Blocks(old(h)) && Kept(old(mem), mem, blocks)
    {
      SetTopSize(size, blocks);
      assert h.top in h.chunks && Next(h, h.top) == brk;
    }

    /** The first top of the heap. */
    method SetFirstTop(a: int, size: int)
      requires Ready({}) && h.chunks == map[]
      requires a % 8 == 0 && size % 8 == 0 && size >= MINSIZE && (a + size <= av || av + AVSIZE <= a)
      modifies this`mem, this`h
      ensures Ready({}) && h == FirstTop(old(h), a, size) && Blocks(h) == Blocks(old(h))
    {
      FirstTopKeepsShape(h, a, size);
      ghost var g := h.(top := a, base := a);
      WriteTop(mem, h, g, {});
      mem := mem[av + 8 := a];
      h := g;
      ghost var g' := FirstTop(h, a, size);
      Rechunk(mem, h, g', {}, {a});
      h := g';
      SetHead(a, size + 1, {a}, map[]);
      assert {a} - {a} == {};
    }

    /** sbrked_mem counts the bytes from the first break to the present one. */
    ghost predicate Counted()
      reads this`sbrkBase, this`sbrkedMem, this`brk
    {
      sbrkedMem == if sbrkBase == -1 then 0 else brk - sbrkBase
    }

    /** An earlier call got memory but not the bytes to align it, so there is still no top. */
    ghost predicate Misaligned()
      reads this`sbrkBase, this`h
    {
      sbrkBase != -1 && h.chunks == map[]
    }

    /** The top as the code reads it, and where it lies. */
    lemma TopBounds()
      requires Valid()
      ensures Ld(mem, av + 8) == h.top
      ensures h.chunks == map[] ==> h.top == av && ChunkSize(h.top) == 0
      ensures h.chunks != map[] ==>
                && h.top in h.chunks && ChunkSize(h.top) == h.chunks[h.top].size >= MINSIZE
                && memStart <= h.top && sbrkBase <= h.top && h.top + h.chunks[h.top].size == brk
                && (memEnd <= av || av + AVSIZE <= h.top)
                && h.top % 8 == 0 && h.chunks[h.top].size % 8 == 0
    {
      ReadTop();
      if h.chunks != map[] {
        assert ChunkOk(h, h.top) && AlignOk(h, h.top);
      }
    }

    /** The bytes malloc_extend_top asks for: whole pages, except the first time. */
    method SbrkSize(nb: int) returns (sbrk_size: int)
      requires Arena() && MINSIZE <= nb <= W31 - 8
      ensures nb + MINSIZE <= sbrk_size <= W31 + MAXARENA + 2 * PAGE
      ensures sbrk_size < nb + topPad + MINSIZE + PAGE
      ensures sbrk_size == if sbrkBase != -1 then RoundUp(nb + topPad + MINSIZE) else nb + topPad + MINSIZE
    {
      sbrk_size := U32(nb + topPad + MINSIZE);
      if sbrkBase != -1 {
        sbrk_size := RoundUp(sbrk_size);
      }
    }

    /** sbrked_mem += bytes */
    method CountSbrked(bytes: int)
      modifies this`sbrkedMem
      ensures 0 <= old(sbrkedMem) + bytes < W32 ==> sbrkedMem == old(sbrkedMem) + bytes
    {
      sbrkedMem := U32(sbrkedMem + bytes);
    }

    /** The board has the memory for a padded request: its bytes, the padding, and what goes for
        alignment and whole pages. */
    predicate RoomToGrow(brk: int, nb: int) {
      brk + nb + topPad + MINSIZE + 2 * PAGE + 8 <= memEnd
    }

    /** Where the break is once a heap that has a top was extended for nb bytes: whole pages further, if there are. */
    function BrkAfter(brk: int, nb: int): int {
      if brk + RoundUp(nb + topPad + MINSIZE) <= memEnd then brk + RoundUp(nb + topPad + MINSIZE) else brk
    }

    /** Where the first chunk starts in memory at b, and where so many bytes from there end, up to a page; and
        where the first extension for nb bytes ends. */
    static function AlignUp(b: int): int {
      if (b + 8) % 8 > 0 then b + (8 - (b + 8) % 8) else b
    }

    static function PageEnd(b: int, size: int): int {
      RoundUp(AlignUp(b) + size)
    }

    function FirstEnd(nb: int): int {
      PageEnd(memStart, nb + topPad + MINSIZE)
    }

    /** The heap can be extended safely for nb bytes: a failing sbrk is noticed when it returns MORECORE_FAILURE,
        and also when there is a top already; on this board the first extension must not fail. */
    ghost predicate SafeToGrow(nb: int)
      reads this`h
    {
      sbrkFails == -1 || h.chunks != map[] || FirstEnd(nb) <= memEnd
    }

    /** The board's sbrk, with the break at `at`. */
    function BoardSbrk(at: int, increment: int): int {
      if memStart <= U32(at + increment) <= memEnd then at else 0
    }

    /** The top that malloc_extend_top makes the first time, with the board's sbrk, whether it fails or not. */
    function FirstTopOnBoard(nb: int): (r: (int, int)) {
      var size := nb + topPad + MINSIZE;
      var b := BoardSbrk(memStart, size);
      var a := AlignUp(b);
      var correction := (a - b) + RoundUp(a + size) - (a + size);
      var new_brk := BoardSbrk(if b == 0 then memStart else memStart + size, correction);
      (a, U32(new_brk - a + correction))
    }

    /** That top reaches from the start of the board's memory to the break exactly when the first extension fits;
        otherwise it starts at address zero, or runs past the end of the memory. */
    lemma FirstExtension(nb: int)
      requires Valid() && h.chunks == map[] && sbrkFails == 0 && MINSIZE <= nb <= W31 - 8
      ensures var (top, size) := FirstTopOnBoard(nb);
              && (top == AlignUp(memStart) && top + size == FirstEnd(nb) <= memEnd <==> SafeToGrow(nb))
              && (!SafeToGrow(nb) && memStart > PAGE + 8 ==> top == 0 || top + size > memEnd)
    {
      var size := nb + topPad + MINSIZE;
      if memStart + size <= memEnd {
        FirstFits(memStart, size);
      }
    }

    static lemma FirstFits(b: int, size: int)
      requires 0 < b && 0 < size && b + size < W32
      ensures b <= AlignUp(b) < b + 8 && 0 <= RoundUp(AlignUp(b) + size) - (AlignUp(b) + size) < PAGE
    {
    }

    /** malloc_extend_top(nb) */
    method ExtendTop(nb: int, ghost blocks: map<int, int>)
      requires Valid() && Guards(h, blocks) && nb % 8 == 0 && MINSIZE <= nb <= W31 - 8 && SafeToGrow(nb)
      modifies this`mem, this`h, this`brk, this`sbrkBase, this`sbrkedMem
      ensures Valid() && Guards(h, blocks) && Kept(old(mem), mem, blocks)
      ensures Blocks(h) == Blocks(old(h)) && SameButTop(old(h), h)
      ensures RoomToGrow(old(brk), nb) ==> h.top in h.chunks && h.chunks[h.top].size >= nb + MINSIZE
      ensures old(h).chunks == map[] && sbrkFails == 0 ==>
                h.top in h.chunks && h.top == AlignUp(memStart) && Next(h, h.top) == FirstEnd(nb)
      ensures old(h).chunks != map[] ==> brk == BrkAfter(old(brk), nb)
      ensures old(Counted()) && !old(Misaligned()) ==> Counted()
    {
      KeptSame(mem, blocks);
      TopBounds();
      var old_top := Ld(mem, av + 8);
      var old_top_size := ChunkSize(old_top);
      var old_end := old_top + old_top_size;
      var sbrk_size := SbrkSize(nb);
      var b := MoreCore(sbrk_size);
      assert h.chunks == map[] && sbrkFails == 0 ==> b == 0 || (b == memStart && PageEnd(b, sbrk_size) == FirstEnd(nb));
      if b == -1 || (b < old_end && old_top != av) {
        return;
      }
      CountSbrked(sbrk_size);
      if b == old_end {
        PageSum(old_top_size, old_end, sbrk_size);
        StretchTop(sbrk_size + old_top_size, blocks);
      } else {
        if sbrkBase == -1 {
          sbrkBase := b;
        } else {
          CountSbrked(b - old_end);
        }
        FirstTopFrom(b, sbrk_size, blocks);
      }
    }

    /** The rest of malloc_extend_top when the new bytes do not continue the top. */
    method FirstTopFrom(b: int, sbrk_size: int, ghost blocks: map<int, int>)
      requires Ready({}) && Arena() && Guards(h, blocks) && h.chunks == map[]
      requires sbrkBase != -1 && sbrkBase <= b
      requires brk == b + sbrk_size && sbrk_size >= 2 * MINSIZE
      requires sbrkFails == 0 ==> PageEnd(b, sbrk_size) <= memEnd
      modifies this`mem, this`h, this`brk, this`sbrkedMem
      ensures Valid() && Guards(h, blocks) && Kept(old(mem), mem, blocks)
      ensures Blocks(h) == Blocks(old(h)) && SameButTop(old(h), h)
      ensures old(brk) + PAGE + 8 <= memEnd ==> h.top in h.chunks && h.chunks[h.top].size >= sbrk_size
      ensures h.top in h.chunks <==> PageEnd(b, sbrk_size) <= memEnd
      ensures h.top in h.chunks ==>
                h.top == AlignUp(b) && Next(h, h.top) == PageEnd(b, sbrk_size)
      ensures old(Counted()) ==> Counted()
    {
      KeptSame(mem, blocks);
      var a, correction := Correction(b, sbrk_size);
      var new_brk := MoreCore(correction);
      if new_brk == -1 {
        return;
      }
      CountSbrked(correction);
      var top_size := new_brk - a + correction;
      ghost var m := mem;
      SetFirstTop(a, top_size);
      assert a in h.chunks && Next(h, a) == brk;
      NoBlocks(old(h), h, m, blocks);
    }

    /** Where the first chunk starts, and the bytes still needed to align it and to end on a page. */
    static method Correction(b: int, sbrk_size: int) returns (a: int, correction: int)
      requires sbrk_size > 0
      ensures a == AlignUp(b) && b <= a < b + 8 && a % 8 == 0
      ensures b + sbrk_size + correction == PageEnd(b, sbrk_size) && 0 <= correction < PAGE + 8
      ensures PageEnd(b, sbrk_size) % PAGE == 0 && PageEnd(b, sbrk_size) - a >= sbrk_size
      ensures (PageEnd(b, sbrk_size) - a) % 8 == 0
    {
      var front_misalign := (b + 8) % 8;
      correction := 0;
      a := b;
      if front_misalign > 0 {
        correction := 8 - front_misalign;
        a := a + correction;
      }
      FirstAligned(b, front_misalign, a);
      FirstTopEnd(a, sbrk_size, RoundUp(a + sbrk_size));
      correction := correction + RoundUp(a + sbrk_size) - (a + sbrk_size);
    }

    /** Before the first chunk there are no blocks to keep. */
    lemma NoBlocks(h0: Heap, g: Heap, m: Mem, blocks: map<int, int>)
      requires Guards(h0, blocks) && h0.chunks == map[]
      ensures Guards(g, blocks) && Kept(m, mem, blocks)
    {
      forall a ensures GuardOk(g, blocks, a) {
        assert GuardOk(h0, blocks, a);
      }
      forall a, w ensures KeptAt(m, mem, blocks, a, w) {
        assert GuardOk(h0, blocks, a);
      }
    }

    /** chunksize(top): zero before there is one. */
    function TopSize(): int
      reads this`mem
    {
      ChunkSize(Ld(mem, av + 8))
    }

    /** With such a padding, the board's sbrk refuses, which the test for -1 does not notice, and the head of the
        top becomes negative. */
    lemma TrimBreaksTop()
      requires Valid() && h.top in h.chunks
      ensures var pad := TopSize() + W31 - 16;
              && 0 <= pad < W32 && TrimWraps(TopSize(), pad)
              && !(memStart <= U32(brk - TrimAmount(TopSize(), pad)) <= memEnd)
              && TrimAmount(TopSize(), pad) > TopSize()
    {
      InArena(h.top);
      TopBounds();
      assert U32(TopSize() - (TopSize() + W31 - 16) - MINSIZE + (PAGE - 1)) == W31 + PAGE - 1;
    }

    /** malloc_trim(pad) */
    method MallocTrim(pad: int, ghost blocks: map<int, int>) returns (released: bool)
      requires Valid() && Guards(h, blocks) && 0 <= pad < W32
      requires h.chunks != map[] || brk == av ==> !TrimWraps(TopSize(), pad)
      modifies this`mem, this`h, this`brk, this`sbrkedMem
      ensures Valid() && Guards(h, blocks) && Kept(old(mem), mem, blocks)
      ensures Blocks(h) == Blocks(old(h)) && SameButTop(old(h), h)
      ensures !released ==> h == old(h) && brk == old(brk)
      ensures released <==> old(h).top in old(h).chunks && old(h).chunks[old(h).top].size > pad + MINSIZE + PAGE
      ensures released ==>
                && h.top in h.chunks && h.chunks[h.top].size > pad + MINSIZE
                && h.chunks[h.top].size <= pad + MINSIZE + PAGE && brk < old(brk) && (old(brk) - brk) % PAGE == 0
      ensures old(Counted()) ==> Counted()
    {
      KeptSame(mem, blocks);
      TopBounds();
      var top := Ld(mem, av + 8);
      var top_size := ChunkSize(top);
      var extra := TrimAmount(top_size, pad);
      TrimLeaves(top_size, pad);
      if extra < PAGE {
        return false;
      }
      var current_brk := MoreCore(0);
      if current_brk != top + top_size {
        return false;
      }
      ReleaseTop(top_size, extra, blocks);
      return true;
    }

    /** The end of malloc_trim: whole pages at the end of the top go back to sbrk. */
    method ReleaseTop(top_size: int, extra: int, ghost blocks: map<int, int>)
      requires Valid() && Guards(h, blocks) && h.top in h.chunks && top_size == h.chunks[h.top].size
      requires PAGE <= extra <= top_size - MINSIZE && extra % PAGE == 0
      modifies this`mem, this`h, this`brk, this`sbrkedMem
      ensures Valid() && Guards(h, blocks) && Kept(old(mem), mem, blocks)
      ensures h == ResizeTop(old(h), top_size - extra) && Blocks(h) == Blocks(old(h)) && brk == old(brk) - extra
      ensures old(Counted()) ==> Counted()
    {
      TopBounds();
      InArena(h.top);
      var new_brk := MoreCore(-extra);
      if new_brk == -1 {
        // sbrk always takes back memory it gave, so the recovery from its refusal is never run
        assert false;
      }
      PageSum(top_size, h.top + top_size, -extra);
      StretchTop(top_size - extra, blocks);
      CountSbrked(-extra);
    }

    // ----- fREe -----

    /** fREe of a chunk that does not border the top. */
    method FreeBelowTop(p0: int, hd: int, sz0: int, next: int, nextsz: int, ghost blocks: map<int, int>)
      requires Ready({}) && Guards(h, blocks)
      requires InUse(h, p0) && p0 !in blocks && Next(h, p0) == next && next in h.chunks && next != h.top
      requires hd == Word(h.chunks[p0]) && sz0 == h.chunks[p0].size && nextsz == h.chunks[next].size
      modifies this`mem, this`h
      ensures SameEnds(old(h), h)
      ensures Ready({}) && Guards(h, blocks) && Kept(old(mem), mem, blocks)
      ensures Blocks(h) == Blocks(old(h)) - {p0} && JoinsLast(old(h), p0, h)
    {
      assert ChunkOk(h, p0);
      SetHead(next, nextsz, {}, blocks);
      ghost var m1 := mem;
      assert {} + {next} == {next};
      ghost var c;
      var p, sz, islr;
      c, p, sz, islr := ConsolidateBackward(p0, hd, sz0, next, blocks);
      ghost var m2 := mem;
      KeptTrans(old(mem), m1, m2, blocks);
      ListedNotKept(p, blocks);
      assert LastAt(h, next) == LastAt(old(h), next);
      sz, islr := ConsolidateForward(c, p, sz, islr, next, nextsz, blocks);
      assert p <= p0 < p + sz;
      ghost var m3 := mem;
      KeptTrans(old(mem), m2, m3, blocks);
      FinishFree(p, sz, islr, blocks);
      KeptTrans(old(mem), m3, mem, blocks);
    }

    lemma ListedNotKept(p: int, blocks: map<int, int>)
      requires Guards(h, blocks) && p in h.chunks
      ensures h.chunks[p].bin != 0 ==> p !in blocks
    {
      assert GuardOk(h, blocks, p);
    }

    /** fREe of a chunk that borders the top, up to the test for trimming. */
    method FreeIntoTop(c: int, hd: int, sz0: int, nextsz: int, ghost blocks: map<int, int>) returns (sz: int)
      requires Ready({}) && Guards(h, blocks)
      requires InUse(h, c) && c !in blocks && Next(h, c) == h.top && h.top in h.chunks
      requires hd == Word(h.chunks[c]) && sz0 == h.chunks[c].size && nextsz == h.chunks[h.top].size
      modifies this`mem, this`h
      ensures Ready({}) && Guards(h, blocks) && Kept(old(mem), mem, blocks)
      ensures Blocks(h) == Blocks(old(h)) - {c}
      ensures h.top in h.chunks && Next(h, h.top) == Next(old(h), old(h).top) && h.base == old(h).base
      ensures sz == h.chunks[h.top].size && TopStarts(old(h), c, h.top)
      ensures h.bins[1] == if LastBefore(old(h), c) then [] else old(h).bins[1]
    {
      var p := c;
      sz := sz0 + nextsz;
      EvenSize(c);
      KeptSame(mem, blocks);
      assert ChunkOk(h, c) && PairOk(h, c, h.top);
      if LastBefore(h, c) { OnlyLastBefore(h, c, c); }
      if hd % 2 == 0 {
        ghost var q := FreeBefore(h, c);
        ghost var i, k := Where(h, q);
        if i != 1 { NotLastBefore(c, q); }
        assert FootOk(mem, h, q) && FreeOk(h, q) && ChunkOk(h, q);
        var prevsz := Ld(mem, p);
        p := p - prevsz;
        sz := sz + prevsz;
        UnlinkBefore(p, c, i, k, {}, blocks);
        assert {} - {c} + {p} == {p};
      }
      ghost var m := mem;
      NewTop(p, sz, if p == c then {} else {p}, blocks);
      KeptTrans(old(mem), m, mem, blocks);
    }

    /** set_head(p, sz | PREV_INUSE); top = p, where p takes over the old top. */
    method NewTop(p: int, sz: int, ghost stale: set<int>, ghost blocks: map<int, int>)
      requires Ready(stale) && Guards(h, blocks) && stale <= {p}
      requires InUse(h, p) && p !in blocks && h.chunks[p].prevInUse && Next(h, p) == h.top && h.top in h.chunks
      requires sz == h.chunks[p].size + h.chunks[h.top].size
      modifies this`mem, this`h
      ensures Ready({}) && Guards(h, blocks) && Kept(old(mem), mem, blocks)
      ensures h == MergeTop(old(h), p) && Blocks(h) == Blocks(old(h)) - {p}
    {
      SetHead(p, sz + 1, stale, blocks);
      assert stale + {p} == {p};
      ghost var m := mem;
      ghost var g, g' := h.(top := p), MergeTop(h, p);
      MergeTopKeepsShape(h, p);
      MergeTopBlocks(h, p);
      WriteTop(mem, h, g, {p});
      KeptStatic(mem, h, av + 8, p, blocks);
      ChunkCells(h, p, p);
      GuardsKept(h, g', blocks);
      mem := mem[av + 8 := p];
      KeptTrans(old(mem), m, mem, blocks);
      Rechunk(mem, g, g', {p}, {p});
      h := g';
      assert ChunkOk(h, p);
      Restale(mem, h, {p}, {});
    }

    /** The size of the top after free has looked whether to trim it: unless it has reached the threshold and has more
        than a page over the padding, it stays; else whole pages go, and the padding and less than a page stay. */
    predicate TrimmedTo(size: int, left: int) {
      if size >= trimThreshold && size > topPad + MINSIZE + PAGE then
        topPad + MINSIZE < left <= topPad + MINSIZE + PAGE && (size - left) % PAGE == 0
      else left == size
    }

    /** free(ptr) */
    method Free(ptr: int)
      requires Valid() && (ptr == 0 || ptr - 8 in Blocks(h))
      modifies this`mem, this`h, this`brk, this`sbrkedMem
      ensures Valid()
      ensures ptr == 0 ==> h == old(h) && mem == old(mem) && brk == old(brk) && sbrkedMem == old(sbrkedMem)
      ensures ptr != 0 ==> Blocks(h) == Blocks(old(h)) - {ptr - 8}
      ensures Kept(old(mem), mem, Blocks(old(h)) - {ptr - 8})
      ensures ptr != 0 && Next(old(h), ptr - 8) != old(h).top ==>
                brk == old(brk) && SameEnds(old(h), h) && JoinsLast(old(h), ptr - 8, h)
      ensures ptr != 0 && Next(old(h), ptr - 8) == old(h).top ==>
                && TopStarts(old(h), ptr - 8, h.top) && TrimmedTo(old(brk) - h.top, brk - h.top)
                && h.bins[1] == if LastBefore(old(h), ptr - 8) then [] else old(h).bins[1]
      ensures old(Counted()) ==> Counted()
    {
      ghost var blocks := Blocks(h) - {ptr - 8};
      KeptSame(mem, blocks);
      if ptr == 0 {
        return;
      }
      var p := ptr - 8;
      var hd := Ld(mem, p + 4);
      var sz := hd - hd % 2;
      var next := p + sz;
      GuardsBlocks(h, blocks);
      ReadFreed(p);
      var nextsz := ChunkSize(next);
      if next == Ld(mem, av + 8) {
        FreeBesideTop(p, hd, sz, nextsz, blocks);
      } else {
        FreeBelowTop(p, hd, sz, next, nextsz, blocks);
      }
    }

    /** What the code reads of a block and of the chunk after it. */
    lemma ReadFreed(p: int)
      requires Valid() && InUse(h, p)
      ensures Ld(mem, p + 4) == Word(h.chunks[p]) && Ld(mem, p + 4) - Ld(mem, p + 4) % 2 == h.chunks[p].size
      ensures Next(h, p) in h.chunks && ChunkSize(Next(h, p)) == h.chunks[Next(h, p)].size
      ensures Ld(mem, av + 8) == h.top && h.top in h.chunks
    {
      assert HeadOk(mem, h, p) && ChunkOk(h, p) && HeadOk(mem, h, Next(h, p));
      EvenSize(p);
      SizeOfWord(h.chunks[p]);
      ReadHead(Next(h, p));
    }

    static lemma SizeOfWord(c: Chunk)
      requires c.size % 2 == 0
      ensures Word(c) - Word(c) % 2 == c.size
    {
    }

    /** fREe of a chunk that borders the top. */
    method FreeBesideTop(c: int, hd: int, sz0: int, nextsz: int, ghost blocks: map<int, int>)
      requires Valid() && Guards(h, blocks)
      requires InUse(h, c) && c !in blocks && Next(h, c) == h.top && h.top in h.chunks
      requires hd == Word(h.chunks[c]) && sz0 == h.chunks[c].size && nextsz == h.chunks[h.top].size
      modifies this`mem, this`h, this`brk, this`sbrkedMem
      ensures Valid() && Kept(old(mem), mem, blocks)
      ensures Blocks(h) == Blocks(old(h)) - {c}
      ensures TopStarts(old(h), c, h.top) && TrimmedTo(old(brk) - h.top, brk - h.top)
      ensures h.bins[1] == if LastBefore(old(h), c) then [] else old(h).bins[1]
      ensures old(Counted()) ==> Counted()
    {
      TopBounds();
      var sz := FreeIntoTop(c, hd, sz0, nextsz, blocks);
      assert Valid();
      TopBounds();
      if sz >= trimThreshold {
        ghost var m := mem;
        var released := MallocTrim(topPad, blocks);
        KeptTrans(old(mem), m, mem, blocks);
        TopBounds();
      }
    }

    // ----- mALLOc -----

    /** unlink(victim, bck, fwd); set_inuse_bit_at_offset(victim, victim_size) */
    method Take(victim: int, victim_size: int, ghost i: int, ghost k: int, ghost blocks: map<int, int>)
      requires Ready({}) && Guards(h, blocks)
      requires 1 <= i < NAV && 0 <= k < |h.bins[i]| && h.bins[i][k] == victim
      requires victim in h.chunks && victim_size == h.chunks[victim].size
      modifies this`mem, this`h
      ensures Ready({}) && SameEnds(old(h), h) && Guards(h, blocks) && Kept(old(mem), mem, blocks)
      ensures victim !in Blocks(old(h)) && InUse(h, victim) && h.chunks[victim].size == victim_size
      ensures h.chunks[victim].prevInUse && (i != 1 ==> h.bins[1] == old(h).bins[1])
      ensures Blocks(h) == Blocks(old(h))[victim := victim_size]
    {
      Holds(h, i, k);
      DetachBlocks(h, i, k);
      ghost var n := Next(h, victim);
      assert HeadOk(mem, h, n) && ChunkOk(h, victim);
      UnlinkChunk(victim, i, k, {}, blocks);
      ghost var m := mem;
      assert SameWordAt(old(mem), mem, h, n) && ChunkOk(h, n);
      EvenSize(n);
      assert {} + {n} == {n};
      var head := Ld(mem, victim + victim_size + 4);
      SetHead(victim + victim_size, head - head % 2 + 1, {n}, blocks);
      assert {n} - {n} == {};
      KeptTrans(old(mem), m, mem, blocks);
    }

    /** for (victim = last(bin); victim != bin; victim = victim->bk), up to the first that is large enough. */
    method ScanBin(i: int, nb: int) returns (victim: int, ghost k: int)
      requires Ready({}) && 2 <= i < NAV
      ensures -1 <= k < |h.bins[i]| && victim == At(h, i, k)
      ensures victim == av + 8 * i <==> k == -1
      ensures forall l :: k < l < |h.bins[i]| ==> h.bins[i][l] in h.chunks && h.chunks[h.bins[i][l]].size < nb
      ensures k >= 0 ==>
                victim in h.chunks && ChunkSize(victim) == h.chunks[victim].size >= nb && h.chunks[victim].bin == i
    {
      k := |h.bins[i]| - 1;
      assert LinkOk(mem, h, i, k);
      victim := Ld(mem, av + 8 * i + 12);
      while victim != av + 8 * i
        invariant -1 <= k < |h.bins[i]| && victim == At(h, i, k)
        invariant forall l :: k < l < |h.bins[i]| ==> h.bins[i][l] in h.chunks && h.chunks[h.bins[i][l]].size < nb
        decreases k
      {
        ReadItem(i, k, {});
        if ChunkSize(victim) >= nb {
          NodesDiffer(h, i, k, i, -1);
          return;
        }
        assert LinkOk(mem, h, i, k - 1);
        victim := Ld(mem, victim + 12);
        k := k - 1;
      }
      if k >= 0 {
        NodesDiffer(h, i, k, i, -1);
      }
    }

    /** set_head(remainder, size | PREV_INUSE); set_foot(remainder, size) */
    method WriteRemainder(r: int, size: int, ghost stale: set<int>, ghost blocks: map<int, int>)
      requires Ready(stale) && Guards(h, blocks)
      requires r in h.chunks && r in stale && h.chunks[r] == Chunk(size, true, 1) && r !in blocks && r != h.top
      modifies this`mem
      ensures Rep(mem, h, stale - {r}) && Kept(old(mem), mem, blocks)
      ensures forall a :: a in h.chunks && a != r ==> Ld(mem, a + 4) == Ld(old(mem), a + 4)
    {
      SetHead(r, size + 1, stale, blocks);
      ghost var m := mem;
      assert ChunkOk(h, r);
      ChunkCells(h, r, r);
      assert stale + {r} == stale;
      SetFoot(r, size, stale, blocks);
      KeptTrans(old(mem), m, mem, blocks);
      forall a | a in h.chunks && a != r ensures Ld(mem, a + 4) == Ld(old(mem), a + 4) {
        ChunkCells(h, a, r);
      }
    }

    /** Split a chunk taken from a regular bin: the block in front, the rest as last remainder. */
    method SplitVictim(victim: int, nb: int, remainder_size: int, ghost i: int, ghost k: int, ghost blocks: map<int,
                       int>)
      requires Ready({}) && Guards(h, blocks) && CanCarve(h, i, k, nb) && i >= 2
      requires h.bins[i][k] == victim && h.chunks[victim].size == nb + remainder_size
      modifies this`mem, this`h
      ensures Ready({}) && SameEnds(old(h), h) && Guards(h, blocks) && Kept(old(mem), mem, blocks)
      ensures h == Carve(old(h), i, k, nb)
    {
      var remainder := victim + nb;
      ghost var h0 := h;
      ghost var g := CarveGuarded(i, k, nb, blocks);
      SetHead(victim, nb + 1, {}, blocks);
      ghost var m1 := mem;
      assert {} + {victim} == {victim};
      UnlinkChunk(victim, i, k, {victim}, blocks);
      ghost var m2, n, h1 := mem, Next(h0, victim), h;
      KeptTrans(old(mem), m1, m2, blocks);
      LinkLastRemainder(remainder, g, {victim, n}, {victim, remainder, n}, blocks);
      ghost var m3 := mem;
      KeptTrans(old(mem), m2, m3, blocks);
      AfterLink(old(mem), m1, m2, h0, h1, victim, n);
      Restale(mem, h, {victim, remainder, n}, {remainder});
      WriteRemainder(remainder, remainder_size, {remainder}, blocks);
      KeptTrans(old(mem), m3, mem, blocks);
      assert {remainder} - {remainder} == {};
    }

    /** The heap after a carving keeps what it is asked to keep. */
    lemma CarveGuarded(i: int, k: int, nb: int, blocks: map<int, int>) returns (g: Heap)
      requires Ready({}) && Guards(h, blocks) && CanCarve(h, i, k, nb)
      ensures g == Carve(h, i, k, nb) && Shape(g) && Guards(g, blocks) && SameEnds(h, g)
      ensures g.bins[1] == [h.bins[i][k] + nb] && h.bins[i][k] + nb !in blocks && h.bins[i][k] + nb != g.top
      ensures InUse(g, h.bins[i][k]) && h.bins[i][k] + nb in g.chunks && h.bins[i][k] + nb !in h.chunks
      ensures Next(h, h.bins[i][k]) in h.chunks && Next(h, h.bins[i][k]) != h.bins[i][k]
      ensures h.bins[i][k] + nb != h.bins[i][k]
      ensures Next(h, h.bins[i][k]) in g.chunks && g.chunks[Next(h, h.bins[i][k])] == h.chunks[Next(h, h.bins[i][k])]
      ensures g.chunks[Next(h, h.bins[i][k])].bin == 0
    {
      var a := h.bins[i][k];
      Holds(h, i, k);
      CarveKeepsShape(h, i, k, nb);
      g := Carve(h, i, k, nb);
      assert PairOk(h, a, a + nb) && GuardOk(h, blocks, a) && GuardOk(h, blocks, a + nb) && ChunkOk(g, a + nb);
      assert ChunkOk(h, a);
      GuardsKept(h, g, blocks);
    }

    /** The stores of a split between the head of the victim and the remainder leave its head
        and the head after it as they were. */
    lemma AfterLink(m0: Mem, m1: Mem, m2: Mem, h0: Heap, h1: Heap, victim: int, n: int)
      requires victim in h.chunks && n in h.chunks && victim in h1.chunks && n in h1.chunks && victim != n
      requires HeadOk(m0, h0, n) && n in h0.chunks && h.chunks[n] == h0.chunks[n] && h.chunks[n].bin == 0
      requires m1 == m0[victim + 4 := Word(h.chunks[victim])] && h.chunks[victim].bin == 0
      requires SameWordAt(m1, m2, h1, victim) && SameWordAt(m1, m2, h1, n)
      requires SameWordAt(m2, mem, h, victim) && SameWordAt(m2, mem, h, n)
      ensures HeadOk(mem, h, victim) && FootOk(mem, h, victim) && HeadOk(mem, h, n) && FootOk(mem, h, n)
    {
    }

    /** Use a listed chunk that is large enough: split it when a chunk is left over, else take it all. */
    method TakeOrSplit(victim: int, nb: int, ghost i: int, ghost k: int, ghost blocks: map<int, int>)
      requires Ready({}) && Guards(h, blocks) && nb % 8 == 0 && nb >= MINSIZE
      requires 2 <= i < NAV && 0 <= k < |h.bins[i]| && h.bins[i][k] == victim && h.bins[1] == []
      requires victim in h.chunks && ChunkSize(victim) == h.chunks[victim].size >= nb
      modifies this`mem, this`h
      ensures Ready({}) && SameEnds(old(h), h) && Guards(h, blocks) && Kept(old(mem), mem, blocks)
      ensures Allocated(old(h), h, victim, nb) && h.bins[1] == RestOf(old(h), nb, victim)
    {
      var victim_size := ChunkSize(victim);
      var remainder_size := victim_size - nb;
      if remainder_size >= MINSIZE {
        CarveKeepsShape(h, i, k, nb);
        SplitVictim(victim, nb, remainder_size, i, k, blocks);
        CarvedFront(old(h), i, k, nb);
      } else {
        Take(victim, victim_size, i, k, blocks);
      }
    }

    lemma CarvedFront(h0: Heap, i: int, k: int, nb: int)
      requires Shape(h0) && CanCarve(h0, i, k, nb)
      ensures Allocated(h0, Carve(h0, i, k, nb), h0.bins[i][k], nb)
    {
      CarveKeepsShape(h0, i, k, nb);
      Holds(h0, i, k);
    }

    /** clear_last_remainder */
    method ClearLastRemainder(ghost blocks: map<int, int>)
      requires Ready({}) && Guards(h, blocks) && |h.bins[1]| == 1
      modifies this`mem, this`h
      ensures old(h).bins[1][0] in old(h).chunks && Next(old(h), old(h).bins[1][0]) in old(h).chunks
      ensures h == Detach(old(h), 1, 0) && Shape(h) && InUse(h, old(h).bins[1][0]) && Guards(h, blocks)
      ensures h.bins[1] == [] && SameEnds(old(h), h)
      ensures Rep(mem, h, {Next(h, old(h).bins[1][0])}) && FootOk(mem, h, Next(h, old(h).bins[1][0]))
      ensures Kept(old(mem), mem, blocks) && SameWords(old(mem), mem, h)
    {
      Holds(h, 1, 0);
      ghost var g := AfterUnlink(h.bins[1][0], 1, 0, {}, blocks);
      var l := av + 8;
      mem := mem[l + 12 := l];
      mem := mem[l + 8 := l];
      h := g;
    }

    /** "Re-split": the last remainder gives the block, and what is left is the last remainder. */
    method Resplit(victim: int, nb: int, remainder_size: int, ghost blocks: map<int, int>)
      requires Ready({}) && Guards(h, blocks) && CanCarve(h, 1, 0, nb) && |h.bins[1]| == 1
      requires h.bins[1][0] == victim && h.chunks[victim].size == nb + remainder_size
      modifies this`mem, this`h
      ensures Ready({}) && SameEnds(old(h), h) && Guards(h, blocks) && Kept(old(mem), mem, blocks)
      ensures h == Carve(old(h), 1, 0, nb)
    {
      var remainder := victim + nb;
      ghost var g := CarveGuarded(1, 0, nb, blocks);
      SetHead(victim, nb + 1, {}, blocks);
      ghost var m1 := mem;
      assert {} + {victim} == {victim};
      LinkLastRemainder(remainder, g, {victim}, {victim, remainder}, blocks);
      ghost var m2 := mem;
      KeptTrans(old(mem), m1, m2, blocks);
      assert SameWordAt(m1, m2, h, victim);
      Restale(mem, h, {victim, remainder}, {remainder});
      WriteRemainder(remainder, remainder_size, {remainder}, blocks);
      KeptTrans(old(mem), m2, mem, blocks);
      assert {remainder} - {remainder} == {};
    }

    /** mALLOc, "Try to use the last split-off remainder": returns 0 when it is too small, with
        the remainder in a bin. */
    method TryLastRemainder(nb: int, ghost blocks: map<int, int>) returns (p: int)
      requires Ready({}) && Guards(h, blocks) && nb % 8 == 0 && nb >= MINSIZE
      requires h.chunks != map[] ==> h.base > 0
      modifies this`mem, this`h
      ensures Ready({}) && SameEnds(old(h), h) && Guards(h, blocks) && Kept(old(mem), mem, blocks)
      ensures p != 0 ==> Allocated(old(h), h, p, nb)
      ensures p != 0 ==> p in old(h).chunks && old(h).chunks[p].bin == 1 && old(h).chunks[p].size >= nb
      ensures p != 0 ==> h.bins[1] == RestOf(old(h), nb, p)
      ensures p == 0 ==> Blocks(h) == Blocks(old(h)) && h.bins[1] == [] && SameSearch(old(h), h, nb)
      ensures p == 0 ==> SameSizes(old(h), h)
      ensures p == 0 && old(h).bins[1] != [] ==>
                old(h).bins[1][0] in old(h).chunks && old(h).chunks[old(h).bins[1][0]].size < nb
      ensures old(h).chunks == map[] ==> p == 0 && h == old(h) && Ld(mem, av + 4) == Ld(old(mem), av + 4)
    {
      NoNull();
      KeptSame(mem, blocks);
      assert LinkOk(mem, h, 1, -1);
      var victim := Ld(mem, av + 8 + 8);
      if victim == av + 8 {
        if h.bins[1] != [] { NodesDiffer(h, 1, 0, 1, -1); }
        return 0;
      }
      assert victim == h.bins[1][0];
      Holds(h, 1, 0);
      assert HeadOk(mem, h, victim);
      ReadHead(victim);
      var victim_size := ChunkSize(victim);
      var remainder_size := victim_size - nb;
      if remainder_size >= MINSIZE {
        CarvedFront(h, 1, 0, nb);
        Resplit(victim, nb, remainder_size, blocks);
        return victim;
      }
      if remainder_size >= 0 {
        ExhaustRemainder(victim, victim_size, blocks);
        return victim;
      }
      BinRemainder(victim, victim_size, nb, blocks);
      return 0;
    }

    /** clear_last_remainder; set_inuse_bit_at_offset(victim, victim_size) */
    method ExhaustRemainder(victim: int, victim_size: int, ghost blocks: map<int, int>)
      requires Ready({}) && Guards(h, blocks) && |h.bins[1]| == 1 && h.bins[1][0] == victim
      requires victim in h.chunks && victim_size == h.chunks[victim].size
      modifies this`mem, this`h
      ensures Ready({}) && SameEnds(old(h), h) && Guards(h, blocks) && Kept(old(mem), mem, blocks)
      ensures victim !in Blocks(old(h)) && InUse(h, victim) && h.chunks[victim].size == victim_size
      ensures h.chunks[victim].prevInUse && h.bins[1] == []
      ensures Blocks(h) == Blocks(old(h))[victim := victim_size]
    {
      Holds(h, 1, 0);
      DetachBlocks(h, 1, 0);
      ghost var n := Next(h, victim);
      assert HeadOk(mem, h, n) && ChunkOk(h, victim);
      ClearLastRemainder(blocks);
      ghost var m := mem;
      assert SameWordAt(old(mem), mem, h, n) && ChunkOk(h, n);
      EvenSize(n);
      assert {} + {n} == {n};
      var head := Ld(mem, victim + victim_size + 4);
      SetHead(victim + victim_size, head - head % 2 + 1, {n}, blocks);
      assert {n} - {n} == {};
      KeptTrans(old(mem), m, mem, blocks);
    }

    /** clear_last_remainder; frontlink(victim, victim_size, remainder_index, bck, fwd) */
    method BinRemainder(victim: int, victim_size: int, ghost nb: int, ghost blocks: map<int, int>)
      requires Ready({}) && Guards(h, blocks) && |h.bins[1]| == 1 && h.bins[1][0] == victim
      requires victim in h.chunks && victim_size == h.chunks[victim].size < nb
      modifies this`mem, this`h
      ensures Ready({}) && SameEnds(old(h), h) && Guards(h, blocks) && Kept(old(mem), mem, blocks)
      ensures Blocks(h) == Blocks(old(h)) && h.bins[1] == [] && SameSearch(old(h), h, nb) && SameSizes(old(h), h)
    {
      Holds(h, 1, 0);
      DetachBlocks(h, 1, 0);
      ghost var h0, n := h, Next(h, victim);
      assert HeadOk(mem, h, n) && HeadOk(mem, h, victim) && FootOk(mem, h, victim) && ChunkOk(h, victim);
      assert GuardOk(h, blocks, victim);
      ClearLastRemainder(blocks);
      ghost var m1, h1 := mem, h;
      assert SameWordAt(old(mem), m1, h, n) && SameWordAt(old(mem), m1, h, victim);
      BinIndexRange(victim_size);
      ghost var k := ListAgain(victim, victim_size, h0, blocks);
      AttachBlocks(h1, victim, BinIndex(victim_size), k);
      KeptTrans(old(mem), m1, mem, blocks);
      SearchBefore(h0, h1, victim, BinIndex(victim_size), k, nb);
      PutAndTaken(Blocks(h0), victim, victim_size);
    }

    static lemma PutAndTaken(b: map<int, int>, p: int, s: int)
      requires p !in b
      ensures b[p := s] - {p} == b
    {
    }

    /** frontlink of a chunk that was listed before, in h0: its tags are still those of a free chunk. */
    method ListAgain(victim: int, victim_size: int, ghost h0: Heap, ghost blocks: map<int, int>) returns (ghost k: int)
      requires h.av == av && Shape(h) && CanFree(h, victim) && victim_size == h.chunks[victim].size >= MINSIZE
      requires Rep(mem, h, {Next(h, victim)}) && Guards(h, blocks) && victim !in blocks
      requires |h0.bins| == NAV && |h0.bins[1]| == 1 && h0.bins[1][0] == victim && victim in h0.chunks
      requires Next(h0, victim) in h0.chunks && h == Detach(h0, 1, 0) && !h0.chunks[Next(h0, victim)].prevInUse
      requires HeadOk(mem, h0, victim) && HeadOk(mem, h0, Next(h0, victim))
      requires Ld(mem, Next(h0, victim)) == victim_size
      modifies this`mem, this`h
      ensures 2 <= BinIndex(victim_size) < NAV && Fits(old(h), BinIndex(victim_size), k, victim_size)
      ensures h == Attach(old(h), victim, BinIndex(victim_size), k) && Ready({}) && Guards(h, blocks)
      ensures Kept(old(mem), mem, blocks)
    {
      ghost var n, m1, h1 := Next(h, victim), mem, h;
      BinIndexRange(victim_size);
      k := Frontlink(victim, victim_size, {n}, blocks);
      assert SameWordAt(m1, mem, h1, n) && SameWordAt(m1, mem, h1, victim);
      assert {n} + {victim, n} == {victim, n};
      Restale(mem, h, {victim, n}, {});
    }

    lemma SearchBefore(h0: Heap, h1: Heap, a: int, i: int, k: int, nb: int)
      requires Shape(h0) && |h0.bins[1]| == 1 && h0.bins[1][0] == a && a in h0.chunks && Next(h0, a) in h0.chunks
      requires h1 == Detach(h0, 1, 0) && Shape(h1)
      requires CanFree(h1, a) && Fits(h1, i, k, h1.chunks[a].size) && h1.chunks[a].size < nb
      ensures SameSearch(h0, Attach(h1, a, i, k), nb)
    {
      var g := Attach(h1, a, i, k);
      forall p | Best(g, nb, p) ensures Best(h0, nb, p) {
        BestBefore(h1, a, i, k, nb, p);
        BestBeforeDetach(h0, nb, p);
      }
      forall j | 2 <= j ensures NoneIn(g, nb, j) <==> NoneIn(h0, nb, j) {
        NoneBefore(h1, a, i, k, nb, j);
        NoneBeforeDetach(h0, nb, j);
      }
    }

    /** while ((block & binblocks) == 0) { idx += BINBLOCKWIDTH; block <<= 1; }
        It stops, because a word at least an unmarked bit has a higher one. */
    method NextMarked(idx0: int, block0: int) returns (idx: int, block: int)
      requires Ready({}) && 0 <= idx0 < NAV && idx0 % BINBLOCKWIDTH == 0
      requires block0 == Pow2(idx0 / BINBLOCKWIDTH) <= Ld(mem, av + 4)
      ensures idx0 <= idx < NAV && idx % BINBLOCKWIDTH == 0 && block == Pow2(idx / BINBLOCKWIDTH)
      ensures Marked(Ld(mem, av + 4), idx / BINBLOCKWIDTH)
      ensures forall i :: idx0 <= i < idx && 2 <= i ==> h.bins[i] == []
    {
      idx, block := idx0, block0;
      while !Marked(Ld(mem, av + 4), idx / BINBLOCKWIDTH)
        invariant idx0 <= idx < NAV && idx % BINBLOCKWIDTH == 0
        invariant block == Pow2(idx / BINBLOCKWIDTH) <= Ld(mem, av + 4)
        invariant forall i :: idx0 <= i < idx && 2 <= i ==> h.bins[i] == []
        decreases NAV - idx
      {
        SkipBlock(Ld(mem, av + 4), idx / BINBLOCKWIDTH);
        BitInWord(Ld(mem, av + 4), idx / BINBLOCKWIDTH + 1);
        forall i | idx <= i < idx + BINBLOCKWIDTH && 2 <= i ensures h.bins[i] == [] {
          assert MarkOk(mem, h, i) && i / BINBLOCKWIDTH == idx / BINBLOCKWIDTH;
        }
        idx := idx + BINBLOCKWIDTH;
        block := 2 * block;
      }
    }

    /** When binblocks is below the bit of a block, all bins from there on are empty. */
    lemma NoMoreBlocks(b: int)
      requires Ready({}) && 0 <= b < 32 && Ld(mem, av + 4) < Pow2(b)
      ensures forall i :: BINBLOCKWIDTH * b <= i < NAV && 2 <= i ==> h.bins[i] == []
    {
      forall i | BINBLOCKWIDTH * b <= i < NAV && 2 <= i ensures h.bins[i] == [] {
        assert MarkOk(mem, h, i);
        NoHigherBlock(Ld(mem, av + 4), b, i / BINBLOCKWIDTH);
      }
    }

    /** The bins of one block from idx0 on: use the first chunk that is large enough. */
    method SearchBlock(idx0: int, nb: int, ghost blocks: map<int, int>) returns (victim: int, idx: int)
      requires Ready({}) && Guards(h, blocks) && nb % 8 == 0 && nb >= MINSIZE && h.bins[1] == []
      requires BINBLOCKWIDTH <= idx0 < NAV && (h.chunks != map[] ==> h.base > 0)
      requires forall j {:trigger NoneIn(h, nb, j)} :: 2 <= j < idx0 ==> NoneIn(h, nb, j)
      modifies this`mem, this`h
      ensures Ready({}) && SameEnds(old(h), h) && Guards(h, blocks) && Kept(old(mem), mem, blocks)
      ensures victim != 0 ==> Allocated(old(h), h, victim, nb) && Best(old(h), nb, victim)
      ensures victim != 0 ==> h.bins[1] == RestOf(old(h), nb, victim)
      ensures victim == 0 ==> h == old(h) && mem == old(mem)
      ensures victim == 0 ==> idx == idx0 - idx0 % BINBLOCKWIDTH + BINBLOCKWIDTH
      ensures victim == 0 ==> forall j {:trigger NoneIn(h, nb, j)} :: 2 <= j < idx ==> NoneIn(h, nb, j)
    {
      idx := idx0;
      victim := 0;
      NoNull();
      KeptSame(mem, blocks);
      ghost var last := idx0 - idx0 % BINBLOCKWIDTH + BINBLOCKWIDTH;
      while true
        invariant idx0 <= idx < last <= NAV && h == old(h) && mem == old(mem) && victim == 0
        invariant forall j {:trigger NoneIn(h, nb, j)} :: 2 <= j < idx ==> NoneIn(h, nb, j)
        decreases last - idx
      {
        var v;
        ghost var k;
        v, k := ScanBin(idx, nb);
        if v != av + 8 * idx {
          FirstIsBest(h, nb, idx, k);
          TakeOrSplit(v, nb, idx, k, blocks);
          victim := v;
          return;
        }
        assert NoneIn(h, nb, idx);
        idx := idx + 1;
        if idx % BINBLOCKWIDTH == 0 {
          return;
        }
      }
    }

    /** Clear the bit of a searched block when all its bins are empty, those before the start of
        the search included. */
    method ClearIfEmpty(startidx0: int, block: int, ghost blocks: map<int, int>)
      requires Ready({}) && Guards(h, blocks)
      requires BINBLOCKWIDTH <= startidx0 < NAV && block == Pow2(startidx0 / BINBLOCKWIDTH)
      requires forall i :: startidx0 <= i < startidx0 - startidx0 % BINBLOCKWIDTH + BINBLOCKWIDTH ==> h.bins[i] == []
      modifies this`mem
      ensures Ready({}) && Kept(old(mem), mem, blocks)
    {
      KeptSame(mem, blocks);
      var startidx := startidx0;
      ghost var end := startidx0 - startidx0 % BINBLOCKWIDTH + BINBLOCKWIDTH;
      while true
        invariant end - BINBLOCKWIDTH <= startidx <= startidx0 && mem == old(mem)
        invariant forall i :: startidx <= i < end ==> h.bins[i] == []
        decreases startidx
      {
        if startidx % BINBLOCKWIDTH == 0 {
          ClearBinBlock(startidx / BINBLOCKWIDTH, blocks);
          return;
        }
        startidx := startidx - 1;
        var q := av + 8 * startidx;
        assert LinkOk(mem, h, startidx, -1);
        if Ld(mem, q + 8) != q {
          return;
        }
        if h.bins[startidx] != [] { NodesDiffer(h, startidx, 0, startidx, -1); }
      }
    }

    /** binblocks &= ~block */
    method ClearBinBlock(b: int, ghost blocks: map<int, int>)
      requires Ready({}) && Guards(h, blocks) && 1 <= b < 32
      requires forall i :: BINBLOCKWIDTH * b <= i < BINBLOCKWIDTH * b + BINBLOCKWIDTH ==> h.bins[i] == []
      modifies this`mem
      ensures Ready({}) && Kept(old(mem), mem, blocks)
    {
      var w := Ld(mem, av + 4);
      mem := mem[av + 4 := Clear(w, b)];
      ClearOne(w, b, b);
      forall i | 2 <= i < NAV && h.bins[i] != [] && Marked(w, i / BINBLOCKWIDTH)
        ensures Marked(Clear(w, b), i / BINBLOCKWIDTH)
      {
        ClearOne(w, b, i / BINBLOCKWIDTH);
      }
      WriteMarks(old(mem), h, {}, Clear(w, b));
      KeptStatic(old(mem), h, av + 4, Clear(w, b), blocks);
    }

    /** "Get to the first marked block": from inside an unmarked block to the start of a marked one. */
    method FirstMarked(idx0: int, block0: int, ghost nb: int) returns (idx: int, block: int)
      requires Ready({}) && BINBLOCKWIDTH <= idx0 < NAV && SearchStart(h, idx0, nb)
      requires block0 == Pow2(idx0 / BINBLOCKWIDTH) <= Ld(mem, av + 4)
      ensures idx0 <= idx < NAV && SearchStart(h, idx, nb) && block == Pow2(idx / BINBLOCKWIDTH)
    {
      idx, block := idx0, block0;
      if !Marked(Ld(mem, av + 4), idx / BINBLOCKWIDTH) {
        ghost var k := idx / BINBLOCKWIDTH;
        SkipBlock(Ld(mem, av + 4), k);
        BitInWord(Ld(mem, av + 4), k + 1);
        idx := idx - idx % BINBLOCKWIDTH + BINBLOCKWIDTH;
        block := 2 * block;
        forall i | idx0 <= i < idx ensures h.bins[i] == [] {
          assert MarkOk(mem, h, i) && i / BINBLOCKWIDTH == k;
        }
        idx, block := NextMarked(idx, block);
        SkipEmpty(h, idx0, idx, nb);
      }
    }

    /** block <<= 1, and on to the next marked block if there is one. */
    method NextBlock(idx0: int, block0: int, ghost nb: int) returns (found: bool, idx: int, block: int)
      requires Ready({}) && BINBLOCKWIDTH < idx0 <= NAV && idx0 % BINBLOCKWIDTH == 0 && SearchStart(h, idx0, nb)
      requires block0 == Pow2(idx0 / BINBLOCKWIDTH - 1)
      ensures found ==> idx0 <= idx < NAV && SearchStart(h, idx, nb) && block == Pow2(idx / BINBLOCKWIDTH)
      ensures !found ==> NoneFits(h, nb)
    {
      idx := idx0;
      ghost var k := idx / BINBLOCKWIDTH;
      assert 2 * block0 == Pow2(k);
      block := ShiftBlock(block0, k);
      if block <= Ld(mem, av + 4) && block != 0 {
        idx, block := NextMarked(idx, block);
        SkipEmpty(h, idx0, idx, nb);
        found := true;
      } else {
        if idx < NAV { NoMoreBlocks(k); }
        SkipEmpty(h, idx0, NAV, nb);
        found := false;
      }
    }

    /** block <<= 1 in a word: past the last block it becomes zero. */
    method ShiftBlock(block0: int, ghost k: int) returns (block: int)
      requires 1 <= k <= 32 && 2 * block0 == Pow2(k)
      ensures block == if k < 32 then Pow2(k) else 0
    {
      block := U32(2 * block0);
      WordPower();
      if k < 32 {
        Pow2Grows(k, 31);
        assert Pow2(32) == 2 * Pow2(31);
      }
    }

    /** mALLOc, the search of the bins block by block: returns 0 when nothing fits. */
    method SearchBlocks(idx0: int, nb: int, ghost blocks: map<int, int>) returns (victim: int)
      requires Ready({}) && Guards(h, blocks) && nb % 8 == 0 && nb >= MINSIZE && h.bins[1] == []
      requires BINBLOCKWIDTH <= idx0 < NAV && SearchStart(h, idx0, nb)
      requires h.chunks != map[] ==> h.base > 0
      modifies this`mem, this`h
      ensures Ready({}) && SameEnds(old(h), h) && Guards(h, blocks) && Kept(old(mem), mem, blocks)
      ensures victim != 0 ==> Allocated(old(h), h, victim, nb) && Best(old(h), nb, victim)
      ensures victim != 0 ==> h.bins[1] == RestOf(old(h), nb, victim)
      ensures victim == 0 ==> h == old(h) && NoneFits(h, nb)
      ensures Ld(old(mem), av + 4) == 0 ==> mem == old(mem)
    {
      NoNull();
      KeptSame(mem, blocks);
      var idx := idx0;
      var block := Pow2(idx / BINBLOCKWIDTH);
      victim := 0;
      if block > Ld(mem, av + 4) {
        NoMoreBlocks(idx / BINBLOCKWIDTH);
        SkipEmpty(h, idx, NAV, nb);
        return;
      }
      idx, block := FirstMarked(idx, block, nb);
      while true
        invariant Ready({}) && h == old(h) && Guards(h, blocks) && Kept(old(mem), mem, blocks)
        invariant BINBLOCKWIDTH <= idx < NAV && SearchStart(h, idx, nb) && block == Pow2(idx / BINBLOCKWIDTH)
        invariant victim == 0
        decreases NAV - idx
      {
        var startidx := idx;
        ghost var m := mem;
        victim, idx := SearchBlock(startidx, nb, blocks);
        KeptTrans(old(mem), m, mem, blocks);
        if victim != 0 {
          return;
        }
        SearchedEmpty(h, startidx, idx, nb);
        ClearIfEmpty(startidx, block, blocks);
        KeptTrans(old(mem), m, mem, blocks);
        assert idx / BINBLOCKWIDTH - 1 == startidx / BINBLOCKWIDTH;
        var found;
        found, idx, block := NextBlock(idx, block, nb);
        if !found {
          return;
        }
      }
    }

    /** Carve the block from the front of the top. */
    method TakeTop(nb: int, remainder_size: int, ghost blocks: map<int, int>) returns (victim: int)
      requires Valid() && Guards(h, blocks) && CanSplit(h, h.top, nb)
      requires remainder_size == h.chunks[h.top].size - nb
      modifies this`mem, this`h
      ensures Valid() && Guards(h, blocks) && Kept(old(mem), mem, blocks)
      ensures victim == old(h).top && h == SplitTop(old(h), nb) && Allocated(old(h), h, victim, nb)
    {
      victim := Ld(mem, av + 8);
      ghost var t := h.top + nb;
      SplitTopBlocks(h, nb);
      TopNotKept(blocks);
      SetHead(victim, nb + 1, {}, blocks);
      ghost var m1 := mem;
      assert {} + {victim} == {victim};
      SetTop(victim, nb, blocks);
      ghost var m2 := mem;
      KeptTrans(old(mem), m1, m2, blocks);
      SetHead(victim + nb, remainder_size + 1, {t}, blocks);
      KeptTrans(old(mem), m2, mem, blocks);
      assert {t} - {t} == {};
    }

    /** top = chunk_at_offset(victim, nb), once the head of the victim has been set. */
    method SetTop(victim: int, nb: int, ghost blocks: map<int, int>)
      requires Ready({victim}) && Guards(h, blocks) && CanSplit(h, h.top, nb) && victim == h.top
      requires victim + 4 in mem && mem[victim + 4] == nb + 1
      modifies this`mem, this`h
      ensures h == SplitTop(old(h), nb) && Ready({h.top}) && Guards(h, blocks) && Kept(old(mem), mem, blocks)
    {
      ghost var t := victim + nb;
      ghost var g, g' := h.(top := t), SplitTop(h, nb);
      SplitTopKeepsShape(h, nb);
      WriteTop(mem, h, g, {victim});
      KeptStatic(mem, h, av + 8, t, blocks);
      ChunkCells(h, victim, victim);
      GuardsKept(h, g', blocks);
      mem := mem[av + 8 := victim + nb];
      Rechunk(mem, g, g', {victim}, {victim, t});
      h := g';
      assert ChunkOk(h, victim) && ChunkOk(h, t);
      Restale(mem, h, {victim, t}, {t});
    }

    lemma TopNotKept(blocks: map<int, int>)
      requires Guards(h, blocks)
      ensures h.top !in blocks && forall a :: a in blocks && InUse(h, a) ==> a != h.top
    {
      assert GuardOk(h, blocks, h.top);
    }

    /** mALLOc, "Check for exact match in a bin": returns 0 and where to search on when there is none. */
    method TryBins(nb: int, ghost blocks: map<int, int>) returns (victim: int, idx: int)
      requires Ready({}) && Guards(h, blocks) && nb % 8 == 0 && nb >= MINSIZE
      requires h.chunks != map[] ==> h.base > 0
      modifies this`mem, this`h
      ensures Ready({}) && SameEnds(old(h), h) && Guards(h, blocks) && Kept(old(mem), mem, blocks)
      ensures victim != 0 ==>
                && Allocated(old(h), h, victim, nb) && Best(old(h), nb, victim) && Exact(old(h), nb, victim)
                && h.bins[1] == old(h).bins[1]
      ensures victim == 0 ==> h == old(h) && mem == old(mem) && NoExact(h, nb)
      ensures victim == 0 ==> BINBLOCKWIDTH <= idx < NAV && SearchStart(h, idx, nb)
    {
      NoNull();
      KeptSame(mem, blocks);
      BinIndexRange(nb);
      forall j | 2 <= j < BinIndex(nb) ensures NoneIn(h, nb, j) {
        LowerBins(h, nb, j);
      }
      if nb < 504 {
        victim, idx := TrySmallBins(nb, blocks);
      } else {
        idx := BinIndex(nb);
        var v;
        ghost var k;
        v, k := ScanBin(idx, nb);
        if v != av + 8 * idx {
          if ChunkSize(v) - nb < MINSIZE {
            FirstIsBest(h, nb, idx, k);
            Take(v, ChunkSize(v), idx, k, blocks);
            return v, idx;
          }
        } else {
          idx := idx + 1;
        }
        NoExactIn(h, nb, k);
        victim := 0;
        assert k >= 0 ==> !NoneIn(h, nb, BinIndex(nb));
        assert k < 0 ==> NoneIn(h, nb, BinIndex(nb));
      }
    }

    /** The faster version for small requests: the last chunk of the bin for nb or of the next one. */
    method TrySmallBins(nb: int, ghost blocks: map<int, int>) returns (victim: int, idx: int)
      requires Ready({}) && Guards(h, blocks) && nb % 8 == 0 && MINSIZE <= nb < 504
      requires h.chunks != map[] ==> h.base > 0
      requires forall j {:trigger NoneIn(h, nb, j)} :: 2 <= j < nb / 8 ==> NoneIn(h, nb, j)
      modifies this`mem, this`h
      ensures Ready({}) && SameEnds(old(h), h) && Guards(h, blocks) && Kept(old(mem), mem, blocks)
      ensures victim != 0 ==>
                && Allocated(old(h), h, victim, nb) && Best(old(h), nb, victim) && Exact(old(h), nb, victim)
                && h.bins[1] == old(h).bins[1]
      ensures victim == 0 ==> h == old(h) && mem == old(mem) && NoExact(h, nb)
      ensures victim == 0 ==> BINBLOCKWIDTH <= idx < NAV && SearchStart(h, idx, nb)
    {
      NoNull();
      KeptSame(mem, blocks);
      BinIndexRange(nb);
      idx := nb / 8;
      ghost var i, k := idx, |h.bins[idx]| - 1;
      var q := av + 8 * idx;
      assert LinkOk(mem, h, idx, |h.bins[idx]| - 1) && LinkOk(mem, h, idx + 1, |h.bins[idx + 1]| - 1);
      victim := Ld(mem, q + 12);
      if victim == q {
        EmptyIfSelf(idx);
        assert NoneIn(h, nb, idx);
        q := q + 8;
        victim := Ld(mem, q + 12);
        i, k := idx + 1, |h.bins[idx + 1]| - 1;
      }
      if victim != q {
        SmallSize(i, k);
        var victim_size := ChunkSize(victim);
        FirstIsBest(h, nb, i, k);
        Holds(h, i, k);
        assert Exact(h, nb, victim);
        Take(victim, victim_size, i, k, blocks);
        return;
      }
      EmptyIfSelf(i);
      assert NoneIn(h, nb, i);
      NoExactSmall(h, nb);
      victim := 0;
      idx := idx + 2;
    }

    lemma EmptyIfSelf(i: int)
      requires Ready({}) && 2 <= i < NAV && At(h, i, |h.bins[i]| - 1) == BinAt(h, i)
      ensures h.bins[i] == []
    {
      if h.bins[i] != [] { NodesDiffer(h, i, |h.bins[i]| - 1, i, -1); }
    }

    /** A small bin holds chunks of one size, eight times its index. */
    lemma SmallSize(i: int, k: int)
      requires Ready({}) && 2 <= i < 64 && 0 <= k < |h.bins[i]|
      ensures h.bins[i][k] in h.chunks && ChunkSize(h.bins[i][k]) == h.chunks[h.bins[i][k]].size == 8 * i
    {
      ReadItem(i, k, {});
      assert ItemOk(h, i, k) && ChunkOk(h, h.bins[i][k]) && AlignOk(h, h.bins[i][k]);
      BinIndexRange(h.chunks[h.bins[i][k]].size);
    }

    /** malloc(bytes) */
    method Malloc(bytes: int) returns (ptr: int)
      requires Valid() && 0 <= bytes < W32 && (bytes < W31 ==> SafeToGrow(Request2Size(bytes)))
      modifies this`mem, this`h, this`brk, this`sbrkBase, this`sbrkedMem
      ensures Valid() && Kept(old(mem), mem, Blocks(old(h)))
      ensures bytes >= W31 ==> ptr == 0
      ensures ptr == 0 ==> Blocks(h) == Blocks(old(h))
      ensures ptr == 0 && bytes < W31 ==>
                MustGrow(old(h), Request2Size(bytes)) && !RoomToGrow(old(brk), Request2Size(bytes))
      ensures ptr != 0 ==> ptr > 8 && Allocated(old(h), h, ptr - 8, Request2Size(bytes))
      ensures ptr != 0 && old(h).chunks == map[] ==> Next(h, ptr - 8) == h.top
      ensures ptr != 0 ==> Chosen(old(h), Request2Size(bytes), ptr - 8)
      ensures bytes < W31 ==>
                h.bins[1] == if ptr == 0 then [] else RemainderAfter(old(h), Request2Size(bytes), ptr - 8)
      ensures old(h).chunks != map[] ==>
                brk == if bytes < W31 && MustGrow(old(h), Request2Size(bytes))
                       then BrkAfter(old(brk), Request2Size(bytes)) else old(brk)
      ensures old(Counted()) && !old(Misaligned()) ==> Counted()
    {
      ghost var blocks := Blocks(h);
      KeptSame(mem, blocks);
      if Long(bytes) < 0 {
        return 0;
      }
      var nb := Request2Size(bytes);
      GuardsBlocks(h, blocks);
      var victim := FindBlock(nb, blocks);
      return if victim == 0 then 0 else victim + 8;
    }

    /** mALLOc once the request has been padded. */
    method FindBlock(nb: int, ghost blocks: map<int, int>) returns (victim: int)
      requires Valid() && Guards(h, blocks) && nb % 8 == 0 && MINSIZE <= nb <= W31 - 8 && SafeToGrow(nb)
      modifies this`mem, this`h, this`brk, this`sbrkBase, this`sbrkedMem
      ensures Valid() && Kept(old(mem), mem, blocks)
      ensures victim == 0 ==> Blocks(h) == Blocks(old(h)) && MustGrow(old(h), nb) && !RoomToGrow(old(brk), nb)
      ensures victim != 0 ==> victim > 0 && Allocated(old(h), h, victim, nb) && Chosen(old(h), nb, victim)
      ensures h.bins[1] == if victim == 0 then [] else RemainderAfter(old(h), nb, victim)
      ensures victim != 0 && old(h).chunks == map[] ==> Next(h, victim) == h.top
      ensures old(h).chunks != map[] ==> brk == if MustGrow(old(h), nb) then BrkAfter(old(brk), nb) else old(brk)
      ensures old(Counted()) && !old(Misaligned()) ==> Counted()
    {
      victim := TryFree(nb, blocks);
      if victim == 0 {
        ghost var m := mem;
        assert TopFits(h, nb) == TopFits(old(h), nb);
        victim := TryTop(nb, blocks);
        KeptTrans(old(mem), m, mem, blocks);
        assert h.bins[1] == [] && (old(h).top in old(h).chunks ==> old(h).chunks[old(h).top].bin == 0);
      } else {
        FreeFits(old(h), nb, victim);
      }
    }

    /** mALLOc up to the use of the top: an exact match, the last remainder, or the best fit. */
    method TryFree(nb: int, ghost blocks: map<int, int>) returns (victim: int)
      requires Valid() && Guards(h, blocks) && nb % 8 == 0 && MINSIZE <= nb <= W31 - 8
      modifies this`mem, this`h
      ensures Valid() && SameEnds(old(h), h) && Guards(h, blocks) && Kept(old(mem), mem, blocks)
      ensures old(h).chunks == map[] ==> h == old(h)
      ensures victim != 0 ==> victim > 0 && Allocated(old(h), h, victim, nb)
      ensures victim != 0 ==> victim in old(h).chunks && old(h).chunks[victim].bin != 0 && Chosen(old(h), nb, victim)
      ensures h.bins[1] == if victim == 0 then [] else RemainderAfter(old(h), nb, victim)
      ensures victim == 0 ==> Blocks(h) == Blocks(old(h)) && NoneFits(old(h), nb) && RemainderBelow(old(h), nb)
    {
      NoNull();
      var idx;
      victim, idx := TryBins(nb, blocks);
      if victim == 0 {
        victim := TryLastRemainder(nb, blocks);
        if victim == 0 {
          ghost var m, h1 := mem, h;
          SearchStartKept(old(h), h1, idx, nb);
          victim := SearchBlocks(idx, nb, blocks);
          KeptTrans(old(mem), m, mem, blocks);
          if victim == 0 {
            NoneFitsBefore(old(h), h1, nb);
          } else {
            assert SameSize(old(h), h1, victim) && !Exact(old(h), nb, victim);
          }
        }
      }
    }

    lemma NoNull()
      requires Ready({}) && (h.chunks != map[] ==> h.base > 0)
      ensures forall a :: a in h.chunks ==> a > 0
    {
      forall a | a in h.chunks ensures a > 0 {
        assert ChunkOk(h, a);
      }
    }

    /** mALLOc, "Try to use top chunk", extended when it is too small: returns 0 when that fails. */
    method TryTop(nb: int, ghost blocks: map<int, int>) returns (victim: int)
      requires Valid() && Guards(h, blocks) && nb % 8 == 0 && MINSIZE <= nb <= W31 - 8 && SafeToGrow(nb)
      modifies this`mem, this`h, this`brk, this`sbrkBase, this`sbrkedMem
      ensures Valid() && Guards(h, blocks) && Kept(old(mem), mem, blocks)
      ensures victim != 0 ==> victim > 0 && Allocated(old(h), h, victim, nb)
      ensures victim != 0 ==> victim == old(h).top || old(h).chunks == map[]
      ensures victim != 0 ==> Next(h, victim) == h.top
      ensures h.bins == old(h).bins
      ensures victim == 0 ==> Blocks(h) == Blocks(old(h)) && !RoomToGrow(old(brk), nb)
      ensures TopFits(old(h), nb) ==> victim != 0 && brk == old(brk)
      ensures !TopFits(old(h), nb) && old(h).chunks != map[] ==> brk == BrkAfter(old(brk), nb)
      ensures old(Counted()) && !old(Misaligned()) ==> Counted()
    {
      var remainder_size := RoomAtTop(nb, blocks);
      if remainder_size < MINSIZE {
        return 0;
      }
      ghost var m := mem;
      NoNull();
      TopBounds();
      victim := TakeTop(nb, remainder_size, blocks);
      KeptTrans(old(mem), m, mem, blocks);
    }

    /** What the top has over nb bytes, once it has been extended if that is not enough. */
    method RoomAtTop(nb: int, ghost blocks: map<int, int>) returns (remainder_size: int)
      requires Valid() && Guards(h, blocks) && nb % 8 == 0 && MINSIZE <= nb <= W31 - 8 && SafeToGrow(nb)
      modifies this`mem, this`h, this`brk, this`sbrkBase, this`sbrkedMem
      ensures Valid() && Guards(h, blocks) && Kept(old(mem), mem, blocks)
      ensures Blocks(h) == Blocks(old(h)) && remainder_size == ChunkSize(h.top) - nb && h.bins == old(h).bins
      ensures old(h).chunks == map[] || (h.top == old(h).top && h.chunks != map[])
      ensures TopFits(old(h), nb) ==> remainder_size >= MINSIZE && brk == old(brk)
      ensures !TopFits(old(h), nb) && old(h).chunks != map[] ==> brk == BrkAfter(old(brk), nb)
      ensures remainder_size < MINSIZE ==> !RoomToGrow(old(brk), nb)
      ensures old(Counted()) && !old(Misaligned()) ==> Counted()
    {
      TopBounds();
      remainder_size := ChunkSize(Ld(mem, av + 8)) - nb;
      KeptSame(mem, blocks);
      if remainder_size < MINSIZE {
        ExtendTop(nb, blocks);
        TopBounds();
        remainder_size := ChunkSize(Ld(mem, av + 8)) - nb;
      }
    }

    // ----- rEALLOc -----

    /** MALLOC_COPY(dest, src, nbytes): the words in increasing order, so that a move to a lower
        address may overlap. */
    method MallocCopy(dest: int, src: int, nbytes: int)
      requires nbytes % 4 == 0 && nbytes >= 0 && (dest <= src || src + nbytes <= dest)
      modifies this`mem
      ensures Moved(old(mem), src, mem, dest, nbytes)
    {
      var i := 0;
      var d, s := dest, src;
      while i < nbytes
        invariant 0 <= i <= nbytes && i % 4 == 0 && d == dest + i && s == src + i
        invariant Moved(old(mem), src, mem, dest, i)
      {
        MoveWord(old(mem), src, mem, dest, i, nbytes);
        mem := mem[d := Ld(mem, s)];
        d, s, i := d + 4, s + 4, i + 4;
      }
    }

    /** set_head_size(p, s), where the head has the right PREV_INUSE bit. */
    method SetHeadSize(p: int, s: int, ghost stale: set<int>, ghost blocks: map<int, int>)
      requires Ready(stale) && Guards(h, blocks) && p in h.chunks && h.chunks[p].bin == 0
      requires s == h.chunks[p].size && PrevInUse(p) == h.chunks[p].prevInUse
      modifies this`mem
      ensures mem == old(mem)[p + 4 := Word(h.chunks[p])]
      ensures Rep(mem, h, stale - {p}) && Kept(old(mem), mem, blocks)
    {
      SetHead(p, Ld(mem, p + 4) % 2 + s, stale, blocks);
    }

    /** set_inuse_bit_at_offset(p, s), where a chunk starts whose head has the right size. */
    method SetInUseBit(n: int, ghost stale: set<int>, ghost blocks: map<int, int>)
      requires Ready(stale) && Guards(h, blocks) && n in h.chunks && h.chunks[n].prevInUse && FootOk(mem, h, n)
      requires Ld(mem, n + 4) - Ld(mem, n + 4) % 2 == h.chunks[n].size
      modifies this`mem
      ensures mem == old(mem)[n + 4 := Word(h.chunks[n])]
      ensures Rep(mem, h, stale - {n}) && Kept(old(mem), mem, blocks)
    {
      SetHead(n, Ld(mem, n + 4) - Ld(mem, n + 4) % 2 + 1, stale, blocks);
    }

    /** The state at the label `split`: p is a block of newsize bytes whose head has the right
        PREV_INUSE bit, and the head after it has the right size. */
    ghost predicate Splitting(p: int, newsize: int, blocks: map<int, int>)
      reads this
    {
      && InUse(h, p) && p !in blocks && h.chunks[p].size == newsize && Next(h, p) in h.chunks
      && Ready({p, Next(h, p)}) && Arena() && Guards(h, blocks)
      && PrevInUse(p) == h.chunks[p].prevInUse && FootOk(mem, h, Next(h, p))
      && Ld(mem, Next(h, p) + 4) - Ld(mem, Next(h, p) + 4) % 2 == h.chunks[Next(h, p)].size
    }

    /** Cut an expanded block, writing the three heads concerned. */
    method CutInTwo(p: int, newsize: int, nb: int, ghost blocks: map<int, int>)
      requires Splitting(p, newsize, blocks) && nb % 8 == 0 && MINSIZE <= nb <= newsize - MINSIZE
      modifies this`mem, this`h
      ensures Valid() && h == Split(old(h), p, nb) && Guards(h, blocks[p := nb])
      ensures InUse(h, p) && InUse(h, p + nb) && p + nb !in old(h).chunks && p + nb !in blocks
      ensures Blocks(h) == Blocks(old(h))[p := nb][p + nb := newsize - nb]
      ensures Kept(old(mem), mem, blocks[p := nb])
    {
      ghost var kept, r, n := blocks[p := nb], p + nb, Next(h, p);
      CutGhost(p, newsize, nb, blocks);
      SetHeadSize(p, nb, {p, r, n}, kept);
      ghost var m1 := mem;
      assert {p, r, n} - {p} == {r, n};
      SetHead(p + nb, newsize - nb + 1, {r, n}, kept);
      ghost var m2 := mem;
      assert {r, n} - {r} == {n};
      ChunkCells(h, p, n);
      ChunkCells(h, r, n);
      SetInUseBit(p + newsize, {n}, kept);
      assert {n} - {n} == {};
      KeptTrans(old(mem), m1, m2, kept);
      KeptTrans(old(mem), m2, mem, kept);
    }

    ghost method CutGhost(p: int, newsize: int, nb: int, blocks: map<int, int>)
      requires Splitting(p, newsize, blocks) && nb % 8 == 0 && MINSIZE <= nb <= newsize - MINSIZE
      modifies this`h
      ensures h == Split(old(h), p, nb) && Ready({p, p + nb, p + newsize}) && Arena() && Guards(h, blocks[p := nb])
      ensures InUse(h, p) && InUse(h, p + nb) && p + nb !in old(h).chunks && p + nb !in blocks
      ensures p + newsize in h.chunks && h.chunks[p + newsize].prevInUse && FootOk(mem, h, p + newsize)
      ensures h.chunks[p + newsize].size == old(h).chunks[p + newsize].size
      ensures p + newsize != p && p + newsize != p + nb && p + nb != p
      ensures Blocks(h) == Blocks(old(h))[p := nb][p + nb := newsize - nb]
    {
      var r, n := p + nb, Next(h, p);
      SplitKeepsShape(h, p, nb);
      SplitBlocks(h, p, nb);
      var g := Split(h, p, nb);
      SplitGuards(p, nb, blocks);
      Rechunk(mem, h, g, {p, n}, {p, r, n});
      assert PairOk(h, p, n);
      h := g;
    }

    lemma SplitGuards(p: int, nb: int, blocks: map<int, int>)
      requires Shape(h) && Guards(h, blocks) && InUse(h, p) && CanSplit(h, p, nb) && p !in blocks && p + nb !in h.chunks
      ensures Guards(Split(h, p, nb), blocks[p := nb]) && p + nb !in blocks
    {
      var g, kept := Split(h, p, nb), blocks[p := nb];
      assert GuardOk(h, blocks, p + nb);
      forall a ensures GuardOk(g, kept, a) {
        assert GuardOk(h, blocks, a);
      }
    }

    /** rEALLOc, "split off extra room in old or expanded chunk" */
    method SplitOff(p: int, newsize: int, nb: int, ghost blocks: map<int, int>)
      requires Splitting(p, newsize, blocks) && nb % 8 == 0 && MINSIZE <= nb <= newsize
      modifies this`mem, this`h, this`brk, this`sbrkedMem
      ensures Valid() && InUse(h, p) && nb <= h.chunks[p].size < nb + MINSIZE && h.chunks[p].size <= newsize
      ensures Blocks(h) == Blocks(old(h))[p := h.chunks[p].size]
      ensures Kept(old(mem), mem, blocks) && Copied(old(mem), p + 8, mem, p + 8, h.chunks[p].size - 4)
      ensures old(Counted()) ==> Counted()
    {
      if newsize - nb >= MINSIZE {
        CutInTwo(p, newsize, nb, blocks);
        ghost var kept, b0 := blocks[p := nb], Blocks(old(h));
        FreeRest(old(mem), b0, p, newsize, nb, kept);
        KeptLess(old(mem), mem, kept, blocks);
        KeptCopied(old(mem), mem, kept, p, nb - 4);
      } else {
        LeaveWhole(p, newsize, blocks);
      }
    }

    /** Frees what has just been cut off: p keeps nb bytes and its contents since m0. */
    method FreeRest(ghost m0: Mem, ghost b0: map<int, int>, p: int, newsize: int, nb: int, ghost kept: map<int, int>)
      requires Valid() && InUse(h, p + nb) && p != p + nb && p + nb !in b0 && Guards(h, kept) && p + nb !in kept
      requires Blocks(h) == b0[p := nb][p + nb := newsize - nb] && Kept(m0, mem, kept)
      modifies this`mem, this`h, this`brk, this`sbrkedMem
      ensures Valid() && InUse(h, p) && h.chunks[p].size == nb && Blocks(h) == b0[p := nb]
      ensures Kept(m0, mem, kept)
      ensures old(Counted()) ==> Counted()
    {
      ghost var m, b1, r := mem, Blocks(h), p + nb;
      KeptIn(kept, r);
      NoNull();
      Free(p + nb + 8);
      KeptLess(m, mem, b1 - {r}, kept);
      KeptTrans(m0, m, mem, kept);
      SplitRest(b0, p, nb, r, newsize - nb);
      assert p in Blocks(h) && Blocks(h)[p] == nb;
    }

    static lemma SplitRest(b: map<int, int>, p: int, nb: int, r: int, rest: int)
      requires r !in b && r != p
      ensures b[p := nb][r := rest] - {r} == b[p := nb]
    {
    }

    /** Guarded blocks other than r are among the blocks in use other than r. */
    lemma KeptIn(kept: map<int, int>, r: int)
      requires Guards(h, kept) && r !in kept
      ensures kept.Keys <= (Blocks(h) - {r}).Keys && forall a :: a in kept ==> kept[a] == Blocks(h)[a]
    {
      forall a | a in kept ensures a in Blocks(h) && kept[a] == Blocks(h)[a] {
        assert GuardOk(h, kept, a);
      }
    }

    /** set_head_size(newp, newsize); set_inuse_bit_at_offset(newp, newsize) */
    method LeaveWhole(p: int, newsize: int, ghost blocks: map<int, int>)
      requires Splitting(p, newsize, blocks)
      modifies this`mem
      ensures Valid() && Kept(old(mem), mem, blocks) && Copied(old(mem), p + 8, mem, p + 8, newsize - 4)
      ensures p in Blocks(h) && Blocks(h)[p] == newsize
    {
      ghost var kept, n := blocks[p := newsize], Next(h, p);
      assert PairOk(h, p, n) && ChunkOk(h, p);
      forall a ensures GuardOk(h, kept, a) {
        assert GuardOk(h, blocks, a);
      }
      SetHeadSize(p, newsize, {p, n}, kept);
      ghost var m := mem;
      assert {p, n} - {p} == {n};
      ChunkCells(h, p, n);
      SetInUseBit(p + newsize, {n}, kept);
      assert {n} - {n} == {};
      KeptTrans(old(mem), m, mem, kept);
      KeptLess(old(mem), mem, kept, blocks);
      KeptCopied(old(mem), mem, kept, p, newsize - 4);
    }

    /** The block before the top takes what it needs from it. */
    method GrowBlock(p: int, nb: int, newsize: int, ghost stale: set<int>, ghost blocks: map<int, int>)
      requires Ready(stale) && stale <= {p} && Arena() && Guards(h, blocks) && p !in blocks
      requires CanGrow(h, p, nb) && newsize == h.chunks[p].size + h.chunks[h.top].size
      requires PrevInUse(p) == h.chunks[p].prevInUse
      modifies this`mem, this`h
      ensures Valid() && Blocks(h) == Blocks(old(h))[p := nb]
      ensures Kept(old(mem), mem, blocks[p := nb])
    {
      GrowGhost(p, nb, stale, blocks);
      WriteGrown(p, nb, newsize, blocks[p := nb]);
      assert p in h.chunks;
    }

    /** top = chunk_at_offset(p, nb); set_head(top, (newsize - nb) | PREV_INUSE); set_head_size(p, nb) */
    method WriteGrown(p: int, nb: int, newsize: int, ghost kept: map<int, int>)
      requires h.av == av && Shape(h) && Rep(mem[av + 8 := p + nb], h, {p, p + nb}) && Guards(h, kept)
      requires InUse(h, p) && nb == h.chunks[p].size && PrevInUse(p) == h.chunks[p].prevInUse
      requires p + nb in h.chunks && p + nb != p && h.top == p + nb
      requires h.chunks[p + nb].bin == 0 && h.chunks[p + nb].prevInUse && h.chunks[p + nb].size == newsize - nb
      modifies this`mem
      ensures Ready({}) && Kept(old(mem), mem, kept)
    {
      ghost var t := p + nb;
      ChunkCells(h, p, t);
      KeptStatic(mem, h, av + 8, t, kept);
      mem := mem[av + 8 := p + nb];
      ghost var m1 := mem;
      SetHead(Ld(mem, av + 8), newsize - nb + 1, {p, t}, kept);
      ghost var m2 := mem;
      assert {p, t} - {t} == {p};
      KeptTrans(old(mem), m1, m2, kept);
      SetHeadSize(p, nb, {p}, kept);
      assert {p} - {p} == {};
      KeptTrans(old(mem), m2, mem, kept);
    }

    ghost method GrowGhost(p: int, nb: int, stale: set<int>, blocks: map<int, int>)
      requires Ready(stale) && stale <= {p} && Arena() && Guards(h, blocks) && p !in blocks
      requires CanGrow(h, p, nb)
      modifies this`h
      ensures h == GrowIntoTop(old(h), p, nb) && Shape(h) && Rep(mem[av + 8 := p + nb], h, {p, p + nb})
      ensures Guards(h, blocks[p := nb]) && InUse(h, p) && p + nb in h.chunks && p + nb != p && h.av == av
      ensures Blocks(h) == Blocks(old(h))[p := nb]
      ensures Ld(mem[av + 8 := p + nb], p + 4) == Ld(mem, p + 4)
      ensures Arena() && p + 4 != p + nb + 4
    {
      var t, g1, g := p + nb, h.(top := p + nb), GrowIntoTop(h, p, nb);
      GrowIntoTopKeepsShape(h, p, nb);
      assert ChunkOk(h, p) && ChunkOk(h, h.top);
      WriteTop(mem, h, g1, stale);
      Rechunk(mem[av + 8 := t], g1, g, stale, {p, t});
      ChunkCells(h, p, p);
      GrowGuards(p, nb, blocks);
      h := g;
    }

    lemma GrowGuards(p: int, nb: int, blocks: map<int, int>)
      requires Guards(h, blocks) && CanGrow(h, p, nb) && Shape(h)
      ensures Guards(GrowIntoTop(h, p, nb), blocks[p := nb])
    {
      var g, kept := GrowIntoTop(h, p, nb), blocks[p := nb];
      GrowInTop(h, p, nb);
      assert ChunkOk(h, p);
      forall a ensures GuardOk(g, kept, a) {
        assert GuardOk(h, blocks, a);
      }
    }

    /** The blocks a resizing of oldp has to keep. */
    ghost function Others(oldp: int): map<int, int>
      reads this`h
    {
      Blocks(h) - {oldp}
    }

    lemma OthersGuarded(oldp: int)
      requires Shape(h)
      ensures Guards(h, Others(oldp)) && oldp !in Others(oldp)
    {
      GuardsBlocks(h, Others(oldp));
    }

    /** Forward into the top, only if a remainder is left. */
    method ForwardIntoTop(p: int, oldsize: int, nextsize: int, nb: int)
      requires Valid() && p in Blocks(h) && CanGrow(h, p, nb)
      requires oldsize == h.chunks[p].size <= nb && nextsize == h.chunks[h.top].size
      modifies this`mem, this`h
      ensures Valid() && Resized(old(h), old(mem), h, mem, p, p, nb)
    {
      ghost var blocks := Others(p);
      OthersGuarded(p);
      assert HeadOk(mem, h, p);
      ReadHead(p);
      GrowBlock(p, nb, oldsize + nextsize, {}, blocks);
      KeptLess(old(mem), mem, blocks[p := nb], blocks);
      KeptCopied(old(mem), mem, blocks[p := nb], p, nb - 4);
      CopiedLess(old(mem), p + 8, mem, p + 8, nb - 4, oldsize - 4);
    }

    /** Forward into the free chunk next. */
    method ForwardIntoNext(p: int, oldsize: int, next: int, nextsize: int, nb: int)
      requires Valid() && p in Blocks(h) && Next(h, p) == next && next in h.chunks && h.chunks[next].bin != 0
      requires oldsize == h.chunks[p].size && nextsize == h.chunks[next].size
      requires nb % 8 == 0 && MINSIZE <= nb && oldsize < nb <= oldsize + nextsize
      modifies this`mem, this`h, this`brk, this`sbrkedMem
      ensures Valid() && Resized(old(h), old(mem), h, mem, p, p, nb)
      ensures old(Counted()) ==> Counted()
    {
      ghost var blocks := Others(p);
      OthersGuarded(p);
      JoinNext(p, next, blocks);
      ghost var m, b := mem, Blocks(h);
      SplitOff(p, oldsize + nextsize, nb, blocks);
      AfterMove(m, old(mem), blocks, p, p, oldsize, h.chunks[p].size, nb);
      SameRest(b, Blocks(old(h)), p, h.chunks[p].size);
    }

    static lemma SameRest(b: map<int, int>, b0: map<int, int>, p: int, s: int)
      requires b - {p} == b0 - {p}
      ensures b[p := s] == (b0 - {p})[p := s]
    {
      assert b[p := s] == (b - {p})[p := s];
    }

    /** unlink(next, bck, fwd); newsize += nextsize */
    method JoinNext(p: int, next: int, ghost blocks: map<int, int>)
      requires Valid() && Guards(h, blocks) && p !in blocks
      requires InUse(h, p) && Next(h, p) == next && next in h.chunks && h.chunks[next].bin != 0
      modifies this`mem, this`h
      ensures InUse(h, p) && Splitting(p, old(h).chunks[p].size + old(h).chunks[next].size, blocks)
      ensures Copied(old(mem), p + 8, mem, p + 8, old(h).chunks[p].size - 4)
      ensures Kept(old(mem), mem, blocks) && Blocks(h) - {p} == Blocks(old(h)) - {p}
      ensures h.chunks[p].prevInUse == old(h).chunks[p].prevInUse
      ensures forall a :: a in old(h).chunks && a < p ==> a in h.chunks && h.chunks[a] == old(h).chunks[a]
      ensures h.chunks[Next(h, p)].bin == 0 && h.chunks[p].size > old(h).chunks[p].size
    {
      ghost var i, k := Where(h, next);
      Holds(h, i, k);
      ghost var n := Next(h, next);
      assert HeadOk(mem, h, p) && HeadOk(mem, h, n);
      ReadHead(p);
      EvenSize(p);
      EvenSize(next);
      EvenSize(n);
      UnlinkAfter(p, next, i, k, {}, blocks);
      assert SameWordAt(old(mem), mem, h, p) && SameWordAt(old(mem), mem, h, n);
      assert {} - {next} + {p, n} == {p, n};
    }

    /** MALLOC_COPY(chunk2mem(q), chunk2mem(p), n), staying inside the block at q. */
    method CopyInto(q: int, p: int, n: int, ghost stale: set<int>, ghost blocks: map<int, int>)
      requires Ready(stale) && Guards(h, blocks) && InUse(h, q) && q !in blocks
      requires 0 <= n && n % 4 == 0 && q + 8 + n <= Next(h, q) && (q <= p || p + n <= q)
      modifies this`mem
      ensures Rep(mem, h, stale) && Kept(old(mem), mem, blocks)
      ensures Copied(old(mem), p + 8, mem, q + 8, n) && InsideOnly(old(mem), mem, h, q)
    {
      MallocCopy(q + 8, p + 8, n);
      WriteInside(old(mem), mem, h, stale, q);
      KeptInside(old(mem), mem, h, q, blocks);
    }

    /** unlink(prev, bck, fwd); MALLOC_COPY(newmem, oldmem, oldsize - SIZE_SZ) */
    method ShiftBack(prev: int, p: int, oldsize: int, ghost stale: set<int>, ghost blocks: map<int, int>)
      requires Ready(stale) && p in h.chunks && Next(h, p) in h.chunks && stale <= {p, Next(h, p)} && Guards(h, blocks)
      requires InUse(h, p) && p !in blocks && oldsize <= h.chunks[p].size && oldsize % 4 == 0 && oldsize >= MINSIZE
      requires prev in h.chunks && h.chunks[prev].bin != 0 && Next(h, prev) == p
      modifies this`mem, this`h
      ensures SameEnds(old(h), h) && Guards(h, blocks) && prev !in blocks && prev !in Blocks(old(h))
      ensures InUse(h, prev) && h.chunks[prev].prevInUse && PrevInUse(prev)
      ensures h.chunks[prev].size == old(h).chunks[prev].size + old(h).chunks[p].size
      ensures Ready(stale - {p} + {prev})
      ensures Next(h, prev) == Next(old(h), p) && Next(h, prev) in h.chunks
      ensures h.chunks[Next(h, prev)] == old(h).chunks[Next(h, prev)]
      ensures Ld(mem, Next(h, prev) + 4) == Ld(old(mem), Next(h, prev) + 4)
      ensures old(h).chunks[Next(h, prev)].bin == 0 ==> FootOk(mem, h, Next(h, prev))
      ensures Blocks(h) - {prev} == Blocks(old(h)) - {p}
      ensures Kept(old(mem), mem, blocks) && Copied(old(mem), p + 8, mem, prev + 8, oldsize - 4)
    {
      ghost var i, k := Where(h, prev);
      Holds(h, i, k);
      ghost var n := Next(h, p);
      assert ChunkOk(h, p) && ChunkOk(h, prev) && HeadOk(mem, h, prev) && PairOk(h, prev, n) && PairOk(h, p, n);
      ReadHead(prev);
      UnlinkBefore(prev, p, i, k, stale, blocks);
      ghost var m := mem;
      assert SameWordAt(old(mem), m, h, prev) && SameWordAt(old(mem), m, h, n);
      CopyInto(prev, p, oldsize - 4, stale - {p} + {prev}, blocks);
      KeptTrans(old(mem), m, mem, blocks);
      CopiedLess(old(mem), p + 8, m, p + 8, old(h).chunks[p].size - 4, oldsize - 4);
      CopiedTrans(old(mem), p + 8, m, p + 8, mem, prev + 8, oldsize - 4);
      assert Ld(mem, prev + 4) == Ld(m, prev + 4) && Ld(mem, n + 4) == Ld(m, n + 4);
    }

    /** Backward, and forward into the top. */
    method BackwardIntoTop(prev: int, p: int, oldsize: int, newsize: int, nb: int)
      requires Valid() && p in Blocks(h) && oldsize == h.chunks[p].size < nb && h.top in h.chunks && Next(h, p) == h.top
      requires prev in h.chunks && h.chunks[prev].bin != 0 && Next(h, prev) == p
      requires nb % 8 == 0 && newsize == h.chunks[prev].size + oldsize + h.chunks[h.top].size >= nb + MINSIZE
      modifies this`mem, this`h
      ensures Valid() && Resized(old(h), old(mem), h, mem, p, prev, nb)
    {
      ghost var blocks, b0 := Others(p), Blocks(h);
      OthersGuarded(p);
      EvenSize(p);
      ShiftBack(prev, p, oldsize, {}, blocks);
      ghost var m, b1 := mem, Blocks(h);
      GrowBlock(prev, nb, newsize, {prev}, blocks);
      KeptLess(m, mem, blocks[prev := nb], blocks);
      KeptTrans(old(mem), m, mem, blocks);
      KeptCopied(m, mem, blocks[prev := nb], prev, oldsize - 4);
      CopiedTrans(old(mem), p + 8, m, prev + 8, mem, prev + 8, oldsize - 4);
      MovedBlocks(b0, b1, p, prev, nb);
    }

    static lemma MovedBlocks(b0: map<int, int>, b1: map<int, int>, p: int, q: int, s: int)
      requires b1 - {q} == b0 - {p}
      ensures b1[q := s] == (b0 - {p})[q := s]
    {
      assert b1[q := s] == (b1 - {q})[q := s];
    }

    /** Backward, and forward into the free chunk next. */
    method BackwardAndForward(prev: int, p: int, oldsize: int, next: int, newsize: int, nb: int)
      requires Valid() && p in Blocks(h) && oldsize == h.chunks[p].size < nb
      requires Next(h, p) == next && next in h.chunks && h.chunks[next].bin != 0
      requires prev in h.chunks && h.chunks[prev].bin != 0 && Next(h, prev) == p
      requires nb % 8 == 0 && newsize == h.chunks[next].size + h.chunks[prev].size + oldsize >= nb
      modifies this`mem, this`h, this`brk, this`sbrkedMem
      ensures Valid() && Resized(old(h), old(mem), h, mem, p, prev, nb)
      ensures old(Counted()) ==> Counted()
    {
      ghost var blocks, b0 := Others(p), Blocks(h);
      OthersGuarded(p);
      EvenSize(p);
      JoinBoth(prev, p, oldsize, next, newsize, blocks);
      ghost var m, b := mem, Blocks(h);
      SplitOff(prev, newsize, nb, blocks);
      AfterMove(m, old(mem), blocks, p, prev, oldsize, h.chunks[prev].size, nb);
      MovedBlocks(b0, b, p, prev, h.chunks[prev].size);
    }

    /** unlink(next, bck, fwd); unlink(prev, bck, fwd); and the copy. */
    method JoinBoth(prev: int, p: int, oldsize: int, next: int, newsize: int, ghost blocks: map<int, int>)
      requires Valid() && InUse(h, p) && oldsize == h.chunks[p].size && Guards(h, blocks) && p !in blocks
      requires Next(h, p) == next && next in h.chunks && h.chunks[next].bin != 0
      requires prev in h.chunks && h.chunks[prev].bin != 0 && Next(h, prev) == p
      requires newsize == h.chunks[next].size + h.chunks[prev].size + oldsize
      modifies this`mem, this`h
      ensures Splitting(prev, newsize, blocks) && prev !in Blocks(old(h))
      ensures Blocks(h) - {prev} == Blocks(old(h)) - {p}
      ensures Kept(old(mem), mem, blocks) && Copied(old(mem), p + 8, mem, prev + 8, oldsize - 4)
    {
      EvenSize(p);
      EvenSize(prev);
      JoinNext(p, next, blocks);
      ghost var m, n, b1 := mem, Next(h, p), Blocks(h);
      ShiftBack(prev, p, oldsize, {p, n}, blocks);
      Restale(mem, h, {p, n} - {p} + {prev}, {prev, n});
      KeptTrans(old(mem), m, mem, blocks);
      CopiedTrans(old(mem), p + 8, m, p + 8, mem, prev + 8, oldsize - 4);
      assert prev in old(h).chunks && old(h).chunks[prev].bin != 0;
    }

    /** Moved to prev and then split there: the first bytes are still those of the old block. */
    lemma AfterMove(m: Mem, m0: Mem, blocks: map<int, int>, p: int, prev: int, oldsize: int, s: int, nb: int)
      requires Kept(m0, m, blocks) && Kept(m, mem, blocks)
      requires Copied(m0, p + 8, m, prev + 8, oldsize - 4) && Copied(m, prev + 8, mem, prev + 8, s - 4)
      requires oldsize < nb <= s
      ensures Kept(m0, mem, blocks) && Copied(m0, p + 8, mem, prev + 8, Least(oldsize, s) - 4)
    {
      KeptTrans(m0, m, mem, blocks);
      CopiedLess(m, prev + 8, mem, prev + 8, s - 4, oldsize - 4);
      CopiedTrans(m0, p + 8, m, prev + 8, mem, prev + 8, oldsize - 4);
    }

    /** Backward only. */
    method BackwardOnly(prev: int, p: int, oldsize: int, newsize: int, nb: int)
      requires Valid() && p in Blocks(h) && oldsize == h.chunks[p].size < nb && Next(h, p) in h.chunks
      requires prev in h.chunks && h.chunks[prev].bin != 0 && Next(h, prev) == p
      requires nb % 8 == 0 && newsize == h.chunks[prev].size + oldsize >= nb
      modifies this`mem, this`h, this`brk, this`sbrkedMem
      ensures Valid() && Resized(old(h), old(mem), h, mem, p, prev, nb)
      ensures old(Counted()) ==> Counted()
    {
      ghost var blocks, b0 := Others(p), Blocks(h);
      OthersGuarded(p);
      EvenSize(p);
      ShiftBack(prev, p, oldsize, {}, blocks);
      ghost var m, b := mem, Blocks(h);
      assert {} - {p} + {prev} == {prev};
      StaleIsReady(prev, blocks);
      SplitOff(prev, newsize, nb, blocks);
      AfterMove(m, old(mem), blocks, p, prev, oldsize, h.chunks[prev].size, nb);
      MovedBlocks(b0, b, p, prev, h.chunks[prev].size);
    }

    /** The new chunk comes right after the old one: join them. */
    method JoinNew(p: int, oldsize: int, newp: int, nb: int)
      requires Valid() && InUse(h, p) && InUse(h, newp) && newp == p + oldsize && oldsize == h.chunks[p].size
      requires nb % 8 == 0 && MINSIZE <= nb <= h.chunks[newp].size
      modifies this`mem, this`h, this`brk, this`sbrkedMem
      ensures Valid() && InUse(h, p) && nb <= h.chunks[p].size < nb + MINSIZE
      ensures Blocks(h) == (Blocks(old(h)) - {p, newp})[p := h.chunks[p].size]
      ensures Kept(old(mem), mem, Blocks(old(h)) - {p, newp})
      ensures Copied(old(mem), p + 8, mem, p + 8, h.chunks[p].size - 4)
      ensures old(Counted()) ==> Counted()
    {
      ghost var blocks := Blocks(h) - {p, newp};
      GuardsBlocks(h, blocks);
      assert HeadOk(mem, h, newp) && HeadOk(mem, h, p) && ChunkOk(h, p);
      ReadHead(newp);
      ReadHead(p);
      var newsize := oldsize + ChunkSize(newp);
      MergeForSplit(p, newp, blocks);
      ghost var b := Blocks(h);
      SplitOff(p, newsize, nb, blocks);
      assert b[p := h.chunks[p].size] == (Blocks(old(h)) - {p, newp})[p := h.chunks[p].size];
    }

    ghost method MergeForSplit(p: int, newp: int, blocks: map<int, int>)
      requires Ready({}) && Arena() && InUse(h, p) && InUse(h, newp) && newp == Next(h, p) && Guards(h, blocks)
      requires p !in blocks && newp !in blocks
      modifies this`h
      ensures InUse(h, p) && Splitting(p, old(h).chunks[p].size + old(h).chunks[newp].size, blocks)
      ensures Blocks(h) == (Blocks(old(h)) - {newp})[p := h.chunks[p].size]
    {
      assert HeadOk(mem, h, p) && ChunkOk(h, newp);
      ReadHead(p);
      MergeBlocks(h, p);
      MergeGhost(p, {}, blocks);
      assert {} - {newp} + {p} == {p};
      StaleIsReady(p, blocks);
    }

    /** MALLOC_COPY(newmem, oldmem, oldsize - SIZE_SZ); fREe(oldmem) */
    method CopyOver(p: int, oldsize: int, newp: int)
      requires Valid() && InUse(h, p) && InUse(h, newp) && newp != p
      requires oldsize == h.chunks[p].size < h.chunks[newp].size
      modifies this`mem, this`h, this`brk, this`sbrkedMem
      ensures Valid() && Blocks(h) == Blocks(old(h)) - {p}
      ensures Kept(old(mem), mem, Blocks(old(h)) - {p, newp})
      ensures Copied(old(mem), p + 8, mem, newp + 8, oldsize - 4)
      ensures old(Counted()) ==> Counted()
    {
      ghost var blocks, b := Blocks(h) - {p, newp}, Blocks(h);
      GuardsBlocks(h, blocks);
      assert PairOk(h, p, newp) && PairOk(h, newp, p) ;
      EvenSize(p);
      EvenSize(newp);
      CopyInto(newp, p, oldsize - 4, {}, blocks);
      ghost var m := mem;
      NoNull();
      Free(p + 8);
      KeptLess(m, mem, b - {p}, blocks);
      KeptTrans(old(mem), m, mem, blocks);
      KeptCopied(m, mem, b - {p}, newp, oldsize - 4);
      CopiedTrans(old(mem), p + 8, m, newp + 8, mem, newp + 8, oldsize - 4);
    }

    /** Give the new block newp the contents of p, or join it to p. */
    method PlaceNew(p: int, oldsize: int, newp: int, nb: int) returns (q: int)
      requires Valid() && InUse(h, p) && InUse(h, newp) && newp != p && oldsize == h.chunks[p].size < nb
      requires nb % 8 == 0 && MINSIZE <= nb <= h.chunks[newp].size < nb + MINSIZE
      modifies this`mem, this`h, this`brk, this`sbrkedMem
      ensures Valid() && q > 0 && q in Blocks(h) && nb <= Blocks(h)[q] < nb + MINSIZE
      ensures q == if newp == p + oldsize then p else newp
      ensures Blocks(h) == (Blocks(old(h)) - {p, newp})[q := Blocks(h)[q]]
      ensures Kept(old(mem), mem, Blocks(old(h)) - {p, newp})
      ensures Copied(old(mem), p + 8, mem, q + 8, oldsize - 4)
      ensures old(Counted()) ==> Counted()
    {
      NoNull();
      assert HeadOk(mem, h, p);
      ReadHead(p);
      ghost var b := Blocks(h);
      if newp == p + ChunkSize(p) {
        JoinNew(p, oldsize, newp, nb);
        CopiedLess(old(mem), p + 8, mem, p + 8, Blocks(h)[p] - 4, oldsize - 4);
        q := p;
      } else {
        CopyOver(p, oldsize, newp);
        assert b - {p} == (b - {p, newp})[newp := b[newp]];
        q := newp;
      }
    }

    /** "Must allocate": returns 0 and leaves everything in place when that fails. */
    method MoveBlock(p: int, oldsize: int, nb: int, bytes: int) returns (ptr: int)
      requires Valid() && InUse(h, p) && oldsize == h.chunks[p].size < nb
      requires 0 <= bytes < W31 && nb == Request2Size(bytes)
      modifies this`mem, this`h, this`brk, this`sbrkBase, this`sbrkedMem
      ensures Valid()
      ensures ptr == 0 ==> Blocks(h) == Blocks(old(h)) && Kept(old(mem), mem, Blocks(old(h)))
      ensures ptr == 0 ==> MustGrow(old(h), nb) && !RoomToGrow(old(brk), nb)
      ensures ptr != 0 ==> Resized(old(h), old(mem), h, mem, p, ptr - 8, nb)
      ensures ptr != 0 ==> Chosen(old(h), nb, ptr - 8) || (ptr - 8 == p && Chosen(old(h), nb, p + oldsize))
      ensures old(Counted()) && !old(Misaligned()) ==> Counted()
    {
      ghost var b0 := Blocks(h);
      ptr := Malloc(bytes);
      if ptr != 0 {
        ghost var b1 := Blocks(h);
        assert b1 == b0[ptr - 8 := b1[ptr - 8]] && ptr - 8 in b1 && p in b1;
        ptr := MoveInto(old(h), old(mem), p, oldsize, ptr - 8, nb);
      }
    }

    /** The rest of moving a block, once malloc has found newp. */
    method MoveInto(ghost h0: Heap, ghost m0: Mem, p: int, oldsize: int, newp: int, nb: int) returns (ptr: int)
      requires Valid() && InUse(h0, p) && oldsize == h0.chunks[p].size < nb
      requires InUse(h, p) && h.chunks[p].size == oldsize && Kept(m0, mem, Blocks(h0))
      requires newp !in Blocks(h0) && InUse(h, newp) && Blocks(h) == Blocks(h0)[newp := Blocks(h)[newp]]
      requires nb % 8 == 0 && MINSIZE <= nb <= h.chunks[newp].size < nb + MINSIZE
      modifies this`mem, this`h, this`brk, this`sbrkedMem
      ensures Valid() && ptr != 0 && Resized(h0, m0, h, mem, p, ptr - 8, nb)
      ensures ptr - 8 == if newp == p + oldsize then p else newp
      ensures old(Counted()) ==> Counted()
    {
      ghost var b0, m := Blocks(h0), mem;
      NewBesideOld(b0, Blocks(h), p, newp);
      KeptLess(m0, m, b0, b0 - {p});
      KeptCopied(m0, m, b0, p, oldsize - 4);
      var q := PlaceNew(p, oldsize, newp, nb);
      CopiedTrans(m0, p + 8, m, p + 8, mem, q + 8, oldsize - 4);
      KeptTrans(m0, m, mem, b0 - {p});
      ptr := q + 8;
    }

    static lemma NewBesideOld(b0: map<int, int>, b1: map<int, int>, p: int, q: int)
      requires q !in b0 && p in b0 && q in b1 && b1 == b0[q := b1[q]]
      ensures b1 - {p, q} == b0 - {p} && b1 - {p} == (b0 - {p})[q := b1[q]] && p in b1 && b1[p] == b0[p]
    {
    }

    /** rEALLOc of a block that is too small: try each way of extending it, else move it. */
    method Enlarge(p: int, oldsize: int, nb: int, bytes: int) returns (ptr: int)
      requires Valid() && InUse(h, p) && oldsize == h.chunks[p].size < nb
      requires 0 <= bytes < W31 && nb == Request2Size(bytes) && (Overflows(bytes) ==> Next(h, p) != h.top)
      modifies this`mem, this`h, this`brk, this`sbrkBase, this`sbrkedMem
      ensures Valid()
      ensures ptr == 0 ==> Blocks(h) == Blocks(old(h)) && Kept(old(mem), mem, Blocks(old(h)))
      ensures ptr == 0 ==> MustGrow(old(h), nb) && !RoomToGrow(old(brk), nb)
      ensures ptr == 0 ==> !Stays(old(h), p, nb) && NoShift(old(h), p, nb)
      ensures ptr != 0 ==> Resized(old(h), old(mem), h, mem, p, ptr - 8, nb) && Placed(old(h), p, ptr - 8, nb)
      ensures old(Counted()) && !old(Misaligned()) ==> Counted()
    {
      var done, next, nextsize := EnlargeForward(p, oldsize, nb, bytes);
      if done {
        return p + 8;
      }
      done, ptr := EnlargeBackward(p, oldsize, next, nextsize, nb, bytes);
      if done {
        return;
      }
      ptr := MoveBlock(p, oldsize, nb, bytes);
    }

    /** "Try expanding forward": next is zero when the chunk after p is in use. */
    method EnlargeForward(p: int, oldsize: int, nb: int, ghost bytes: int)
      returns (done: bool, next: int, nextsize: int)
      requires Valid() && InUse(h, p) && oldsize == h.chunks[p].size < nb
      requires 0 <= bytes < W31 && nb == Request2Size(bytes) && (Overflows(bytes) ==> Next(h, p) != h.top)
      modifies this`mem, this`h, this`brk, this`sbrkedMem
      ensures Valid()
      ensures done ==> p > 0 && Resized(old(h), old(mem), h, mem, p, p, nb) && Stays(old(h), p, nb)
      ensures !done ==> h == old(h) && mem == old(mem) && brk == old(brk) && sbrkedMem == old(sbrkedMem)
      ensures !done ==> !Stays(h, p, nb) && Next(h, p) in h.chunks && h.top in h.chunks
      ensures !done ==>
                if next != 0 then
                  && next == Next(h, p) && nextsize == h.chunks[next].size
                  && (next == h.top || h.chunks[next].bin != 0)
                else Next(h, p) != h.top && h.chunks[Next(h, p)].bin == 0
      ensures old(Counted()) ==> Counted()
    {
      next, nextsize, done := p + oldsize, 0, false;
      ReadAfter(p, nb);
      NoNull();
      if next == Ld(mem, av + 8) || !InUseBit(next) {
        nextsize := ChunkSize(next);
        if next == Ld(mem, av + 8) {
          if RoomInTop(nextsize + oldsize, nb) {
            ForwardIntoTop(p, oldsize, nextsize, nb);
            done := true;
          }
        } else if nextsize + oldsize >= nb {
          ForwardIntoNext(p, oldsize, next, nextsize, nb);
          done := true;
        }
      } else {
        next := 0;
      }
    }

    /** What the code reads of the chunk after p. */
    lemma ReadAfter(p: int, nb: int)
      requires Valid() && InUse(h, p)
      ensures PrevInUse(p) == h.chunks[p].prevInUse && Ld(mem, av + 8) == h.top
      ensures var next := Next(h, p);
              && next in h.chunks && next > p && ChunkSize(next) == h.chunks[next].size
              && (next != h.top ==> (InUseBit(next) <==> h.chunks[next].bin == 0))
              && 0 < h.chunks[p].size + h.chunks[next].size < W31 - MINSIZE
      ensures h.top in h.chunks && h.chunks[h.top].size <= MAXARENA && h.chunks[p].size <= MAXARENA
    {
      var next := Next(h, p);
      assert ChunkOk(h, p);
      InArena(p);
      InArena(next);
      assert HeadOk(mem, h, p) && HeadOk(mem, h, next) && PairOk(h, p, next);
      ReadHead(p);
      ReadHead(next);
      if next != h.top {
        assert ChunkOk(h, next) && HeadOk(mem, h, Next(h, next)) && PairOk(h, next, Next(h, next));
        ReadHead(Next(h, next));
      }
    }

    /** "Try shifting backwards": next is zero when the chunk after p is in use. */
    method EnlargeBackward(p: int, oldsize: int, next: int, nextsize: int, nb: int, bytes: int)
      returns (done: bool, ptr: int)
      requires Valid() && InUse(h, p) && oldsize == h.chunks[p].size < nb
      requires 0 <= bytes < W31 && nb == Request2Size(bytes) && (Overflows(bytes) ==> Next(h, p) != h.top)
      requires Next(h, p) in h.chunks && h.top in h.chunks
      requires next != 0 ==> next == Next(h, p) && nextsize == h.chunks[next].size
      requires if next != 0 then next == h.top || h.chunks[next].bin != 0
               else Next(h, p) != h.top && h.chunks[Next(h, p)].bin == 0
      modifies this`mem, this`h, this`brk, this`sbrkedMem
      ensures Valid()
      ensures done ==> ptr != 0 && Resized(old(h), old(mem), h, mem, p, ptr - 8, nb) && Shifts(old(h), ptr - 8, p, nb)
      ensures !done ==> NoShift(old(h), p, nb)
      ensures !done ==> h == old(h) && mem == old(mem) && brk == old(brk) && sbrkedMem == old(sbrkedMem)
      ensures old(Counted()) ==> Counted()
    {
      done, ptr := false, 0;
      assert HeadOk(mem, h, p);
      ReadHead(p);
      if PrevInUse(p) {
        NoFreeBefore(h, p, nb);
        return;
      }
      ghost var q := FreeBefore(h, p);
      assert FootOk(mem, h, q) && HeadOk(mem, h, q);
      var prev := p - Ld(mem, p);
      ReadHead(prev);
      InArena(prev);
      InArena(p);
      NoNull();
      var prevsize := ChunkSize(prev);
      if next != 0 {
        InArena(next);
        if next == Ld(mem, av + 8) {
          if RoomInTop(nextsize + prevsize + oldsize, nb) {
            BackwardIntoTop(prev, p, oldsize, oldsize + prevsize + nextsize, nb);
            return true, prev + 8;
          }
        } else if nextsize + prevsize + oldsize >= nb {
          BackwardAndForward(prev, p, oldsize, next, oldsize + nextsize + prevsize, nb);
          return true, prev + 8;
        }
      }
      if prevsize + oldsize >= nb {
        BackwardOnly(prev, p, oldsize, oldsize + prevsize, nb);
        return true, prev + 8;
      }
      OneBefore(h, p, q, nb);
    }

    /** realloc(oldptr, bytes) */
    method Realloc(oldptr: int, bytes: int) returns (ptr: int)
      requires Valid() && 0 <= bytes < W32 && (oldptr == 0 || oldptr - 8 in Blocks(h))
      requires oldptr == 0 && bytes < W31 ==> SafeToGrow(Request2Size(bytes))
      requires oldptr != 0 && Overflows(bytes) ==> Next(h, oldptr - 8) != h.top
      modifies this`mem, this`h, this`brk, this`sbrkBase, this`sbrkedMem
      ensures Valid()
      ensures bytes >= W31 ==> ptr == 0
      ensures ptr == 0 ==> Blocks(h) == Blocks(old(h)) && Kept(old(mem), mem, Blocks(old(h)))
      ensures ptr == 0 && bytes < W31 ==>
                MustGrow(old(h), Request2Size(bytes)) && !RoomToGrow(old(brk), Request2Size(bytes))
      ensures ptr == 0 && bytes < W31 && oldptr != 0 ==>
                !Stays(old(h), oldptr - 8, Request2Size(bytes)) && NoShift(old(h), oldptr - 8, Request2Size(bytes))
      ensures ptr != 0 && oldptr == 0 ==>
                && Allocated(old(h), h, ptr - 8, Request2Size(bytes)) && Kept(old(mem), mem, Blocks(old(h)))
                && Chosen(old(h), Request2Size(bytes), ptr - 8)
      ensures ptr != 0 && oldptr != 0 ==>
                && Resized(old(h), old(mem), h, mem, oldptr - 8, ptr - 8, Request2Size(bytes))
                && Placed(old(h), oldptr - 8, ptr - 8, Request2Size(bytes))
      ensures old(Counted()) && !old(Misaligned()) ==> Counted()
    {
      KeptSame(mem, Blocks(h));
      if Long(bytes) < 0 {
        return 0;
      }
      if oldptr == 0 {
        ptr := Malloc(bytes);
        return;
      }
      var p := oldptr - 8;
      assert HeadOk(mem, h, p);
      ReadHead(p);
      var oldsize := ChunkSize(p);
      var nb := Request2Size(bytes);
      if oldsize < nb {
        ptr := Enlarge(p, oldsize, nb, bytes);
      } else {
        Shrink(p, oldsize, nb);
        ptr := p + 8;
      }
    }

    /** What Realloc does not allow goes wrong: for such a request and a block that borders the top, the test for
        room succeeds, and the new top would start above the end of the memory there is. */
    lemma ReallocPastTop(p: int, bytes: int)
      requires Valid() && p in Blocks(h) && Next(h, p) == h.top && 0 <= bytes < W31
      ensures h.top in h.chunks
      ensures var nb, sum := Request2Size(bytes), h.chunks[h.top].size + h.chunks[p].size;
              && (Overflows(bytes) <==> RoomInTop(sum, nb) && sum < nb + MINSIZE)
              && (Overflows(bytes) ==> h.chunks[p].size < nb && p + nb > memEnd)
    {
      InArena(p);
      InArena(h.top);
      RoomInTopIsRight(bytes);
    }

    /** A block as it stands is ready to be split. */
    lemma ReadyToSplit(p: int, blocks: map<int, int>)
      requires Valid() && InUse(h, p) && Guards(h, blocks) && p !in blocks
      ensures Splitting(p, h.chunks[p].size, blocks)
    {
      assert HeadOk(mem, h, p);
      ReadHead(p);
      Restale(mem, h, {}, {p});
      StaleIsReady(p, blocks);
    }

    /** So is one whose head still tells whether the chunk before it is in use. */
    lemma StaleIsReady(p: int, blocks: map<int, int>)
      requires Ready({p}) && Arena() && InUse(h, p) && Guards(h, blocks) && p !in blocks
      requires PrevInUse(p) == h.chunks[p].prevInUse
      ensures Splitting(p, h.chunks[p].size, blocks)
    {
      var n := Next(h, p);
      assert ChunkOk(h, p) && PairOk(h, p, n);
      assert HeadOk(mem, h, n) && FootOk(mem, h, n);
      EvenSize(n);
      Restale(mem, h, {p}, {p, n});
    }

    /** rEALLOc of a block that is large enough as it is. */
    method Shrink(p: int, oldsize: int, nb: int)
      requires Valid() && InUse(h, p) && oldsize == h.chunks[p].size && nb % 8 == 0 && MINSIZE <= nb <= oldsize
      modifies this`mem, this`h, this`brk, this`sbrkedMem
      ensures Valid() && p > 0 && Resized(old(h), old(mem), h, mem, p, p, nb)
      ensures old(Counted()) ==> Counted()
    {
      ghost var blocks, b := Others(p), Blocks(h);
      OthersGuarded(p);
      NoNull();
      ReadyToSplit(p, blocks);
      SplitOff(p, oldsize, nb, blocks);
      CopiedLess(old(mem), p + 8, mem, p + 8, h.chunks[p].size - 4, Least(oldsize, h.chunks[p].size) - 4);
      SameRest(b, b, p, h.chunks[p].size);
    }

    // ----- mEMALIGn -----

    /** "Give back leader, use the rest." */
    method GiveBackLeader(p: int, newp: int)
      requires Valid() && InUse(h, p) && CanSplit(h, p, newp - p)
      modifies this`mem, this`h, this`brk, this`sbrkedMem
      ensures Valid() && newp !in Blocks(old(h))
      ensures Blocks(h) == (Blocks(old(h)) - {p})[newp := old(h).chunks[p].size - (newp - p)]
      ensures Kept(old(mem), mem, Blocks(old(h)) - {p})
      ensures old(Counted()) ==> Counted()
    {
      ghost var blocks := Others(p);
      OthersGuarded(p);
      assert HeadOk(mem, h, p);
      ReadHead(p);
      var leadsize := newp - p;
      var newsize := ChunkSize(p) - leadsize;
      CutLeader(p, newp, leadsize, newsize, blocks);
      ghost var m, b := mem, Blocks(h);
      NoNull();
      Free(p + 8);
      KeptLess(m, mem, b - {p}, blocks);
      KeptTrans(old(mem), m, mem, blocks);
      assert b - {p} == (Blocks(old(h)) - {p})[newp := newsize];
    }

    /** The three heads of a block cut at newp. */
    method CutLeader(p: int, newp: int, leadsize: int, newsize: int, ghost blocks: map<int, int>)
      requires Valid() && InUse(h, p) && CanSplit(h, p, leadsize) && newp == p + leadsize
      requires newsize == h.chunks[p].size - leadsize && Guards(h, blocks) && p !in blocks
      modifies this`mem, this`h
      ensures Valid() && InUse(h, p) && InUse(h, newp) && newp !in old(h).chunks && newp !in blocks && p != newp
      ensures Blocks(h) == Blocks(old(h))[p := leadsize][newp := newsize]
      ensures Kept(old(mem), mem, blocks)
    {
      ghost var kept := blocks[p := leadsize];
      ReadyToSplit(p, blocks);
      CutGhost(p, leadsize + newsize, leadsize, blocks);
      WriteLeader(p, newp, leadsize, newsize, kept);
      KeptLess(old(mem), mem, kept, blocks);
    }

    /** set_head(newp, newsize | PREV_INUSE); set_inuse_bit_at_offset(newp, newsize); set_head_size(p, leadsize) */
    method WriteLeader(p: int, newp: int, leadsize: int, newsize: int, ghost kept: map<int, int>)
      requires Ready({p, newp, newp + newsize}) && Guards(h, kept) && p != newp && InUse(h, p) && InUse(h, newp)
      requires leadsize == h.chunks[p].size && newsize == h.chunks[newp].size && h.chunks[newp].prevInUse
      requires PrevInUse(p) == h.chunks[p].prevInUse && newp + newsize in h.chunks && newp + newsize != p
      requires h.chunks[newp + newsize].prevInUse && FootOk(mem, h, newp + newsize)
      requires Ld(mem, newp + newsize + 4) - Ld(mem, newp + newsize + 4) % 2 == h.chunks[newp + newsize].size
      modifies this`mem
      ensures Ready({}) && Kept(old(mem), mem, kept)
    {
      ghost var n := newp + newsize;
      assert ChunkOk(h, newp);
      ChunkCells(h, newp, n);
      SetHead(newp, newsize + 1, {p, newp, n}, kept);
      ghost var m1 := mem;
      assert {p, newp, n} - {newp} == {p, n};
      SetInUseBit(newp + newsize, {p, n}, kept);
      ghost var m2 := mem;
      assert {p, n} - {n} == {p};
      SetHeadSize(p, leadsize, {p}, kept);
      assert {p} - {p} == {};
      KeptTrans(old(mem), m1, m2, kept);
      KeptTrans(old(mem), m2, mem, kept);
    }

    /** The aligned spot in a block of malloc: the block from there on, the leader given back. */
    method Align(m: int, a: int, nb: int) returns (p: int)
      requires Valid() && m - 8 in Blocks(h) && Blocks(h)[m - 8] >= nb + a + MINSIZE + 8
      requires a >= MINSIZE && PowerOfTwo(a) && nb % 8 == 0 && nb >= MINSIZE
      modifies this`mem, this`h, this`brk, this`sbrkedMem
      ensures Valid() && p > 0 && (p + 8) % a == 0 && Nearest(m, a, p + 8)
      ensures p in Blocks(h) && Blocks(h)[p] >= nb && p !in Blocks(old(h)) - {m - 8}
      ensures Blocks(h) == (Blocks(old(h)) - {m - 8})[p := Blocks(h)[p]]
      ensures Kept(old(mem), mem, Blocks(old(h)) - {m - 8})
      ensures old(Counted()) ==> Counted()
    {
      p := m - 8;
      NoNull();
      KeptSame(mem, Blocks(h) - {p});
      ghost var b := Blocks(h);
      if m % a == 0 {
        assert b == (b - {p})[p := b[p]];
        return;
      }
      assert ChunkOk(h, p) && AlignOk(h, p);
      var brk' := AlignedSpot(p, m, a);
      GiveBackLeader(p, brk');
      p := brk';
    }

    /** Where the aligned block starts: at least MINSIZE after the start of the chunk. */
    static method AlignedSpot(p: int, m: int, a: int) returns (s: int)
      requires p > 0 && m == p + 8 && p % 8 == 0 && a >= MINSIZE && PowerOfTwo(a)
      ensures (s + 8) % a == 0 && (s - p) % 8 == 0 && MINSIZE <= s - p <= a + MINSIZE - 8
    {
      MaskDownAligns(m + a - 1, a);
      ghost var t := MaskDown(m + a - 1, a);
      SpotAligned(p, t, a);
      s := MaskDown(m + a - 1, a) - 8;
      if s - p < MINSIZE {
        s := s + a;
      }
    }

    /** "Also give back spare room at the end." */
    method GiveBackEnd(p: int, nb: int)
      requires Valid() && p in Blocks(h) && nb % 8 == 0 && MINSIZE <= nb <= Blocks(h)[p]
      modifies this`mem, this`h, this`brk, this`sbrkedMem
      ensures Valid() && p in Blocks(h) && nb <= Blocks(h)[p] < nb + MINSIZE
      ensures Blocks(h) == (Blocks(old(h)) - {p})[p := Blocks(h)[p]]
      ensures Kept(old(mem), mem, Blocks(old(h)) - {p})
      ensures old(Counted()) ==> Counted()
    {
      ghost var blocks, b0 := Others(p), Blocks(h);
      OthersGuarded(p);
      KeptSame(mem, blocks);
      assert HeadOk(mem, h, p);
      ReadHead(p);
      var size := ChunkSize(p);
      var remainder_size := size - nb;
      if remainder_size >= MINSIZE {
        CutEnd(p, nb, remainder_size, blocks);
        ghost var m, b1, r := mem, Blocks(h), p + nb;
        NoNull();
        Free(p + nb + 8);
        assert r !in b0;
        SplitRest(b0, p, nb, r, remainder_size);
        assert Blocks(h) == b0[p := nb] == (b0 - {p})[p := nb];
        KeptLess(m, mem, b1 - {r}, blocks);
        KeptTrans(old(mem), m, mem, blocks);
      } else {
        assert b0 == (b0 - {p})[p := b0[p]];
      }
    }

    /** set_head(remainder, remainder_size | PREV_INUSE); set_head_size(p, nb) */
    method CutEnd(p: int, nb: int, remainder_size: int, ghost blocks: map<int, int>)
      requires Valid() && InUse(h, p) && CanSplit(h, p, nb)
      requires remainder_size == h.chunks[p].size - nb && Guards(h, blocks) && p !in blocks
      modifies this`mem, this`h
      ensures Valid() && InUse(h, p) && InUse(h, p + nb) && p + nb !in old(h).chunks && p + nb !in blocks && nb > 0
      ensures Blocks(h) == Blocks(old(h))[p := nb][p + nb := remainder_size]
      ensures Kept(old(mem), mem, blocks)
    {
      ghost var kept, n, r := blocks[p := nb], Next(h, p), p + nb;
      assert ChunkOk(h, p) && HeadOk(mem, h, n) && FootOk(mem, h, n) && PairOk(h, p, n);
      ReadyToSplit(p, blocks);
      CutGhost(p, nb + remainder_size, nb, blocks);
      Restale(mem, h, {p, r, n}, {p, r});
      SetHead(p + nb, remainder_size + 1, {p, r}, kept);
      ghost var m := mem;
      assert {p, r} - {r} == {p};
      SetHeadSize(p, nb, {p}, kept);
      assert {p} - {p} == {};
      KeptTrans(old(mem), m, mem, kept);
      KeptLess(old(mem), mem, kept, blocks);
    }

    /** memalign(alignment, bytes) */
    method Memalign(alignment: int, bytes: int) returns (ptr: int)
      requires Valid() && 0 <= bytes < W32 && PowerOfTwo(alignment) && alignment <= W31
      requires PaddedRequest(alignment, bytes)
      requires bytes < W31 && MemalignRequest(alignment, bytes) < W31 ==>
                 SafeToGrow(Request2Size(MemalignRequest(alignment, bytes)))
      modifies this`mem, this`h, this`brk, this`sbrkBase, this`sbrkedMem
      ensures Valid() && Kept(old(mem), mem, Blocks(old(h)))
      ensures bytes >= W31 ==> ptr == 0
      ensures ptr == 0 ==> Blocks(h) == Blocks(old(h))
      ensures ptr == 0 && bytes + alignment + 64 < W31 ==> !RoomToGrow(old(brk), bytes + alignment + 64)
      ensures ptr == 0 && bytes < W31 && MemalignRequest(alignment, bytes) < W31 ==>
                MustGrow(old(h), Request2Size(MemalignRequest(alignment, bytes)))
      ensures ptr != 0 ==> ptr % alignment == 0 && ptr > 8 && NewBlock(old(h), h, ptr - 8, Request2Size(bytes))
      ensures ptr != 0 ==>
                && bytes < W31 && MemalignRequest(alignment, bytes) < W31
                && if alignment <= 8 then Chosen(old(h), Request2Size(bytes), ptr - 8)
                   else NearestIn(old(h), MemalignRequest(alignment, bytes),
                                  if alignment < MINSIZE then MINSIZE else alignment, ptr)
      ensures old(Counted()) && !old(Misaligned()) ==> Counted()
    {
      KeptSame(mem, Blocks(h));
      if Long(bytes) < 0 {
        return 0;
      }
      if alignment <= 8 {
        ptr := Relay(alignment, bytes);
        return;
      }
      SmallPower(alignment);
      var a := if alignment < MINSIZE then MINSIZE else alignment;
      var nb := Request2Size(bytes);
      ptr := AlignedBlock(a, nb);
    }

    /** "If need less alignment than we give anyway, just relay to malloc" */
    method Relay(alignment: int, bytes: int) returns (ptr: int)
      requires Valid() && 0 <= bytes < W31 && PowerOfTwo(alignment) && alignment <= 8
      requires SafeToGrow(Request2Size(bytes))
      modifies this`mem, this`h, this`brk, this`sbrkBase, this`sbrkedMem
      ensures Valid() && Kept(old(mem), mem, Blocks(old(h)))
      ensures ptr == 0 ==> Blocks(h) == Blocks(old(h))
      ensures ptr == 0 ==> MustGrow(old(h), Request2Size(bytes)) && !RoomToGrow(old(brk), Request2Size(bytes))
      ensures ptr != 0 ==> ptr % alignment == 0 && ptr > 8 && NewBlock(old(h), h, ptr - 8, Request2Size(bytes))
      ensures ptr != 0 ==> Chosen(old(h), Request2Size(bytes), ptr - 8)
      ensures old(Counted()) && !old(Misaligned()) ==> Counted()
    {
      ptr := Malloc(bytes);
      if ptr != 0 {
        assert AlignOk(h, ptr - 8);
        SmallPower(alignment);
        SmallAlignment(ptr, alignment);
      }
    }

    /** "Call malloc with worst case padding to hit alignment", and cut the block to size. */
    method AlignedBlock(a: int, nb: int) returns (ptr: int)
      requires Valid() && MINSIZE <= a <= W31 && PowerOfTwo(a) && nb % 8 == 0 && MINSIZE <= nb <= W31 - 8
      requires nb + a + MINSIZE < W31 - 11 || W31 <= nb + a + MINSIZE < W32
      requires nb + a + MINSIZE < W31 ==> SafeToGrow(Request2Size(nb + a + MINSIZE))
      modifies this`mem, this`h, this`brk, this`sbrkBase, this`sbrkedMem
      ensures Valid() && Kept(old(mem), mem, Blocks(old(h)))
      ensures ptr == 0 ==> Blocks(h) == Blocks(old(h))
      ensures ptr == 0 && nb + a + MINSIZE < W31 ==>
                && MustGrow(old(h), Request2Size(nb + a + MINSIZE))
                && !RoomToGrow(old(brk), Request2Size(nb + a + MINSIZE))
      ensures ptr != 0 ==> ptr % a == 0 && ptr > 8 && NewBlock(old(h), h, ptr - 8, nb)
      ensures ptr != 0 ==> nb + a + MINSIZE < W31 && NearestIn(old(h), nb + a + MINSIZE, a, ptr)
      ensures old(Counted()) && !old(Misaligned()) ==> Counted()
    {
      var padded := U32(nb + a + MINSIZE);
      assert padded == nb + a + MINSIZE;
      var m := Malloc(padded);
      if m == 0 {
        return 0;
      }
      ghost var m1 := mem;
      PaddingIsEnough(a, nb);
      ptr := CutAligned(m, a, nb, Blocks(old(h)));
      KeptTrans(old(mem), m1, mem, Blocks(old(h)));
    }

    /** The new block m of malloc, next to the blocks b0, is cut to an aligned one of nb bytes. */
    method CutAligned(m: int, a: int, nb: int, ghost b0: map<int, int>) returns (ptr: int)
      requires Valid() && MINSIZE <= a && PowerOfTwo(a) && nb % 8 == 0 && MINSIZE <= nb
      requires m - 8 !in b0 && m - 8 in Blocks(h) && Blocks(h) == b0[m - 8 := Blocks(h)[m - 8]]
      requires Blocks(h)[m - 8] >= nb + a + MINSIZE + 8
      modifies this`mem, this`h, this`brk, this`sbrkedMem
      ensures Valid() && Kept(old(mem), mem, b0)
      ensures ptr % a == 0 && ptr > 8 && ptr - 8 !in b0 && ptr - 8 in Blocks(h) && Nearest(m, a, ptr)
      ensures Blocks(h) == b0[ptr - 8 := Blocks(h)[ptr - 8]] && nb <= Blocks(h)[ptr - 8] < nb + MINSIZE
      ensures old(Counted()) ==> Counted()
    {
      PutAndTaken(b0, m - 8, Blocks(h)[m - 8]);
      var p := Align(m, a, nb);
      ghost var m2, b2 := mem, Blocks(h);
      GiveBackEnd(p, nb);
      PutAndTaken(b0, p, b2[p]);
      KeptTrans(old(mem), m2, mem, b0);
      ptr := p + 8;
    }

    lemma PaddingIsEnough(a: int, nb: int)
      requires MINSIZE <= a && PowerOfTwo(a) && nb % 8 == 0 && MINSIZE <= nb && nb + a + MINSIZE < W31 - 11
      ensures Request2Size(nb + a + MINSIZE) >= nb + a + MINSIZE + 8
    {
      EightDivides(a);
    }
  }

  /** A heap as above: its first block borders the top, and a request Realloc does not allow would take it for
      a top that ends past the memory. */
  method BlockBesideTop() returns (a: Allocator, ptr: int)
    ensures fresh(a) && a.Valid() && ptr - 8 in Blocks(a.h) && Next(a.h, ptr - 8) == a.h.top
    ensures Overflows(W31 - 20) && ptr - 8 + Request2Size(W31 - 20) > a.memEnd
    ensures RoomInTop(a.h.chunks[a.h.top].size + a.h.chunks[ptr - 8].size, Request2Size(W31 - 20))
  {
    a := new Allocator(0x8000_0000, 0x8010_0000, 0x8020_0000, 0, 0, 0x2_0000);
    assert a.RoomToGrow(a.brk, Request2Size(100)) && a.SafeToGrow(Request2Size(100));
    ptr := a.Malloc(100);
    a.ReallocPastTop(ptr - 8, W31 - 20);
  }

  /** A board with one megabyte, and a first request of two: with its sbrk, the top would start at address zero. */
  method FirstRequestTooLarge() returns (a: Allocator)
    ensures fresh(a) && a.Valid() && a.sbrkFails == 0
    ensures var nb := Request2Size(0x20_0000); !a.SafeToGrow(nb) && a.FirstTopOnBoard(nb).0 == 0
  {
    a := new Allocator(0x8000_0000, 0x8010_0000, 0x8020_0000, 0, 0, 0x2_0000);
  }
}
