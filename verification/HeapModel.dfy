/** The heap as chunks and bins, without the words that represent them.

    `chunks` maps the address of every chunk, the top chunk included, to its size,
    to its PREV_INUSE bit, and to the bin that lists it.  Bin 0 means that no bin lists
    the chunk: it is in use, or it is the top.  Bin 1 is `last_remainder`.

    The invariant is a conjunction of quantifiers that are instantiated only where a
    proof mentions the named fact they quantify over (ChunkOk, PairOk, ItemOk, OrderOk). */
module HeapModel {
  import opened Sizes

  datatype Chunk = Chunk(size: int, prevInUse: bool, bin: int)

  /** `freed` and `clock` are the history that the code does not store: when a chunk was last put in a regular bin. */
  datatype Heap = Heap(chunks: map<int, Chunk>, bins: seq<seq<int>>, top: int, base: int, av: int,
                       freed: map<int, int>, clock: int)

  function FreedAt(h: Heap, a: int): int {
    if a in h.freed then h.freed[a] else 0
  }

  function Next(h: Heap, a: int): int
    requires a in h.chunks
  {
    a + h.chunks[a].size
  }

  /** A chunk that is neither the top nor in a bin. */
  ghost predicate InUse(h: Heap, a: int) {
    a in h.chunks && a != h.top && h.chunks[a].bin == 0
  }

  // ----- the invariant -----

  /** The bytes of the static array `av_`: two words for each bin, and two before them. */
  const AVSIZE: int := 8 * NAV + 8

  /** A chunk lies in the arena, clear of `av_`, is large enough, and is followed by a chunk unless it is the top. */
  ghost predicate ChunkOk(h: Heap, a: int) {
    a in h.chunks ==>
      && h.base <= a <= h.top
      && (a + h.chunks[a].size <= h.av || h.av + AVSIZE <= a)
      && h.chunks[a].size >= MINSIZE
      && (a != h.top ==> Next(h, a) in h.chunks)
  }

  /** A chunk starts and ends on an eight-byte boundary. */
  ghost predicate AlignOk(h: Heap, a: int) {
    a in h.chunks ==> a % 8 == 0 && h.chunks[a].size % 8 == 0
  }

  /** A free chunk is listed by its bin and touches neither a free chunk before it nor the top. */
  ghost predicate FreeOk(h: Heap, a: int) {
    a in h.chunks && h.chunks[a].bin != 0 ==>
      && a != h.top && h.chunks[a].prevInUse && Next(h, a) != h.top
      && 1 <= h.chunks[a].bin < |h.bins| && a in h.bins[h.chunks[a].bin]
  }

  /** Chunks do not overlap, and the PREV_INUSE bit of one tells the truth about the one before it. */
  ghost predicate PairOk(h: Heap, a: int, b: int) {
    a in h.chunks && b in h.chunks && a < b ==>
      && Next(h, a) <= b
      && (Next(h, a) == b ==> (h.chunks[b].prevInUse <==> h.chunks[a].bin == 0))
  }

  /** What a bin lists is a free chunk that belongs there. */
  ghost predicate ItemOk(h: Heap, i: int, k: int) {
    0 <= i < |h.bins| && 0 <= k < |h.bins[i]| ==>
      && h.bins[i][k] in h.chunks
      && h.chunks[h.bins[i][k]].bin == i
      && (i >= 2 ==>
            && FreedAt(h, h.bins[i][k]) < h.clock
            && h.chunks[h.bins[i][k]].size >= 0 && i == BinIndex(h.chunks[h.bins[i][k]].size))
  }

  /** A bin lists each chunk once, and a regular bin in decreasing order of size, the latest of equals first. */
  ghost predicate OrderOk(h: Heap, i: int, k: int, l: int) {
    0 <= i < |h.bins| && 0 <= k < l < |h.bins[i]| ==>
      && h.bins[i][k] != h.bins[i][l]
      && (i >= 2 && h.bins[i][k] in h.chunks && h.bins[i][l] in h.chunks ==>
            && h.chunks[h.bins[i][k]].size >= h.chunks[h.bins[i][l]].size
            && (h.chunks[h.bins[i][k]].size == h.chunks[h.bins[i][l]].size ==>
                  FreedAt(h, h.bins[i][k]) > FreedAt(h, h.bins[i][l])))
  }

  ghost predicate EndsOk(h: Heap) {
    && |h.bins| == NAV && h.bins[0] == [] && |h.bins[1]| <= 1
    && (h.chunks != map[] ==>
          && h.base in h.chunks && h.chunks[h.base].prevInUse
          && h.top in h.chunks && h.chunks[h.top].prevInUse && h.chunks[h.top].bin == 0)
  }

  ghost predicate Shape(h: Heap) {
    && EndsOk(h)
    && (forall a {:trigger ChunkOk(h, a)} :: ChunkOk(h, a))
    && (forall a {:trigger AlignOk(h, a)} :: AlignOk(h, a))
    && (forall a {:trigger FreeOk(h, a)} :: FreeOk(h, a))
    && (forall a, b {:trigger PairOk(h, a, b)} :: PairOk(h, a, b))
    && (forall i, k {:trigger ItemOk(h, i, k)} :: ItemOk(h, i, k))
    && (forall i, k, l {:trigger OrderOk(h, i, k, l)} :: OrderOk(h, i, k, l))
  }

  /** The arena still runs from the same first chunk to the end of the same top. */
  ghost predicate SameEnds(h: Heap, g: Heap) {
    && g.top == h.top && g.base == h.base && g.av == h.av
    && (h.top in h.chunks ==> h.top in g.chunks && g.chunks[h.top].size == h.chunks[h.top].size)
  }

  // ----- sequences -----

  function RemoveAt<T>(s: seq<T>, k: int): (r: seq<T>)
    requires 0 <= k < |s|
    ensures |r| == |s| - 1
    ensures forall j :: 0 <= j < |r| ==> r[j] == s[if j < k then j else j + 1]
  {
    s[..k] + s[k + 1..]
  }

  function InsertAt<T>(s: seq<T>, k: int, x: T): (r: seq<T>)
    requires 0 <= k <= |s|
    ensures |r| == |s| + 1
    ensures forall j :: 0 <= j < |r| ==> r[j] == if j < k then s[j] else if j == k then x else s[j - 1]
  {
    s[..k] + [x] + s[k..]
  }

  // ----- transitions that leave the bins alone -----

  /** The same chunks are free, with the same sizes, and the bins list them as before. */
  ghost predicate SameFree(h: Heap, g: Heap, a: int) {
    && (a in h.chunks && h.chunks[a].bin != 0 ==>
          a in g.chunks && g.chunks[a].bin == h.chunks[a].bin && g.chunks[a].size == h.chunks[a].size)
    && (a in g.chunks && g.chunks[a].bin != 0 ==>
          a in h.chunks && g.chunks[a].bin == h.chunks[a].bin)
  }

  lemma SameFreeKeepsBins(h: Heap, g: Heap)
    requires Shape(h) && g.bins == h.bins && g.freed == h.freed && g.clock == h.clock
    requires forall a {:trigger SameFree(h, g, a)} :: SameFree(h, g, a)
    ensures forall i, k {:trigger ItemOk(g, i, k)} :: ItemOk(g, i, k)
    ensures forall i, k, l {:trigger OrderOk(g, i, k, l)} :: OrderOk(g, i, k, l)
  {
    forall i, k ensures ItemOk(g, i, k) {
      ItemKept(h, g, i, k);
    }
    forall i, k, l ensures OrderOk(g, i, k, l) {
      ItemKept(h, g, i, k);
      ItemKept(h, g, i, l);
      assert OrderOk(h, i, k, l);
    }
  }

  lemma ItemKept(h: Heap, g: Heap, i: int, k: int)
    requires Shape(h) && g.bins == h.bins && g.freed == h.freed && g.clock == h.clock
    requires forall a {:trigger SameFree(h, g, a)} :: SameFree(h, g, a)
    ensures ItemOk(g, i, k)
    ensures 0 <= i < NAV && 0 <= k < |h.bins[i]| ==>
              var a := h.bins[i][k]; a in h.chunks && g.chunks[a].size == h.chunks[a].size
  {
    if 0 <= i < NAV && 0 <= k < |h.bins[i]| {
      assert ItemOk(h, i, k);
      assert SameFree(h, g, h.bins[i][k]);
    }
  }

  /** Join an in-use chunk with the in-use chunk after it. */
  function Merge(h: Heap, a: int): Heap
    requires a in h.chunks && Next(h, a) in h.chunks
  {
    var n := Next(h, a);
    h.(chunks := (h.chunks - {n})[a := h.chunks[a].(size := h.chunks[a].size + h.chunks[n].size)])
  }

  lemma MergeKeepsShape(h: Heap, a: int)
    requires Shape(h) && InUse(h, a) && InUse(h, Next(h, a))
    ensures Shape(Merge(h, a)) && InUse(Merge(h, a), a)
  {
    var g, n := Merge(h, a), Next(h, a);
    assert ChunkOk(h, a) && ChunkOk(h, n) && PairOk(h, a, n) && ChunkOk(h, h.base);
    forall x ensures AlignOk(g, x) {
      assert AlignOk(h, x) && AlignOk(h, a) && AlignOk(h, n);
    }
    forall x ensures ChunkOk(g, x) {
      assert ChunkOk(h, x);
      MergeNext(h, a, x);
    }
    forall x ensures FreeOk(g, x) && SameFree(h, g, x) {
      assert FreeOk(h, x);
    }
    forall x, y ensures PairOk(g, x, y) {
      MergePair(h, a, x, y);
    }
    SameFreeKeepsBins(h, g);
  }

  /** Only the chunk that grows can have been followed by the chunk that goes. */
  lemma MergeNext(h: Heap, a: int, x: int)
    requires Shape(h) && InUse(h, a) && Next(h, a) in h.chunks
    ensures x in h.chunks && x != a ==> Next(h, x) != Next(h, a)
    ensures Next(h, Next(h, a)) != Next(h, a) && Next(h, a) > a
  {
    assert PairOk(h, x, a) && PairOk(h, a, x) && ChunkOk(h, x) && ChunkOk(h, a);
    assert ChunkOk(h, Next(h, a));
  }

  lemma MergePair(h: Heap, a: int, x: int, y: int)
    requires Shape(h) && InUse(h, a) && Next(h, a) in h.chunks && h.chunks[Next(h, a)].bin == 0
    ensures PairOk(Merge(h, a), x, y)
  {
    var n := Next(h, a);
    assert PairOk(h, x, y) && PairOk(h, n, y) && PairOk(h, y, n);
    assert ChunkOk(h, a) && ChunkOk(h, y);
    assert PairOk(h, a, y);
  }

  /** Join an in-use chunk with the top after it: it becomes the top. */
  function MergeTop(h: Heap, a: int): Heap
    requires a in h.chunks && Next(h, a) in h.chunks
  {
    Merge(h, a).(top := a)
  }

  lemma MergeTopKeepsShape(h: Heap, a: int)
    requires Shape(h) && InUse(h, a) && Next(h, a) == h.top && h.top in h.chunks && h.chunks[a].prevInUse
    ensures Shape(MergeTop(h, a))
  {
    var g, n := MergeTop(h, a), Next(h, a);
    assert ChunkOk(h, a) && ChunkOk(h, n) && ChunkOk(h, h.base);
    forall x ensures AlignOk(g, x) {
      assert AlignOk(h, x) && AlignOk(h, a) && AlignOk(h, n);
    }
    forall x ensures ChunkOk(g, x) {
      assert ChunkOk(h, x) && PairOk(h, a, x);
      MergeNext(h, a, x);
    }
    forall x ensures FreeOk(g, x) && SameFree(h, g, x) {
      assert FreeOk(h, x) && PairOk(h, x, a) && ChunkOk(h, x) && PairOk(h, a, x);
    }
    forall x, y ensures PairOk(g, x, y) {
      MergePair(h, a, x, y);
      assert PairOk(Merge(h, a), x, y);
    }
    SameFreeKeepsBins(h, g);
  }

  /** Cut a chunk in two, the first of size nb. */
  function Split(h: Heap, a: int, nb: int): Heap
    requires a in h.chunks
  {
    var c := h.chunks[a];
    h.(chunks := h.chunks[a := c.(size := nb)][a + nb := Chunk(c.size - nb, true, 0)])
  }

  ghost predicate CanSplit(h: Heap, a: int, nb: int) {
    a in h.chunks && h.chunks[a].bin == 0 && nb % 8 == 0 && MINSIZE <= nb <= h.chunks[a].size - MINSIZE
  }

  lemma SplitPair(h: Heap, a: int, nb: int, x: int, y: int)
    requires Shape(h) && CanSplit(h, a, nb)
    ensures a + nb !in h.chunks
    ensures PairOk(Split(h, a, nb), x, y)
  {
    assert PairOk(h, a, a + nb);
    assert PairOk(h, x, y) && PairOk(h, a, y) && PairOk(h, x, a) && PairOk(h, a, x);
    assert ChunkOk(h, a) && ChunkOk(h, x);
  }

  lemma SplitKeepsShape(h: Heap, a: int, nb: int)
    requires Shape(h) && InUse(h, a) && CanSplit(h, a, nb)
    ensures a + nb !in h.chunks
    ensures Shape(Split(h, a, nb))
    ensures InUse(Split(h, a, nb), a) && InUse(Split(h, a, nb), a + nb)
  {
    var g := Split(h, a, nb);
    assert PairOk(h, a, a + nb) && PairOk(h, a, h.top) && ChunkOk(h, a) && ChunkOk(h, h.top);
    forall x ensures AlignOk(g, x) {
      assert AlignOk(h, x) && AlignOk(h, a);
    }
    forall x ensures ChunkOk(g, x) {
      assert ChunkOk(h, x);
    }
    forall x ensures FreeOk(g, x) && SameFree(h, g, x) {
      assert FreeOk(h, x);
    }
    forall x, y ensures PairOk(g, x, y) {
      SplitPair(h, a, nb, x, y);
    }
    SameFreeKeepsBins(h, g);
  }

  /** Carve an in-use chunk of size nb from the front of the top. */
  function SplitTop(h: Heap, nb: int): Heap
    requires h.top in h.chunks
  {
    Split(h, h.top, nb).(top := h.top + nb)
  }

  lemma SplitTopKeepsShape(h: Heap, nb: int)
    requires Shape(h) && CanSplit(h, h.top, nb)
    ensures h.top + nb !in h.chunks
    ensures Shape(SplitTop(h, nb)) && InUse(SplitTop(h, nb), h.top)
  {
    var g := SplitTop(h, nb);
    assert PairOk(h, h.top, h.top + nb) && ChunkOk(h, h.top);
    forall x ensures AlignOk(g, x) {
      assert AlignOk(h, x) && AlignOk(h, h.top);
    }
    forall x ensures ChunkOk(g, x) {
      assert ChunkOk(h, x);
    }
    forall x ensures FreeOk(g, x) && SameFree(h, g, x) {
      assert FreeOk(h, x) && ChunkOk(h, x) && ChunkOk(h, h.top + nb);
    }
    forall x, y ensures PairOk(g, x, y) {
      SplitPair(h, h.top, nb, x, y);
      assert PairOk(Split(h, h.top, nb), x, y);
    }
    SameFreeKeepsBins(h, g);
  }

  /** Change the size of the top. */
  function ResizeTop(h: Heap, size: int): Heap
    requires h.top in h.chunks
  {
    h.(chunks := h.chunks[h.top := h.chunks[h.top].(size := size)])
  }

  lemma ResizeTopKeepsShape(h: Heap, size: int)
    requires Shape(h) && h.top in h.chunks && size >= MINSIZE && size % 8 == 0
    requires h.top + size <= h.av || h.av + AVSIZE <= h.top
    ensures Shape(ResizeTop(h, size))
  {
    var g := ResizeTop(h, size);
    forall x ensures AlignOk(g, x) {
      assert AlignOk(h, x);
    }
    forall x ensures ChunkOk(g, x) {
      assert ChunkOk(h, x);
    }
    forall x ensures FreeOk(g, x) && SameFree(h, g, x) {
      assert FreeOk(h, x);
    }
    forall x, y ensures PairOk(g, x, y) {
      assert PairOk(h, x, y) && ChunkOk(h, y);
    }
    SameFreeKeepsBins(h, g);
  }

  // ----- transitions in and out of a bin -----

  /** Take the chunk at position k of bin i out of the bin: it becomes in use. */
  function Detach(h: Heap, i: int, k: int): Heap
    requires 0 <= i < |h.bins| && 0 <= k < |h.bins[i]|
    requires h.bins[i][k] in h.chunks && Next(h, h.bins[i][k]) in h.chunks
  {
    var a := h.bins[i][k];
    var n := Next(h, a);
    h.(chunks := h.chunks[a := h.chunks[a].(bin := 0)][n := h.chunks[n].(prevInUse := true)],
       bins := h.bins[i := RemoveAt(h.bins[i], k)])
  }

  /** Position k of bin i holds a chunk, which has a chunk after it. */
  lemma Holds(h: Heap, i: int, k: int)
    requires Shape(h) && 0 <= i < NAV && 0 <= k < |h.bins[i]|
    ensures 1 <= i && h.bins[i][k] in h.chunks && h.chunks[h.bins[i][k]].bin == i && h.bins[i][k] != h.top
    ensures Next(h, h.bins[i][k]) in h.chunks && Next(h, h.bins[i][k]) != h.top
    ensures h.chunks[h.bins[i][k]].prevInUse && h.chunks[h.bins[i][k]].size >= MINSIZE
    ensures InUse(h, Next(h, h.bins[i][k])) && !h.chunks[Next(h, h.bins[i][k])].prevInUse
  {
    var a := h.bins[i][k];
    assert ItemOk(h, i, k) && ChunkOk(h, a) && FreeOk(h, a);
    assert PairOk(h, a, Next(h, a)) && FreeOk(h, Next(h, a));
  }

  lemma DetachKeepsShape(h: Heap, i: int, k: int)
    requires Shape(h) && 0 <= i < NAV && 0 <= k < |h.bins[i]|
    ensures h.bins[i][k] in h.chunks && Next(h, h.bins[i][k]) in h.chunks
    ensures Shape(Detach(h, i, k))
    ensures InUse(Detach(h, i, k), h.bins[i][k])
  {
    Holds(h, i, k);
    var g, a := Detach(h, i, k), h.bins[i][k];
    assert ChunkOk(h, a);
    forall x ensures AlignOk(g, x) {
      assert AlignOk(h, x);
    }
    forall x ensures ChunkOk(g, x) {
      assert ChunkOk(h, x);
    }
    forall x ensures FreeOk(g, x) {
      DetachFree(h, i, k, x);
    }
    forall x, y ensures PairOk(g, x, y) {
      assert PairOk(h, x, y) && PairOk(h, x, a) && PairOk(h, a, x);
    }
    forall j, l ensures ItemOk(g, j, l) {
      DetachItem(h, i, k, j, l);
    }
    forall j, l, l' ensures OrderOk(g, j, l, l') {
      DetachOrder(h, i, k, j, l, l');
    }
  }

  lemma DetachFree(h: Heap, i: int, k: int, x: int)
    requires Shape(h) && 0 <= i < NAV && 0 <= k < |h.bins[i]|
    requires h.bins[i][k] in h.chunks && Next(h, h.bins[i][k]) in h.chunks
    ensures FreeOk(Detach(h, i, k), x)
  {
    var g := Detach(h, i, k);
    Holds(h, i, k);
    assert FreeOk(h, x);
    if x in g.chunks && g.chunks[x].bin != 0 {
      var b := h.chunks[x].bin;
      var j :| 0 <= j < |h.bins[b]| && h.bins[b][j] == x;
      assert b == i ==> g.bins[i][if j < k then j else j - 1] == x;
    }
  }

  lemma DetachItem(h: Heap, i: int, k: int, j: int, l: int)
    requires Shape(h) && 0 <= i < NAV && 0 <= k < |h.bins[i]|
    requires h.bins[i][k] in h.chunks && Next(h, h.bins[i][k]) in h.chunks
    ensures ItemOk(Detach(h, i, k), j, l)
  {
    var l0 := if j == i && l >= k then l + 1 else l;
    assert ItemOk(h, i, k) && ItemOk(h, j, l0) && OrderOk(h, i, k, l0) && OrderOk(h, i, l0, k);
  }

  lemma DetachOrder(h: Heap, i: int, k: int, j: int, l: int, l': int)
    requires Shape(h) && 0 <= i < NAV && 0 <= k < |h.bins[i]|
    requires h.bins[i][k] in h.chunks && Next(h, h.bins[i][k]) in h.chunks
    ensures OrderOk(Detach(h, i, k), j, l, l')
  {
    var l0 := if j == i && l >= k then l + 1 else l;
    var l1 := if j == i && l' >= k then l' + 1 else l';
    assert OrderOk(h, j, l0, l1) && ItemOk(h, j, l0) && ItemOk(h, j, l1);
  }

  /** Position k of bin i keeps the bin in decreasing order of size for a chunk of size s, ahead of its equals. */
  ghost predicate Fits(h: Heap, i: int, k: int, s: int) {
    && FitsInOrder(h, i, k, s)
    && (i >= 2 ==> s >= 0 && i == BinIndex(s))
  }

  ghost predicate FitsInOrder(h: Heap, i: int, k: int, s: int) {
    && 1 <= i < |h.bins| && 0 <= k <= |h.bins[i]|
    && (i == 1 ==> h.bins[1] == [])
    && (i >= 2 ==> forall j :: 0 <= j < |h.bins[i]| && h.bins[i][j] in h.chunks ==>
          if j < k then h.chunks[h.bins[i][j]].size > s else h.chunks[h.bins[i][j]].size <= s)
  }

  /** Free an in-use chunk into position k of bin i. */
  function Attach(h: Heap, a: int, i: int, k: int): Heap
    requires a in h.chunks && Next(h, a) in h.chunks && 0 <= i < |h.bins| && 0 <= k <= |h.bins[i]|
  {
    var n := Next(h, a);
    h.(chunks := h.chunks[a := h.chunks[a].(bin := i)][n := h.chunks[n].(prevInUse := false)],
       bins := h.bins[i := InsertAt(h.bins[i], k, a)],
       freed := if i >= 2 then h.freed[a := h.clock] else h.freed, clock := if i >= 2 then h.clock + 1 else h.clock)
  }

  /** An in-use chunk whose neighbours are in use, below the top. */
  ghost predicate CanFree(h: Heap, a: int) {
    InUse(h, a) && h.chunks[a].prevInUse && InUse(h, Next(h, a))
  }

  lemma AttachKeepsShape(h: Heap, a: int, i: int, k: int)
    requires Shape(h) && CanFree(h, a) && Fits(h, i, k, h.chunks[a].size)
    ensures Shape(Attach(h, a, i, k))
  {
    var g := Attach(h, a, i, k);
    assert ChunkOk(h, a) && ChunkOk(h, h.base);
    forall x ensures AlignOk(g, x) {
      assert AlignOk(h, x);
    }
    forall x ensures ChunkOk(g, x) {
      assert ChunkOk(h, x);
    }
    forall x ensures FreeOk(g, x) {
      AttachFree(h, a, i, k, x);
    }
    forall x, y ensures PairOk(g, x, y) {
      assert PairOk(h, x, y) && PairOk(h, x, a) && PairOk(h, a, x);
    }
    forall j, l ensures ItemOk(g, j, l) {
      AttachItem(h, a, i, k, j, l);
    }
    forall j, l, l' ensures OrderOk(g, j, l, l') {
      AttachOrder(h, a, i, k, j, l, l');
    }
    assert PairOk(h, a, h.base);
  }

  lemma AttachFree(h: Heap, a: int, i: int, k: int, x: int)
    requires Shape(h) && CanFree(h, a) && Fits(h, i, k, h.chunks[a].size)
    ensures FreeOk(Attach(h, a, i, k), x)
  {
    var g := Attach(h, a, i, k);
    assert FreeOk(h, x);
    assert g.bins[i][k] == a;
    if x != a && x in g.chunks && g.chunks[x].bin != 0 {
      var b := h.chunks[x].bin;
      var j :| 0 <= j < |h.bins[b]| && h.bins[b][j] == x;
      assert b == i ==> g.bins[i][if j < k then j else j + 1] == x;
    }
  }

  lemma AttachItem(h: Heap, a: int, i: int, k: int, j: int, l: int)
    requires Shape(h) && CanFree(h, a) && Fits(h, i, k, h.chunks[a].size)
    ensures ItemOk(Attach(h, a, i, k), j, l)
  {
    var l0 := if j == i && l > k then l - 1 else l;
    assert ItemOk(h, j, l0) && ChunkOk(h, a);
  }

  lemma AttachOrder(h: Heap, a: int, i: int, k: int, j: int, l: int, l': int)
    requires Shape(h) && CanFree(h, a) && FitsInOrder(h, i, k, h.chunks[a].size)
    ensures OrderOk(Attach(h, a, i, k), j, l, l')
  {
    var l0 := if j == i && l > k then l - 1 else l;
    var l1 := if j == i && l' > k then l' - 1 else l';
    assert OrderOk(h, j, l0, l1);
    Listed(h, j, l0);
    Listed(h, j, l1);
  }

  lemma Listed(h: Heap, i: int, k: int)
    requires Shape(h)
    ensures 0 <= i < |h.bins| && 0 <= k < |h.bins[i]| ==>
              && h.bins[i][k] in h.chunks && h.chunks[h.bins[i][k]].bin == i
              && (i >= 2 ==> FreedAt(h, h.bins[i][k]) < h.clock)
  {
    assert ItemOk(h, i, k);
  }

  /** Let the last remainder grow over the in-use chunk after it. */
  function Absorb(h: Heap, a: int): Heap
    requires a in h.chunks && Next(h, a) in h.chunks && Next(h, Next(h, a)) in h.chunks
  {
    var n := Next(h, a);
    var n' := Next(h, n);
    h.(chunks := (h.chunks - {n})[a := h.chunks[a].(size := h.chunks[a].size + h.chunks[n].size)]
                                 [n' := h.chunks[n'].(prevInUse := false)])
  }

  ghost predicate CanAbsorb(h: Heap, a: int) {
    a in h.chunks && h.chunks[a].bin == 1 && InUse(h, Next(h, a)) && InUse(h, Next(h, Next(h, a)))
  }

  lemma AbsorbKeepsShape(h: Heap, a: int)
    requires Shape(h) && CanAbsorb(h, a)
    ensures Shape(Absorb(h, a))
  {
    var g, n := Absorb(h, a), Next(h, a);
    assert ChunkOk(h, a) && ChunkOk(h, n) && PairOk(h, a, n) && ChunkOk(h, h.base) && FreeOk(h, a);
    assert PairOk(h, n, h.base);
    forall x ensures AlignOk(g, x) {
      assert AlignOk(h, x) && AlignOk(h, a) && AlignOk(h, n);
    }
    forall x ensures ChunkOk(g, x) {
      assert ChunkOk(h, x);
      FollowsOne(h, a, x);
      FollowsOne(h, n, x);
    }
    forall x ensures FreeOk(g, x) {
      assert FreeOk(h, x) && ChunkOk(h, x);
      FollowsOne(h, a, x);
      FollowsOne(h, n, x);
    }
    forall x, y ensures PairOk(g, x, y) {
      AbsorbPair(h, a, x, y);
    }
    forall i, k ensures ItemOk(g, i, k) {
      assert ItemOk(h, i, k);
    }
    forall i, k, l ensures OrderOk(g, i, k, l) {
      assert OrderOk(h, i, k, l) && ItemOk(h, i, k) && ItemOk(h, i, l);
    }
  }

  /** Only one chunk is followed by a given chunk. */
  lemma FollowsOne(h: Heap, a: int, x: int)
    requires Shape(h) && a in h.chunks
    ensures x in h.chunks && x != a ==> Next(h, x) != Next(h, a)
    ensures Next(h, a) > a
  {
    assert PairOk(h, x, a) && PairOk(h, a, x) && ChunkOk(h, x) && ChunkOk(h, a);
  }

  lemma AbsorbPair(h: Heap, a: int, x: int, y: int)
    requires Shape(h) && CanAbsorb(h, a)
    ensures PairOk(Absorb(h, a), x, y)
  {
    var n := Next(h, a);
    assert PairOk(h, x, y) && PairOk(h, n, y) && PairOk(h, y, n) && PairOk(h, x, n);
    assert ChunkOk(h, a) && ChunkOk(h, y) && ChunkOk(h, n);
    assert PairOk(h, a, y);
    FollowsOne(h, n, x);
    FollowsOne(h, a, x);
  }

  // ----- finding chunks -----

  /** Where the bins list a free chunk. */
  lemma Where(h: Heap, a: int) returns (i: int, k: int)
    requires Shape(h) && a in h.chunks && h.chunks[a].bin != 0
    ensures 1 <= i < NAV && 0 <= k < |h.bins[i]| && h.bins[i][k] == a && i == h.chunks[a].bin
    ensures i == 1 ==> k == 0
  {
    assert FreeOk(h, a);
    i := h.chunks[a].bin;
    k :| 0 <= k < |h.bins[i]| && h.bins[i][k] == a;
  }

  /** Every chunk but the first has a chunk right before it: walk there from x. */
  lemma WalkTo(h: Heap, x: int, a: int) returns (p: int)
    requires Shape(h) && x in h.chunks && a in h.chunks && x < a
    ensures p in h.chunks && p < a && Next(h, p) == a
    decreases a - x
  {
    assert PairOk(h, x, a) && ChunkOk(h, x) && ChunkOk(h, a);
    if Next(h, x) == a {
      p := x;
    } else {
      p := WalkTo(h, Next(h, x), a);
    }
  }

  /** A clear PREV_INUSE bit means that a free chunk comes right before. */
  lemma FreeBefore(h: Heap, a: int) returns (p: int)
    requires Shape(h) && a in h.chunks && !h.chunks[a].prevInUse
    ensures p in h.chunks && p < a && Next(h, p) == a && h.chunks[p].bin != 0
  {
    assert ChunkOk(h, a);
    p := WalkTo(h, h.base, a);
    assert PairOk(h, p, a);
  }

  /** The chunk that holds address x, found by walking from a chunk at or below it. */
  lemma Holder(h: Heap, a: int, x: int) returns (p: int)
    requires Shape(h) && a in h.chunks && a <= x && h.top in h.chunks && x < Next(h, h.top)
    ensures p in h.chunks && p <= x < Next(h, p)
    decreases x - a
  {
    assert ChunkOk(h, a) && PairOk(h, a, h.top);
    if x < Next(h, a) {
      p := a;
    } else {
      p := Holder(h, Next(h, a), x);
    }
  }

  /** The chunks tile the arena, from the first of them to the end of the top: each address in
      it lies in exactly one chunk, and no address outside it lies in any. */
  lemma ChunksTile(h: Heap, x: int)
    requires Shape(h) && h.chunks != map[]
    ensures h.base <= x < Next(h, h.top) <==> exists a :: a in h.chunks && a <= x < Next(h, a)
    ensures forall a, b :: a in h.chunks && b in h.chunks && a <= x < Next(h, a) && b <= x < Next(h, b) ==> a == b
  {
    if h.base <= x < Next(h, h.top) {
      var p := Holder(h, h.base, x);
    }
    forall a | a in h.chunks && a <= x < Next(h, a) ensures h.base <= x < Next(h, h.top) {
      assert ChunkOk(h, a) && PairOk(h, a, h.top) && ChunkOk(h, h.top);
    }
    forall a, b | a in h.chunks && b in h.chunks && a <= x < Next(h, a) && b <= x < Next(h, b) ensures a == b {
      assert PairOk(h, a, b) && PairOk(h, b, a);
    }
  }

  /** No two free chunks touch, and none touches the top. */
  lemma FreeChunksApart(h: Heap, a: int, b: int)
    requires Shape(h) && a in h.chunks && b in h.chunks && h.chunks[a].bin != 0 && Next(h, a) == b
    ensures h.chunks[b].bin == 0 && b != h.top
  {
    assert FreeOk(h, a) && FreeOk(h, b) && PairOk(h, a, b) && ChunkOk(h, a);
  }

  /** Entry k of bin i is the chunk at a. */
  ghost predicate Lists(h: Heap, i: int, k: int, a: int) {
    0 <= i < |h.bins| && 0 <= k < |h.bins[i]| && h.bins[i][k] == a
  }

  /** Every chunk below the top is followed by one whose PREV_INUSE bit says whether it is in use,
      and is listed exactly when it is free: once, in the bin for its size or as the last remainder. */
  lemma FreeListedOnce(h: Heap, a: int)
    requires Shape(h) && a in h.chunks && a != h.top
    ensures Next(h, a) in h.chunks && (h.chunks[Next(h, a)].prevInUse <==> a in Blocks(h)) && h.chunks[a].size > 0
    ensures a !in Blocks(h) <==> exists i, k :: Lists(h, i, k, a)
    ensures forall i, k :: Lists(h, i, k, a) ==> i == 1 || i == BinIndex(h.chunks[a].size)
    ensures forall i, k, j, l :: Lists(h, i, k, a) && Lists(h, j, l, a) ==> i == j && k == l
  {
    assert ChunkOk(h, a) && PairOk(h, a, Next(h, a));
    if h.chunks[a].bin != 0 {
      var i, k := Where(h, a);
      assert Lists(h, i, k, a);
    }
    forall i, k | Lists(h, i, k, a)
      ensures h.chunks[a].bin == i && i != 0 && (i == 1 || i == BinIndex(h.chunks[a].size))
    {
      assert ItemOk(h, i, k);
    }
    forall i, k, j, l | Lists(h, i, k, a) && Lists(h, j, l, a) ensures i == j && k == l {
      assert ItemOk(h, i, k) && ItemOk(h, j, l) && OrderOk(h, i, k, l) && OrderOk(h, i, l, k);
    }
  }

  // ----- the blocks in use -----

  /** The blocks in use, with their chunk sizes. */
  function Blocks(h: Heap): map<int, int> {
    map a | a in h.chunks && a != h.top && h.chunks[a].bin == 0 :: h.chunks[a].size
  }

  lemma DetachBlocks(h: Heap, i: int, k: int)
    requires Shape(h) && 1 <= i < NAV && 0 <= k < |h.bins[i]|
    ensures h.bins[i][k] in h.chunks && Next(h, h.bins[i][k]) in h.chunks && h.bins[i][k] !in Blocks(h)
    ensures Blocks(Detach(h, i, k)) == Blocks(h)[h.bins[i][k] := h.chunks[h.bins[i][k]].size]
  {
    Holds(h, i, k);
  }

  lemma MergeBlocks(h: Heap, a: int)
    requires Shape(h) && InUse(h, a) && InUse(h, Next(h, a))
    ensures Blocks(Merge(h, a)) == (Blocks(h) - {Next(h, a)})[a := h.chunks[a].size + h.chunks[Next(h, a)].size]
  {
  }

  lemma MergeTopBlocks(h: Heap, a: int)
    requires Shape(h) && InUse(h, a) && Next(h, a) == h.top && h.top in h.chunks
    ensures Blocks(MergeTop(h, a)) == Blocks(h) - {a}
  {
  }

  lemma AttachBlocks(h: Heap, a: int, i: int, k: int)
    requires Shape(h) && CanFree(h, a) && Fits(h, i, k, h.chunks[a].size)
    ensures Blocks(Attach(h, a, i, k)) == Blocks(h) - {a}
  {
    assert ChunkOk(h, a);
  }

  lemma AbsorbBlocks(h: Heap, a: int)
    requires Shape(h) && CanAbsorb(h, a)
    ensures Blocks(Absorb(h, a)) == Blocks(h) - {Next(h, a)}
  {
    assert ChunkOk(h, a) && ChunkOk(h, Next(h, a));
  }

  lemma SplitBlocks(h: Heap, a: int, nb: int)
    requires Shape(h) && InUse(h, a) && CanSplit(h, a, nb)
    ensures Blocks(Split(h, a, nb)) == Blocks(h)[a := nb][a + nb := h.chunks[a].size - nb]
  {
    SplitKeepsShape(h, a, nb);
  }

  lemma SplitTopBlocks(h: Heap, nb: int)
    requires Shape(h) && CanSplit(h, h.top, nb)
    ensures h.top !in Blocks(h) && Blocks(SplitTop(h, nb)) == Blocks(h)[h.top := nb]
  {
    SplitTopKeepsShape(h, nb);
  }

  // ----- moving the last remainder -----

  /** The in-use chunk c takes over the last remainder after it and becomes the last remainder. */
  function Reinsert(h: Heap, c: int): Heap
    requires c in h.chunks && Next(h, c) in h.chunks && |h.bins| == NAV
  {
    var n := Next(h, c);
    h.(chunks := (h.chunks - {n})[c := Chunk(h.chunks[c].size + h.chunks[n].size, true, 1)],
       bins := h.bins[1 := [c]])
  }

  lemma ReinsertKeepsShape(h: Heap, c: int)
    requires Shape(h) && InUse(h, c) && h.chunks[c].prevInUse
    requires Next(h, c) in h.chunks && h.chunks[Next(h, c)].bin == 1
    ensures var g := Reinsert(h, c); Shape(g) && Next(g, c) in h.chunks && Next(g, c) in g.chunks
    ensures Blocks(Reinsert(h, c)) == Blocks(h) - {c}
  {
    var n := Next(h, c);
    var i, k := Where(h, n);
    assert h.bins[1] == [n];
    Holds(h, i, k);
    assert ChunkOk(h, c) && ChunkOk(h, n);
    DetachKeepsShape(h, i, k);
    DetachBlocks(h, i, k);
    var h1 := Detach(h, i, k);
    assert h1.bins[1] == [];
    JoinLast(h1, c);
    var g := Reinsert(h, c);
    var g1 := Attach(Merge(h1, c), c, 1, 0);
    assert g.bins == g1.bins;
    assert g.chunks == g1.chunks;
    assert g == g1;
    assert Blocks(h1) - {n} - {c} == Blocks(h) - {c};
  }

  lemma JoinLast(h: Heap, c: int)
    requires Shape(h) && InUse(h, c) && h.chunks[c].prevInUse && InUse(h, Next(h, c))
    requires InUse(h, Next(h, Next(h, c))) && h.bins[1] == [] && c < Next(h, c) < Next(h, Next(h, c))
    ensures Shape(Attach(Merge(h, c), c, 1, 0))
    ensures Blocks(Attach(Merge(h, c), c, 1, 0)) == Blocks(h) - {Next(h, c)} - {c}
    ensures Attach(Merge(h, c), c, 1, 0).bins == h.bins[1 := [c]]
  {
    assert ChunkOk(h, c) && ChunkOk(h, Next(h, c));
    MergeKeepsShape(h, c);
    MergeBlocks(h, c);
    var g := Merge(h, c);
    AttachKeepsShape(g, c, 1, 0);
    AttachBlocks(g, c, 1, 0);
    assert Blocks(g) - {c} == Blocks(h) - {Next(h, c)} - {c};
    assert InsertAt(g.bins[1], 0, c) == [c];
  }

  // ----- the first top -----

  /** An empty heap gets its first chunk, the top. */
  function FirstTop(h: Heap, a: int, size: int): Heap {
    h.(chunks := map[a := Chunk(size, true, 0)], top := a, base := a)
  }

  lemma FirstTopKeepsShape(h: Heap, a: int, size: int)
    requires Shape(h) && h.chunks == map[]
    requires a % 8 == 0 && size % 8 == 0 && size >= MINSIZE && (a + size <= h.av || h.av + AVSIZE <= a)
    ensures Shape(FirstTop(h, a, size)) && Shape(h.(top := a, base := a))
    ensures Blocks(FirstTop(h, a, size)) == map[] && Blocks(h) == map[]
  {
    var g, g' := FirstTop(h, a, size), h.(top := a, base := a);
    forall i, k ensures ItemOk(g, i, k) && ItemOk(g', i, k) {
      assert ItemOk(h, i, k);
    }
    forall i, k, l ensures OrderOk(g, i, k, l) && OrderOk(g', i, k, l) {
      assert OrderOk(h, i, k, l);
    }
    forall x
      ensures ChunkOk(g, x) && AlignOk(g, x) && FreeOk(g, x)
      ensures ChunkOk(g', x) && AlignOk(g', x) && FreeOk(g', x)
    {
    }
    forall x, y ensures PairOk(g, x, y) && PairOk(g', x, y) {
    }
  }

  // ----- carving a block from a free chunk -----

  /** The free chunk at position k of bin i gives its first nb bytes; the rest is the last remainder. */
  function Carve(h: Heap, i: int, k: int, nb: int): Heap
    requires |h.bins| == NAV && 0 <= i < NAV && 0 <= k < |h.bins[i]| && h.bins[i][k] in h.chunks
  {
    var a := h.bins[i][k];
    h.(chunks := h.chunks[a := Chunk(nb, true, 0)][a + nb := Chunk(h.chunks[a].size - nb, true, 1)],
       bins := h.bins[i := RemoveAt(h.bins[i], k)][1 := [a + nb]])
  }

  ghost predicate CanCarve(h: Heap, i: int, k: int, nb: int) {
    && |h.bins| == NAV && 1 <= i < NAV && 0 <= k < |h.bins[i]| && h.bins[i][k] in h.chunks
    && (i == 1 || h.bins[1] == [])
    && nb % 8 == 0 && MINSIZE <= nb <= h.chunks[h.bins[i][k]].size - MINSIZE
  }

  lemma CarveKeepsShape(h: Heap, i: int, k: int, nb: int)
    requires Shape(h) && CanCarve(h, i, k, nb)
    ensures Shape(Carve(h, i, k, nb)) && InUse(Carve(h, i, k, nb), h.bins[i][k])
    ensures h.bins[i][k] !in Blocks(h) && Blocks(Carve(h, i, k, nb)) == Blocks(h)[h.bins[i][k] := nb]
  {
    var a, n := h.bins[i][k], Next(h, h.bins[i][k]);
    Holds(h, i, k);
    DetachKeepsShape(h, i, k);
    DetachBlocks(h, i, k);
    var h1 := Detach(h, i, k);
    assert h1.bins[1] == [];
    SplitKeepsShape(h1, a, nb);
    SplitBlocks(h1, a, nb);
    var h2 := Split(h1, a, nb);
    assert Fits(h2, 1, 0, h2.chunks[a + nb].size);
    AttachKeepsShape(h2, a + nb, 1, 0);
    AttachBlocks(h2, a + nb, 1, 0);
    assert Blocks(h2) - {a + nb} == Blocks(h)[a := nb];
    CarveIs(h, i, k, nb);
  }

  lemma CarveIs(h: Heap, i: int, k: int, nb: int)
    requires Shape(h) && CanCarve(h, i, k, nb) && Next(h, h.bins[i][k]) in h.chunks
    requires InUse(h, Next(h, h.bins[i][k])) && !h.chunks[Next(h, h.bins[i][k])].prevInUse
    requires h.chunks[h.bins[i][k]].prevInUse
    ensures var a, h2 := h.bins[i][k], Split(Detach(h, i, k), h.bins[i][k], nb);
            && Next(h2, a + nb) in h2.chunks && a + nb in h2.chunks && |h2.bins[1]| == 0
            && Carve(h, i, k, nb) == Attach(h2, a + nb, 1, 0)
  {
    var a := h.bins[i][k];
    var g := Carve(h, i, k, nb);
    var h2 := Split(Detach(h, i, k), a, nb);
    assert i == 1 ==> RemoveAt(h.bins[1], k) == [];
    var g' := Attach(h2, a + nb, 1, 0);
    assert InsertAt(h2.bins[1], 0, a + nb) == [a + nb];
    assert g.chunks == g'.chunks;
    assert g.bins == g'.bins;
  }

  // ----- growing into the top -----

  /** The in-use chunk before the top becomes nb bytes; the top gets the rest of both. */
  function GrowIntoTop(h: Heap, a: int, nb: int): Heap
    requires a in h.chunks && h.top in h.chunks
  {
    h.(chunks := (h.chunks - {h.top})[a := h.chunks[a].(size := nb)]
                 [a + nb := Chunk(h.chunks[a].size + h.chunks[h.top].size - nb, true, 0)],
       top := a + nb)
  }

  ghost predicate CanGrow(h: Heap, a: int, nb: int) {
    && InUse(h, a) && h.top in h.chunks && Next(h, a) == h.top && nb % 8 == 0
    && MINSIZE <= nb <= h.chunks[a].size + h.chunks[h.top].size - MINSIZE
  }

  lemma GrowIntoTopKeepsShape(h: Heap, a: int, nb: int)
    requires Shape(h) && CanGrow(h, a, nb)
    ensures Shape(GrowIntoTop(h, a, nb)) && InUse(GrowIntoTop(h, a, nb), a) && (a + nb !in h.chunks || a + nb == h.top)
    ensures Blocks(GrowIntoTop(h, a, nb)) == Blocks(h)[a := nb]
  {
    var g, t := GrowIntoTop(h, a, nb), h.top;
    GrowInTop(h, a, nb);
    forall x ensures AlignOk(g, x) {
      assert AlignOk(h, x) && AlignOk(h, a) && AlignOk(h, t);
    }
    forall x ensures ChunkOk(g, x) {
      GrowChunk(h, a, nb, x);
    }
    forall x ensures FreeOk(g, x) && SameFree(h, g, x) {
      assert FreeOk(h, x) && PairOk(h, x, a) && ChunkOk(h, x) && PairOk(h, a, x);
    }
    forall x, y ensures PairOk(g, x, y) {
      GrowPair(h, a, nb, x, y);
    }
    SameFreeKeepsBins(h, g);
  }

  lemma GrowInTop(h: Heap, a: int, nb: int)
    requires Shape(h) && CanGrow(h, a, nb)
    ensures (a + nb !in h.chunks || a + nb == h.top) && h.base <= a && a != h.top && h.top != h.base
  {
    assert ChunkOk(h, a) && ChunkOk(h, h.top) && ChunkOk(h, a + nb) && PairOk(h, a, a + nb);
  }

  lemma GrowChunk(h: Heap, a: int, nb: int, x: int)
    requires Shape(h) && CanGrow(h, a, nb) && (a + nb !in h.chunks || a + nb == h.top)
    ensures ChunkOk(GrowIntoTop(h, a, nb), x)
  {
    assert ChunkOk(h, x) && PairOk(h, a, x) && ChunkOk(h, a);
    if x == a + nb {
      assert ChunkOk(h, h.top);
    } else if x != a {
      MergeNext(h, a, x);
    }
  }

  lemma GrowPair(h: Heap, a: int, nb: int, x: int, y: int)
    requires Shape(h) && CanGrow(h, a, nb)
    ensures PairOk(GrowIntoTop(h, a, nb), x, y)
  {
    assert PairOk(h, x, y) && PairOk(h, x, a) && PairOk(h, a, y) && PairOk(h, a, x);
    assert ChunkOk(h, a) && ChunkOk(h, x) && ChunkOk(h, y) && ChunkOk(h, h.top);
  }

  /** The in-use chunk c takes over the free chunk after it. */
  lemma TakeNext(h: Heap, c: int, i: int, k: int)
    requires Shape(h) && 1 <= i < NAV && 0 <= k < |h.bins[i]| && InUse(h, c) && Next(h, c) == h.bins[i][k]
    ensures h.bins[i][k] in h.chunks && Next(h, h.bins[i][k]) in h.chunks
    ensures var n := h.bins[i][k];
            var d := Detach(h, i, k);
            && Shape(d) && InUse(d, c) && InUse(d, n) && Next(d, c) == n
            && var g := Merge(d, c);
            && InUse(g, c) && Next(g, c) == Next(h, n) && InUse(g, Next(g, c)) && SameEnds(h, g)
            && g.chunks[c] == h.chunks[c].(size := h.chunks[c].size + h.chunks[n].size)
            && g.chunks == (h.chunks - {n})[c := g.chunks[c]][Next(g, c) := g.chunks[Next(g, c)]]
            && g.chunks[Next(g, c)] == h.chunks[Next(g, c)].(prevInUse := true) && !h.chunks[Next(g, c)].prevInUse
            && Blocks(g) - {c} == Blocks(h) - {c}
  {
    var n := h.bins[i][k];
    Holds(h, i, k);
    assert ChunkOk(h, n) && ChunkOk(h, c);
    DetachKeepsShape(h, i, k);
    DetachBlocks(h, i, k);
    var d := Detach(h, i, k);
    MergeKeepsShape(d, c);
    MergeBlocks(d, c);
    assert Blocks(Merge(d, c)) - {c} == Blocks(h) - {c};
  }
}
