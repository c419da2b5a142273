/** Which chunk a search of the bins is to find. */
module BestFit {
  import opened Sizes
  import opened HeapModel

  /** Nothing in bin i is as large as nb. */
  ghost predicate NoneIn(h: Heap, nb: int, i: int) {
    0 <= i < |h.bins| ==> forall k :: 0 <= k < |h.bins[i]| ==>
      h.bins[i][k] in h.chunks && h.chunks[h.bins[i][k]].size < nb
  }

  /** No regular bin holds anything as large as nb. */
  ghost predicate NoneFits(h: Heap, nb: int) {
    forall i {:trigger NoneIn(h, nb, i)} :: 2 <= i ==> NoneIn(h, nb, i)
  }

  /** Listed chunk (j, l) fits nb no better than p: it is larger, or of the same size and freed no earlier. */
  ghost predicate NoBetter(h: Heap, nb: int, p: int, j: int, l: int) {
    2 <= j < |h.bins| && 0 <= l < |h.bins[j]| && p in h.chunks && h.bins[j][l] in h.chunks
      && h.chunks[h.bins[j][l]].size >= nb ==>
      && h.chunks[h.bins[j][l]].size >= h.chunks[p].size
      && (h.chunks[h.bins[j][l]].size == h.chunks[p].size ==> FreedAt(h, p) <= FreedAt(h, h.bins[j][l]))
  }

  /** p is the smallest chunk of the regular bins that is at least nb, the oldest among equals. */
  ghost predicate Best(h: Heap, nb: int, p: int) {
    && p in h.chunks && h.chunks[p].bin >= 2 && h.chunks[p].size >= nb
    && forall j, l {:trigger NoBetter(h, nb, p, j, l)} :: NoBetter(h, nb, p, j, l)
  }

  /** The last remainder, if any, is smaller than nb. */
  ghost predicate RemainderBelow(h: Heap, nb: int) {
    |h.bins| == NAV && (h.bins[1] != [] ==> h.bins[1][0] in h.chunks && h.chunks[h.bins[1][0]].size < nb)
  }

  /** A chunk that is used up, in the bin for nb; a small request also looks in the next bin. */
  ghost predicate Exact(h: Heap, nb: int, p: int) {
    && p in h.chunks && h.chunks[p].bin >= 2 && 0 <= nb <= h.chunks[p].size < nb + MINSIZE
    && (h.chunks[p].bin == BinIndex(nb) || (nb < 504 && h.chunks[p].bin == BinIndex(nb) + 1))
  }

  ghost predicate NoExact(h: Heap, nb: int) {
    forall p {:trigger Exact(h, nb, p)} :: !Exact(h, nb, p)
  }

  /** The top can give nb bytes and remain a chunk. */
  ghost predicate TopFits(h: Heap, nb: int) {
    h.top in h.chunks && h.chunks[h.top].size >= nb + MINSIZE
  }

  /** Nothing there is can give nb bytes. */
  ghost predicate MustGrow(h: Heap, nb: int) {
    NoneFits(h, nb) && RemainderBelow(h, nb) && !TopFits(h, nb)
  }

  /** Where malloc puts nb bytes: in an exact fit, else in the last remainder, else in the best fit, else in the top. */
  ghost predicate Chosen(h: Heap, nb: int, p: int) {
    if p in h.chunks && h.chunks[p].bin >= 2 then Best(h, nb, p) && (Exact(h, nb, p) || RemainderBelow(h, nb))
    else if p in h.chunks && h.chunks[p].bin == 1 then NoExact(h, nb) && h.chunks[p].size >= nb
    else NoneFits(h, nb) && RemainderBelow(h, nb) && (h.chunks != map[] ==> p == h.top)
  }

  /** What is left of a listed chunk, if it is enough for a chunk. */
  ghost function RestOf(h: Heap, nb: int, p: int): seq<int>
    requires p in h.chunks
  {
    if h.chunks[p].size >= nb + MINSIZE then [p + nb] else []
  }

  /** The last remainder once malloc has chosen p: what is left of p; an exact fit leaves the one there was. */
  ghost function RemainderAfter(h: Heap, nb: int, p: int): seq<int> {
    if p !in h.chunks || h.chunks[p].bin == 0 || |h.bins| != NAV then []
    else if Exact(h, nb, p) then h.bins[1]
    else RestOf(h, nb, p)
  }

  /** All chunks have the sizes they had. */
  ghost predicate SameSize(h: Heap, g: Heap, a: int) {
    a in h.chunks ==> a in g.chunks && g.chunks[a].size == h.chunks[a].size
  }

  ghost predicate SameSizes(h: Heap, g: Heap) {
    forall a {:trigger SameSize(h, g, a)} :: SameSize(h, g, a)
  }

  /** What malloc takes from a bin shows that there was no need to grow. */
  lemma FreeFits(h: Heap, nb: int, p: int)
    requires Shape(h) && p in h.chunks && h.chunks[p].bin != 0 && Chosen(h, nb, p)
    ensures !MustGrow(h, nb)
  {
    assert FreeOk(h, p);
    var i := h.chunks[p].bin;
    var l :| 0 <= l < |h.bins[i]| && h.bins[i][l] == p;
    assert i >= 2 ==> !NoneIn(h, nb, i);
  }

  /** The first chunk of a bin that is large enough is too large for an exact fit, and so are those before it. */
  lemma NoExactIn(h: Heap, nb: int, k: int)
    requires Shape(h) && nb >= 504 && 2 <= BinIndex(nb) < NAV && -1 <= k < |h.bins[BinIndex(nb)]|
    requires var bin := h.bins[BinIndex(nb)];
             && (forall l :: k < l < |bin| ==> bin[l] in h.chunks && h.chunks[bin[l]].size < nb)
             && (k >= 0 ==> bin[k] in h.chunks && h.chunks[bin[k]].size >= nb + MINSIZE)
    ensures NoExact(h, nb)
  {
    var i := BinIndex(nb);
    forall p ensures !Exact(h, nb, p) {
      if p in h.chunks && h.chunks[p].bin == i && h.chunks[p].size >= nb {
        assert FreeOk(h, p);
        var l :| 0 <= l < |h.bins[i]| && h.bins[i][l] == p;
        assert OrderOk(h, i, l, k);
        assert h.chunks[p].size >= nb + MINSIZE;
      }
    }
  }

  lemma NoExactSmall(h: Heap, nb: int)
    requires Shape(h) && nb >= 0 && 2 <= BinIndex(nb) && BinIndex(nb) + 1 < NAV
    requires h.bins[BinIndex(nb)] == [] && h.bins[BinIndex(nb) + 1] == []
    ensures NoExact(h, nb)
  {
    forall p ensures !Exact(h, nb, p) {
      assert FreeOk(h, p);
    }
  }

  /** The first fit from the back of the first bin that has one is the best fit. */
  lemma FirstIsBest(h: Heap, nb: int, i: int, k: int)
    requires Shape(h) && 2 <= i < NAV && 0 <= k < |h.bins[i]| && h.bins[i][k] in h.chunks
    requires h.chunks[h.bins[i][k]].size >= nb >= 0
    requires forall l :: k < l < |h.bins[i]| ==> h.bins[i][l] in h.chunks && h.chunks[h.bins[i][l]].size < nb
    requires forall j {:trigger NoneIn(h, nb, j)} :: 2 <= j < i ==> NoneIn(h, nb, j)
    ensures Best(h, nb, h.bins[i][k])
  {
    var p := h.bins[i][k];
    Holds(h, i, k);
    assert ItemOk(h, i, k);
    forall j, l ensures NoBetter(h, nb, p, j, l) {
      if 2 <= j < |h.bins| && 0 <= l < |h.bins[j]| && h.bins[j][l] in h.chunks && h.chunks[h.bins[j][l]].size >= nb {
        assert NoneIn(h, nb, j) || j >= i;
        assert ItemOk(h, j, l);
        if j > i && h.chunks[h.bins[j][l]].size <= h.chunks[p].size {
          BinIndexMonotone(h.chunks[h.bins[j][l]].size, h.chunks[p].size);
        }
        assert OrderOk(h, i, l, k);
      }
    }
  }

  /** Bins below the one for nb hold only smaller chunks. */
  lemma LowerBins(h: Heap, nb: int, i: int)
    requires Shape(h) && 0 <= nb && 2 <= i < BinIndex(nb) && i < NAV
    ensures NoneIn(h, nb, i)
  {
    forall k | 0 <= k < |h.bins[i]| ensures h.bins[i][k] in h.chunks && h.chunks[h.bins[i][k]].size < nb {
      Holds(h, i, k);
      assert ItemOk(h, i, k);
      if h.chunks[h.bins[i][k]].size >= nb {
        BinIndexMonotone(nb, h.chunks[h.bins[i][k]].size);
      }
    }
  }

  /** Bins above the one for nb hold only chunks that fit. */
  lemma HigherBins(h: Heap, nb: int, i: int)
    requires Shape(h) && 0 <= nb && BinIndex(nb) < i < NAV && 2 <= i
    requires NoneIn(h, nb, i)
    ensures h.bins[i] == []
  {
    if h.bins[i] != [] {
      Holds(h, i, 0);
      assert ItemOk(h, i, 0);
      BinIndexMonotone(h.chunks[h.bins[i][0]].size, nb);
    }
  }

  /** Freeing a chunk smaller than nb into a bin does not change which chunk is best. */
  lemma BestBefore(h: Heap, a: int, i: int, k: int, nb: int, p: int)
    requires Shape(h) && CanFree(h, a) && FitsInOrder(h, i, k, h.chunks[a].size) && h.chunks[a].size < nb
    requires Best(Attach(h, a, i, k), nb, p)
    ensures Best(h, nb, p)
  {
    var g := Attach(h, a, i, k);
    assert ChunkOk(h, a);
    forall j, l ensures NoBetter(h, nb, p, j, l) {
      assert NoBetter(g, nb, p, j, if j == i && l >= k then l + 1 else l);
      Listed(h, j, l);
    }
  }

  lemma NoneBefore(h: Heap, a: int, i: int, k: int, nb: int, j: int)
    requires Shape(h) && CanFree(h, a) && FitsInOrder(h, i, k, h.chunks[a].size) && h.chunks[a].size < nb && 2 <= j
    ensures NoneIn(Attach(h, a, i, k), nb, j) <==> NoneIn(h, nb, j)
  {
    var g := Attach(h, a, i, k);
    assert ChunkOk(h, a);
    if NoneIn(g, nb, j) {
      forall l | 0 <= j < |h.bins| && 0 <= l < |h.bins[j]|
        ensures h.bins[j][l] in h.chunks && h.chunks[h.bins[j][l]].size < nb
      {
        Listed(h, j, l);
        assert g.bins[j][if j == i && l >= k then l + 1 else l] == h.bins[j][l];
      }
    }
  }

  /** Taking the last remainder does not change which chunk is best. */
  lemma BestBeforeDetach(h: Heap, nb: int, p: int)
    requires Shape(h) && |h.bins[1]| == 1 && h.bins[1][0] in h.chunks && Next(h, h.bins[1][0]) in h.chunks
    requires Best(Detach(h, 1, 0), nb, p)
    ensures Best(h, nb, p)
  {
    var g := Detach(h, 1, 0);
    Holds(h, 1, 0);
    forall j, l ensures NoBetter(h, nb, p, j, l) {
      assert NoBetter(g, nb, p, j, l);
      Listed(h, j, l);
    }
  }

  lemma NoneBeforeDetach(h: Heap, nb: int, j: int)
    requires Shape(h) && |h.bins[1]| == 1 && h.bins[1][0] in h.chunks && Next(h, h.bins[1][0]) in h.chunks && 2 <= j
    ensures NoneIn(Detach(h, 1, 0), nb, j) <==> NoneIn(h, nb, j)
  {
    var g := Detach(h, 1, 0);
    Holds(h, 1, 0);
    if NoneIn(g, nb, j) {
      forall l | 0 <= j < |h.bins| && 0 <= l < |h.bins[j]|
        ensures h.bins[j][l] in h.chunks && h.chunks[h.bins[j][l]].size < nb
      {
        Listed(h, j, l);
        assert g.bins[j][l] == h.bins[j][l];
      }
    }
  }

  /** A search of g finds what a search of h finds. */
  ghost predicate SameSearch(h: Heap, g: Heap, nb: int) {
    && (forall p {:trigger Best(g, nb, p)} :: Best(g, nb, p) ==> Best(h, nb, p))
    && (forall j {:trigger NoneIn(g, nb, j)} {:trigger NoneIn(h, nb, j)} ::
          2 <= j ==> (NoneIn(g, nb, j) <==> NoneIn(h, nb, j)))
  }

  /** The search for nb may start at bin idx: nothing below fits, and if idx still is the bin
      for nb itself, something there does. */
  ghost predicate SearchStart(h: Heap, idx: int, nb: int) {
    && 0 <= nb && BinIndex(nb) <= idx
    && (forall j {:trigger NoneIn(h, nb, j)} :: 2 <= j < idx ==> NoneIn(h, nb, j))
    && (idx == BinIndex(nb) ==> !NoneIn(h, nb, idx))
  }

  /** Bins searched in vain are empty. */
  lemma SearchedEmpty(h: Heap, start: int, idx: int, nb: int)
    requires Shape(h) && 2 <= start < idx <= NAV && SearchStart(h, start, nb)
    requires forall j {:trigger NoneIn(h, nb, j)} :: 2 <= j < idx ==> NoneIn(h, nb, j)
    ensures SearchStart(h, idx, nb)
    ensures forall i :: start <= i < idx ==> h.bins[i] == []
  {
    assert NoneIn(h, nb, start);
    forall i | start <= i < idx ensures h.bins[i] == [] {
      assert NoneIn(h, nb, i);
      HigherBins(h, nb, i);
    }
  }

  /** Skipping empty bins loses nothing. */
  lemma SkipEmpty(h: Heap, start: int, idx: int, nb: int)
    requires Shape(h) && 2 <= start <= idx && SearchStart(h, start, nb)
    requires forall i :: start <= i < idx && i < NAV ==> h.bins[i] == []
    ensures SearchStart(h, idx, nb)
    ensures idx >= NAV ==> NoneFits(h, nb)
  {
    forall j | 2 <= j < idx ensures NoneIn(h, nb, j) {
      assert j < start ==> NoneIn(h, nb, j);
    }
    if idx > start {
      assert NoneIn(h, nb, start);
    }
    if idx >= NAV {
      forall j | 2 <= j ensures NoneIn(h, nb, j) {
      }
    }
  }

  lemma SearchStartKept(h: Heap, g: Heap, idx: int, nb: int)
    requires SearchStart(h, idx, nb) && SameSearch(h, g, nb) && (idx == BinIndex(nb) ==> idx >= 2)
    ensures SearchStart(g, idx, nb)
  {
    forall j | 2 <= j < idx ensures NoneIn(g, nb, j) {
      assert NoneIn(h, nb, j);
    }
  }

  lemma NoneFitsBefore(h: Heap, g: Heap, nb: int)
    requires NoneFits(g, nb) && SameSearch(h, g, nb)
    ensures NoneFits(h, nb)
  {
    forall j | 2 <= j ensures NoneIn(h, nb, j) {
      assert NoneIn(g, nb, j);
    }
  }
}
