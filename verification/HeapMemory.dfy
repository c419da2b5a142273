/** How the words of memory represent a heap: boundary tags and circular bins. */
module HeapMemory {
  import opened Words
  import opened Sizes
  import opened BinBlocks
  import opened HeapModel

  // ----- chunk fields -----

  /** The head word of a chunk: its size with PREV_INUSE in the low bit. */
  function Word(c: Chunk): int {
    c.size + if c.prevInUse then 1 else 0
  }

  /** The address of a bin header read as a chunk. */
  function BinAt(h: Heap, i: int): int {
    h.av + 8 * i
  }

  /** The node at position k of ring i; the header closes the ring at both ends. */
  function At(h: Heap, i: int, k: int): int
    requires 0 <= i < |h.bins|
  {
    if 0 <= k < |h.bins[i]| then h.bins[i][k] else BinAt(h, i)
  }

  // ----- the representation -----

  ghost predicate HeadOk(m: Mem, h: Heap, a: int) {
    a in h.chunks ==> Ld(m, a + 4) == Word(h.chunks[a])
  }

  /** The foot of a free chunk is the first word of the chunk after it. */
  ghost predicate FootOk(m: Mem, h: Heap, a: int) {
    a in h.chunks && h.chunks[a].bin != 0 ==> Ld(m, Next(h, a)) == h.chunks[a].size
  }

  /** Position k of ring i and its successor point at each other. */
  ghost predicate LinkOk(m: Mem, h: Heap, i: int, k: int) {
    1 <= i < |h.bins| && -1 <= k < |h.bins[i]| ==>
      && Ld(m, At(h, i, k) + 8) == At(h, i, k + 1)
      && Ld(m, At(h, i, k + 1) + 12) == At(h, i, k)
  }

  /** Heads, feet and the cell of `top` are right, except those of the chunks in `stale`. */
  ghost predicate Tags(m: Mem, h: Heap, stale: set<int>) {
    && Ld(m, h.av + 8) == h.top
    && (forall a {:trigger HeadOk(m, h, a)} :: a !in stale ==> HeadOk(m, h, a))
    && (forall a {:trigger FootOk(m, h, a)} :: a !in stale ==> FootOk(m, h, a))
  }

  ghost predicate Links(m: Mem, h: Heap) {
    forall i, k {:trigger LinkOk(m, h, i, k)} :: LinkOk(m, h, i, k)
  }

  /** A regular bin that is not empty is marked in the word `binblocks`. */
  ghost predicate MarkOk(m: Mem, h: Heap, i: int) {
    2 <= i < |h.bins| && h.bins[i] != [] ==> Marked(Ld(m, h.av + 4), i / BINBLOCKWIDTH)
  }

  ghost predicate Marks(m: Mem, h: Heap) {
    && 0 <= Ld(m, h.av + 4) < W32
    && (forall i {:trigger MarkOk(m, h, i)} :: MarkOk(m, h, i))
  }

  /** Memory represents the heap, except for the tags of the chunks in `stale`. */
  ghost predicate Rep(m: Mem, h: Heap, stale: set<int>) {
    Tags(m, h, stale) && Links(m, h) && Marks(m, h)
  }

  // ----- which cells are which -----

  /** A node is the header of a bin or a free chunk; nodes at different positions differ. */
  lemma NodesDiffer(h: Heap, i: int, k: int, j: int, l: int)
    requires Shape(h) && 1 <= i < NAV && 1 <= j < NAV && (i, k) != (j, l)
    requires -1 <= k < |h.bins[i]| && -1 <= l < |h.bins[j]|
    ensures At(h, i, k) != At(h, j, l)
  {
    assert ItemOk(h, i, k) && ItemOk(h, j, l) && OrderOk(h, i, k, l) && OrderOk(h, i, l, k);
    assert ChunkOk(h, At(h, i, k)) && ChunkOk(h, At(h, j, l));
  }

  /** No link cell is a head, a foot, the cell of `top`, or a link of the other kind. */
  lemma LinkCells(h: Heap, i: int, k: int, a: int, j: int, l: int)
    requires Shape(h) && 1 <= i < NAV && 1 <= j < NAV && -1 <= k <= |h.bins[i]| && -1 <= l <= |h.bins[j]|
    ensures At(h, i, k) + 8 != At(h, j, l) + 12
    ensures At(h, i, k) + 8 != h.av + 8 && At(h, i, k) + 12 != h.av + 8
    ensures At(h, i, k) + 8 != h.av + 4 && At(h, i, k) + 12 != h.av + 4
    ensures a in h.chunks ==>
              && a + 4 != At(h, i, k) + 8 && a + 4 != At(h, i, k) + 12
              && a != At(h, i, k) + 8 && a != At(h, i, k) + 12
  {
    var p, q := At(h, i, k), At(h, j, l);
    assert ItemOk(h, i, k) && ItemOk(h, j, l) && ChunkOk(h, p) && ChunkOk(h, q) && ChunkOk(h, a);
    assert AlignOk(h, p) && AlignOk(h, q) && AlignOk(h, a);
    assert PairOk(h, p, a);
  }

  /** The head and the first word of a chunk are not the cell of `top`, nor the head and foot of another. */
  lemma ChunkCells(h: Heap, a: int, b: int)
    requires Shape(h) && a in h.chunks && b in h.chunks
    ensures a + 4 != b && a + 4 != h.av + 8 && a != h.av + 8 && a != h.av && a != h.av + 4
    ensures a != b ==> Next(h, a) != Next(h, b)
    ensures a + 4 != Next(h, b)
  {
    assert ChunkOk(h, a) && ChunkOk(h, b) && PairOk(h, a, b) && PairOk(h, b, a);
    assert AlignOk(h, a) && AlignOk(h, b);
  }

  lemma MarksKept(m: Mem, h: Heap, m': Mem, g: Heap)
    requires Marks(m, h) && g.av == h.av && Ld(m', h.av + 4) == Ld(m, h.av + 4) && |g.bins| == |h.bins|
    requires forall i :: 2 <= i < |h.bins| && g.bins[i] != [] ==> h.bins[i] != []
    ensures Marks(m', g)
  {
    forall i ensures MarkOk(m', g, i) {
      assert MarkOk(m, h, i);
    }
  }

  // ----- writing heads, feet and the top -----

  /** Tags that turn out right need not be stale. */
  lemma Restale(m: Mem, h: Heap, stale: set<int>, stale': set<int>)
    requires Rep(m, h, stale)
    requires forall a :: a in stale && a !in stale' ==> HeadOk(m, h, a) && FootOk(m, h, a)
    ensures Rep(m, h, stale')
  {
    forall a | a !in stale' ensures HeadOk(m, h, a) && FootOk(m, h, a) {
    }
  }

  /** Writing the head of a chunk disturbs nothing else. */
  lemma WriteHead(m: Mem, h: Heap, stale: set<int>, a: int, v: int)
    requires Shape(h) && Rep(m, h, stale) && a in h.chunks
    ensures Rep(m[a + 4 := v], h, stale + {a})
    ensures FootOk(m, h, a) ==> FootOk(m[a + 4 := v], h, a)
  {
    var m' := m[a + 4 := v];
    ChunkCells(h, a, a);
    MarksKept(m, h, m', h);
    forall b | b !in stale + {a} ensures HeadOk(m', h, b) && FootOk(m', h, b) {
      assert HeadOk(m, h, b) && FootOk(m, h, b);
      if b in h.chunks { ChunkCells(h, a, b); }
    }
    forall i, k ensures LinkOk(m', h, i, k) {
      assert LinkOk(m, h, i, k);
      LinkKept(m, h, i, k, a + 4, v, a);
    }
  }

  /** A write to the head or the first word of a chunk leaves the links alone. */
  lemma LinkKept(m: Mem, h: Heap, i: int, k: int, c: int, v: int, a: int)
    requires Shape(h) && LinkOk(m, h, i, k) && a in h.chunks && (c == a || c == a + 4)
    ensures LinkOk(m[c := v], h, i, k)
  {
    if 1 <= i < NAV && -1 <= k < |h.bins[i]| {
      LinkCells(h, i, k, a, i, k);
      LinkCells(h, i, k + 1, a, i, k);
    }
  }

  /** Writing the foot of a chunk disturbs nothing else. */
  lemma WriteFoot(m: Mem, h: Heap, stale: set<int>, p: int, v: int)
    requires Shape(h) && Rep(m, h, stale) && p in h.chunks && Next(h, p) in h.chunks && p in stale
    ensures Rep(m[Next(h, p) := v], h, stale)
    ensures v == h.chunks[p].size ==> FootOk(m[Next(h, p) := v], h, p)
    ensures HeadOk(m, h, p) ==> HeadOk(m[Next(h, p) := v], h, p)
  {
    var m' := m[Next(h, p) := v];
    ChunkCells(h, Next(h, p), p);
    ChunkCells(h, p, p);
    MarksKept(m, h, m', h);
    forall b | b !in stale ensures HeadOk(m', h, b) && FootOk(m', h, b) {
      assert HeadOk(m, h, b) && FootOk(m, h, b);
      if b in h.chunks { ChunkCells(h, b, Next(h, p)); ChunkCells(h, b, p); }
    }
    forall i, k ensures LinkOk(m', h, i, k) {
      assert LinkOk(m, h, i, k);
      LinkKept(m, h, i, k, Next(h, p), v, Next(h, p));
    }
  }

  /** The heap may change where no bin is concerned; the tags of changed chunks become stale. */
  lemma Rechunk(m: Mem, h: Heap, g: Heap, stale: set<int>, stale': set<int>)
    requires Rep(m, h, stale) && g.bins == h.bins && g.av == h.av && g.top == h.top
    requires forall a :: a in g.chunks && a !in stale' ==> a !in stale && a in h.chunks && g.chunks[a] == h.chunks[a]
    ensures Rep(m, g, stale')
  {
    MarksKept(m, h, m, g);
    forall a | a !in stale' ensures HeadOk(m, g, a) && FootOk(m, g, a) {
      if a in g.chunks {
        assert HeadOk(m, h, a) && FootOk(m, h, a);
      }
    }
    forall i, k ensures LinkOk(m, g, i, k) {
      assert LinkOk(m, h, i, k);
    }
  }

  /** Writing the cell of `top` alone disturbs nothing else. */
  lemma WriteTop(m: Mem, h: Heap, g: Heap, stale: set<int>)
    requires Shape(h) && Rep(m, h, stale) && g == h.(top := g.top, base := g.base)
    ensures Rep(m[h.av + 8 := g.top], g, stale)
  {
    var m' := m[h.av + 8 := g.top];
    MarksKept(m, h, m', g);
    forall b | b !in stale ensures HeadOk(m', g, b) && FootOk(m', g, b) {
      assert HeadOk(m, h, b) && FootOk(m, h, b);
      if b in h.chunks {
        ChunkCells(h, b, b);
        if h.chunks[b].bin != 0 {
          assert ChunkOk(h, b) && FreeOk(h, b);
          ChunkCells(h, Next(h, b), b);
        }
      }
    }
    forall i, k ensures LinkOk(m', g, i, k) {
      assert LinkOk(m, h, i, k);
      if 1 <= i < NAV && -1 <= k < |h.bins[i]| {
        LinkCells(h, i, k, 0, i, k);
        LinkCells(h, i, k + 1, 0, i, k);
      }
    }
  }

  // ----- writing links -----

  /** The memory after x and y are made neighbours, y after x. */
  function Join(m: Mem, x: int, y: int): Mem {
    m[y + 12 := x][x + 8 := y]
  }

  /** Joining two nodes leaves every head and foot alone. */
  lemma JoinTags(m: Mem, h: Heap, stale: set<int>, i: int, k: int, j: int, l: int)
    requires Shape(h) && Tags(m, h, stale) && 1 <= i < NAV && 1 <= j < NAV
    requires -1 <= k <= |h.bins[i]| && -1 <= l <= |h.bins[j]|
    ensures Tags(Join(m, At(h, i, k), At(h, j, l)), h, stale)
    ensures Ld(Join(m, At(h, i, k), At(h, j, l)), h.av + 4) == Ld(m, h.av + 4)
  {
    var m' := Join(m, At(h, i, k), At(h, j, l));
    LinkCells(h, i, k, 0, j, l);
    LinkCells(h, j, l, 0, i, k);
    forall a | a !in stale ensures HeadOk(m', h, a) && FootOk(m', h, a) {
      assert HeadOk(m, h, a) && FootOk(m, h, a);
      JoinTag(m, h, i, k, j, l, a);
    }
  }

  lemma JoinTag(m: Mem, h: Heap, i: int, k: int, j: int, l: int, a: int)
    requires Shape(h) && 1 <= i < NAV && 1 <= j < NAV
    requires -1 <= k <= |h.bins[i]| && -1 <= l <= |h.bins[j]|
    ensures HeadOk(m, h, a) ==> HeadOk(Join(m, At(h, i, k), At(h, j, l)), h, a)
    ensures FootOk(m, h, a) ==> FootOk(Join(m, At(h, i, k), At(h, j, l)), h, a)
  {
    LinkCells(h, i, k, a, j, l);
    LinkCells(h, j, l, a, i, k);
    if a in h.chunks && h.chunks[a].bin != 0 {
      assert FreeOk(h, a) && ChunkOk(h, a);
      LinkCells(h, i, k, Next(h, a), j, l);
      LinkCells(h, j, l, Next(h, a), i, k);
    }
  }

  /** The position that follows k in ring i, counting the header as -1. */
  function After(h: Heap, i: int, k: int): int
    requires 0 <= i < |h.bins|
  {
    if k + 1 == |h.bins[i]| then -1 else k + 1
  }

  /** Joining two nodes of a ring leaves alone the links that neither
      start from the first nor lead to the second. */
  lemma JoinLinks(m: Mem, h: Heap, i: int, k: int, l: int, i': int, k': int)
    requires Shape(h) && LinkOk(m, h, i', k') && 1 <= i < NAV
    requires -1 <= k < |h.bins[i]| && -1 <= l < |h.bins[i]|
    requires i' == i ==> k' != k && After(h, i', k') != l
    ensures LinkOk(Join(m, At(h, i, k), At(h, i, l)), h, i', k')
  {
    if 1 <= i' < NAV && -1 <= k' < |h.bins[i']| {
      NodesDiffer(h, i, k, i', k');
      NodesDiffer(h, i, l, i', After(h, i', k'));
      LinkCells(h, i', k', 0, i, l);
      LinkCells(h, i, k, 0, i', k' + 1);
    }
  }

  /** Joining the neighbours of a node takes it out of its ring. */
  lemma Unlink(m: Mem, h: Heap, stale: set<int>, i: int, k: int)
    requires Shape(h) && Rep(m, h, stale) && 1 <= i < NAV && 0 <= k < |h.bins[i]|
    requires h.bins[i][k] in h.chunks && Next(h, h.bins[i][k]) in h.chunks
    ensures Rep(Join(m, At(h, i, k - 1), At(h, i, k + 1)), Detach(h, i, k), stale + {Next(h, h.bins[i][k])})
    ensures FootOk(Join(m, At(h, i, k - 1), At(h, i, k + 1)), Detach(h, i, k), Next(h, h.bins[i][k]))
  {
    var m', g := Join(m, At(h, i, k - 1), At(h, i, k + 1)), Detach(h, i, k);
    var n := Next(h, h.bins[i][k]);
    Holds(h, i, k);
    JoinTags(m, h, stale, i, k - 1, i, k + 1);
    MarksKept(m, h, m', g);
    forall a | a !in stale + {n} ensures HeadOk(m', g, a) && FootOk(m', g, a) {
      assert HeadOk(m', h, a) && FootOk(m', h, a);
    }
    forall i', k' ensures LinkOk(m', g, i', k') {
      UnlinkLink(m, h, stale, i, k, i', k');
    }
  }

  lemma UnlinkLink(m: Mem, h: Heap, stale: set<int>, i: int, k: int, i': int, k': int)
    requires Shape(h) && Rep(m, h, stale) && 1 <= i < NAV && 0 <= k < |h.bins[i]|
    requires h.bins[i][k] in h.chunks && Next(h, h.bins[i][k]) in h.chunks
    ensures LinkOk(Join(m, At(h, i, k - 1), At(h, i, k + 1)), Detach(h, i, k), i', k')
  {
    if 1 <= i' < NAV && -1 <= k' < |h.bins[i']| && (i', k') != (i, k - 1) {
      var k0 := if i' == i && k' >= k then k' + 1 else k';
      if k0 < |h.bins[i']| {
        assert LinkOk(m, h, i', k0);
        JoinLinks(m, h, i, k - 1, After(h, i, k), i', k0);
      }
    } else if (i', k') == (i, k - 1) {
      LinkCells(h, i, k - 1, 0, i, k + 1);
    }
  }

  /** Linking an in-use chunk p between two nodes of a ring puts it into the ring. */
  lemma Link(m: Mem, h: Heap, stale: set<int>, p: int, i: int, k: int)
    requires Shape(h) && Rep(m, h, stale) && CanFree(h, p) && Fits(h, i, k, h.chunks[p].size)
    requires i >= 2 ==> Marked(Ld(m, h.av + 4), i / BINBLOCKWIDTH)
    ensures Rep(Join(Join(m, At(h, i, k - 1), p), p, At(h, i, k)), Attach(h, p, i, k), stale + {p, Next(h, p)})
  {
    var m2 := Join(Join(m, At(h, i, k - 1), p), p, At(h, i, k));
    AttachKeepsShape(h, p, i, k);
    LinkTags(m, h, stale, p, i, k);
    forall i', k' ensures LinkOk(m2, Attach(h, p, i, k), i', k') {
      LinkLink(m, h, stale, p, i, k, i', k');
    }
  }

  /** Heads, feet and the bit map, once p is linked. */
  lemma LinkTags(m: Mem, h: Heap, stale: set<int>, p: int, i: int, k: int)
    requires Shape(h) && Rep(m, h, stale) && CanFree(h, p) && 1 <= i < |h.bins| && 0 <= k <= |h.bins[i]|
    requires Shape(Attach(h, p, i, k)) && (i >= 2 ==> Marked(Ld(m, h.av + 4), i / BINBLOCKWIDTH))
    ensures var g, m2 := Attach(h, p, i, k), Join(Join(m, At(h, i, k - 1), p), p, At(h, i, k));
            Tags(m2, g, stale + {p, Next(h, p)}) && Marks(m2, g)
  {
    var g := Attach(h, p, i, k);
    var m1 := Join(m, At(h, i, k - 1), p);
    var m2 := Join(m1, p, At(h, i, k));
    var stale' := stale + {p, Next(h, p)};
    assert Tags(m, g, stale') by {
      forall a | a !in stale' ensures HeadOk(m, g, a) && FootOk(m, g, a) {
        assert HeadOk(m, h, a) && FootOk(m, h, a);
      }
    }
    assert At(g, i, k) == p && At(g, i, k - 1) == At(h, i, k - 1) && At(g, i, k + 1) == At(h, i, k);
    JoinTags(m, g, stale', i, k - 1, i, k);
    JoinTags(m1, g, stale', i, k, i, k + 1);
    forall j ensures MarkOk(m2, g, j) {
      assert MarkOk(m, h, j);
    }
  }

  lemma LinkLink(m: Mem, h: Heap, stale: set<int>, p: int, i: int, k: int, i': int, k': int)
    requires Shape(h) && Rep(m, h, stale) && CanFree(h, p) && 1 <= i < |h.bins| && 0 <= k <= |h.bins[i]|
    requires Shape(Attach(h, p, i, k))
    ensures LinkOk(Join(Join(m, At(h, i, k - 1), p), p, At(h, i, k)), Attach(h, p, i, k), i', k')
  {
    var g := Attach(h, p, i, k);
    var m1 := Join(m, At(h, i, k - 1), p);
    assert At(g, i, k) == p && At(g, i, k - 1) == At(h, i, k - 1) && At(g, i, k + 1) == At(h, i, k);
    LinkCells(g, i, k - 1, 0, i, k);
    LinkCells(g, i, k, 0, i, k + 1);
    if (i', k') == (i, k) || !(1 <= i' < NAV && -1 <= k' < |g.bins[i']|) {
      return;
    }
    if (i', k') != (i, k - 1) {
      OtherLink(m, h, stale, p, i, k, i', k');
      JoinLinks(m, g, i, k - 1, k, i', k');
    }
    JoinLinks(m1, g, i, k, After(g, i, k), i', k');
  }

  /** The links that do not touch the new node are in place already. */
  lemma OtherLink(m: Mem, h: Heap, stale: set<int>, p: int, i: int, k: int, i': int, k': int)
    requires Rep(m, h, stale) && CanFree(h, p) && 1 <= i < |h.bins| && 0 <= k <= |h.bins[i]|
    requires (i', k') != (i, k - 1) && (i', k') != (i, k)
    ensures LinkOk(m, Attach(h, p, i, k), i', k')
  {
    var k0 := if i' == i && k' > k then k' - 1 else k';
    assert LinkOk(m, h, i', k0);
  }

  /** The memory after the remainder p is linked to the header l, as the only node of its ring. */
  function OnlyNode(m: Mem, l: int, p: int): Mem {
    m[l + 12 := p][l + 8 := p][p + 12 := l][p + 8 := l]
  }

  /** Making r the one node of the last-remainder ring, whatever that ring held before. */
  lemma Relast(m: Mem, h: Heap, g: Heap, stale: set<int>, stale': set<int>, r: int)
    requires Shape(h) && Rep(m, h, stale) && Shape(g) && g.av == h.av && g.top == h.top
    requires g.bins == h.bins[1 := [r]]
    requires forall a :: a in g.chunks && a !in stale' ==> a !in stale && a in h.chunks && g.chunks[a] == h.chunks[a]
    ensures Rep(OnlyNode(m, BinAt(g, 1), r), g, stale')
  {
    var l := BinAt(g, 1);
    var m' := OnlyNode(m, l, r);
    assert At(g, 1, 0) == r && At(g, 1, -1) == l && At(g, 1, 1) == l;
    LinkCells(g, 1, 0, 0, 1, -1);
    LinkCells(g, 1, -1, 0, 1, 0);
    LinkCells(g, 1, 0, 0, 1, 0);
    NodesDiffer(g, 1, 0, 1, -1);
    forall a | a !in stale' ensures HeadOk(m', g, a) && FootOk(m', g, a) {
      if a in g.chunks {
        assert HeadOk(m, h, a) && FootOk(m, h, a);
        assert HeadOk(m, g, a) && FootOk(m, g, a);
        OnlyNodeTag(m, g, r, a);
      }
    }
    forall i, k ensures LinkOk(m', g, i, k) {
      RelastLink(m, h, g, stale, r, i, k);
    }
    MarksKept(m, h, m', g);
  }

  lemma RelastLink(m: Mem, h: Heap, g: Heap, stale: set<int>, r: int, i: int, k: int)
    requires Rep(m, h, stale) && Shape(g) && g.av == h.av && |h.bins| == NAV && g.bins == h.bins[1 := [r]]
    ensures LinkOk(OnlyNode(m, BinAt(g, 1), r), g, i, k)
  {
    assert LinkOk(m, h, i, k);
    if 2 <= i < NAV && -1 <= k < |g.bins[i]| {
      OnlyNodeLink(m, g, r, i, k);
    } else {
      LinkCells(g, 1, 0, 0, 1, -1);
      LinkCells(g, 1, -1, 0, 1, 0);
      LinkCells(g, 1, 0, 0, 1, 0);
      NodesDiffer(g, 1, 0, 1, -1);
    }
  }

  lemma OnlyNodeTag(m: Mem, g: Heap, r: int, a: int)
    requires Shape(g) && g.bins[1] == [r] && a in g.chunks
    ensures HeadOk(m, g, a) ==> HeadOk(OnlyNode(m, BinAt(g, 1), r), g, a)
    ensures FootOk(m, g, a) ==> FootOk(OnlyNode(m, BinAt(g, 1), r), g, a)
  {
    assert At(g, 1, 0) == r;
    LinkCells(g, 1, 0, a, 1, -1);
    LinkCells(g, 1, -1, a, 1, 0);
    if g.chunks[a].bin != 0 {
      assert FreeOk(g, a) && ChunkOk(g, a);
      LinkCells(g, 1, 0, Next(g, a), 1, -1);
      LinkCells(g, 1, -1, Next(g, a), 1, 0);
    }
  }

  lemma OnlyNodeLink(m: Mem, g: Heap, r: int, i: int, k: int)
    requires Shape(g) && g.bins[1] == [r] && LinkOk(m, g, i, k)
    requires 2 <= i < NAV && -1 <= k < |g.bins[i]|
    ensures LinkOk(OnlyNode(m, BinAt(g, 1), r), g, i, k)
  {
    assert At(g, 1, 0) == r;
    NodesDiffer(g, 1, 0, i, k);
    NodesDiffer(g, 1, -1, i, k);
    NodesDiffer(g, 1, 0, i, After(g, i, k));
    NodesDiffer(g, 1, -1, i, After(g, i, k));
    LinkCells(g, 1, 0, 0, i, k + 1);
    LinkCells(g, 1, -1, 0, i, k + 1);
    LinkCells(g, i, k, 0, 1, 0);
    LinkCells(g, i, k, 0, 1, -1);
  }

  // ----- marking blocks -----

  /** Marking a block, or clearing one whose bins are empty, disturbs nothing else. */
  lemma WriteMarks(m: Mem, h: Heap, stale: set<int>, w: int)
    requires Shape(h) && Rep(m, h, stale) && 0 <= w < W32
    requires forall i :: 2 <= i < NAV && h.bins[i] != [] && Marked(Ld(m, h.av + 4), i / BINBLOCKWIDTH) ==>
               Marked(w, i / BINBLOCKWIDTH)
    ensures Rep(m[h.av + 4 := w], h, stale)
  {
    var m' := m[h.av + 4 := w];
    forall b | b !in stale ensures HeadOk(m', h, b) && FootOk(m', h, b) {
      assert HeadOk(m, h, b) && FootOk(m, h, b);
      if b in h.chunks {
        ChunkCells(h, b, b);
        if h.chunks[b].bin != 0 {
          assert ChunkOk(h, b) && FreeOk(h, b);
          ChunkCells(h, Next(h, b), b);
        }
      }
    }
    forall i, k ensures LinkOk(m', h, i, k) {
      assert LinkOk(m, h, i, k);
      if 1 <= i < NAV && -1 <= k < |h.bins[i]| {
        LinkCells(h, i, k, 0, i, k);
        LinkCells(h, i, k + 1, 0, i, k);
      }
    }
    forall i ensures MarkOk(m', h, i) {
      assert MarkOk(m, h, i);
    }
  }

  // ----- what the caller's blocks keep -----

  /** The words a caller owns in the block at a run from a + 8 through the first word of the next chunk. */
  ghost predicate KeptAt(m: Mem, m': Mem, blocks: map<int, int>, a: int, w: int) {
    a in blocks && a + 8 <= w <= a + blocks[a] ==> Ld(m', w) == Ld(m, w)
  }

  ghost predicate Kept(m: Mem, m': Mem, blocks: map<int, int>) {
    forall a, w {:trigger KeptAt(m, m', blocks, a, w)} :: KeptAt(m, m', blocks, a, w)
  }

  ghost predicate ClearOf(blocks: map<int, int>, c: int, a: int) {
    a in blocks ==> c < a + 8 || c > a + blocks[a]
  }

  lemma KeptTrans(m: Mem, m': Mem, m'': Mem, blocks: map<int, int>)
    requires Kept(m, m', blocks) && Kept(m', m'', blocks)
    ensures Kept(m, m'', blocks)
  {
    forall a, w ensures KeptAt(m, m'', blocks, a, w) {
      assert KeptAt(m, m', blocks, a, w) && KeptAt(m', m'', blocks, a, w);
    }
  }

  lemma KeptSame(m: Mem, blocks: map<int, int>)
    ensures Kept(m, m, blocks)
  {
    forall a, w ensures KeptAt(m, m, blocks, a, w) {
    }
  }

  lemma KeptWrite(m: Mem, c: int, v: int, blocks: map<int, int>)
    requires forall a {:trigger ClearOf(blocks, c, a)} :: ClearOf(blocks, c, a)
    ensures Kept(m, m[c := v], blocks)
  {
    var m' := m[c := v];
    forall a, w ensures KeptAt(m, m', blocks, a, w) {
      assert ClearOf(blocks, c, a);
    }
  }

  ghost predicate GuardOk(h: Heap, blocks: map<int, int>, a: int) {
    a in blocks ==> InUse(h, a) && h.chunks[a].size == blocks[a]
  }

  /** The blocks are in use in the heap as they stand. */
  ghost predicate Guards(h: Heap, blocks: map<int, int>) {
    forall a {:trigger GuardOk(h, blocks, a)} :: GuardOk(h, blocks, a)
  }

  lemma KeptHead(m: Mem, h: Heap, p: int, v: int, blocks: map<int, int>)
    requires Shape(h) && Guards(h, blocks) && p in h.chunks
    ensures Kept(m, m[p + 4 := v], blocks)
  {
    var c := p + 4;
    forall a ensures ClearOf(blocks, c, a) {
      assert GuardOk(h, blocks, a) && PairOk(h, a, p) && PairOk(h, p, a) && ChunkOk(h, p) && ChunkOk(h, a);
    }
    KeptWrite(m, c, v, blocks);
  }

  lemma KeptFoot(m: Mem, h: Heap, p: int, v: int, blocks: map<int, int>)
    requires Shape(h) && Guards(h, blocks) && p in h.chunks && p !in blocks
    ensures Kept(m, m[Next(h, p) := v], blocks)
  {
    var c := Next(h, p);
    forall a ensures ClearOf(blocks, c, a) {
      assert GuardOk(h, blocks, a) && PairOk(h, a, p) && PairOk(h, p, a) && ChunkOk(h, p) && ChunkOk(h, a);
    }
    KeptWrite(m, c, v, blocks);
  }

  lemma KeptInner(m: Mem, h: Heap, p: int, c: int, v: int, blocks: map<int, int>)
    requires Shape(h) && Guards(h, blocks) && p in h.chunks && p !in blocks && p < c < Next(h, p)
    ensures Kept(m, m[c := v], blocks)
  {
    forall a ensures ClearOf(blocks, c, a) {
      assert GuardOk(h, blocks, a) && PairOk(h, a, p) && PairOk(h, p, a) && ChunkOk(h, a);
    }
    KeptWrite(m, c, v, blocks);
  }

  lemma KeptStatic(m: Mem, h: Heap, c: int, v: int, blocks: map<int, int>)
    requires Shape(h) && Guards(h, blocks) && h.av <= c < h.av + AVSIZE
    ensures Kept(m, m[c := v], blocks)
  {
    forall a ensures ClearOf(blocks, c, a) {
      assert GuardOk(h, blocks, a) && ChunkOk(h, a);
      if a in h.chunks { assert ChunkOk(h, Next(h, a)); }
    }
    KeptWrite(m, c, v, blocks);
  }

  /** Writing a link field of a node that is not a kept block. */
  lemma KeptLink(m: Mem, h: Heap, i: int, k: int, c: int, v: int, blocks: map<int, int>)
    requires Shape(h) && Guards(h, blocks) && 1 <= i < NAV && -1 <= k <= |h.bins[i]|
    requires c == At(h, i, k) + 8 || c == At(h, i, k) + 12
    ensures Kept(m, m[c := v], blocks)
  {
    var p := At(h, i, k);
    if 0 <= k < |h.bins[i]| {
      Holds(h, i, k);
      assert GuardOk(h, blocks, p);
      KeptInner(m, h, p, c, v, blocks);
    } else {
      KeptStatic(m, h, c, v, blocks);
    }
  }

  /** Kept blocks stay guarded through a transition that leaves them as they are. */
  lemma GuardsKept(h: Heap, g: Heap, blocks: map<int, int>)
    requires Guards(h, blocks)
    requires forall a :: a in blocks && InUse(h, a) ==>
               a in g.chunks && a != g.top && g.chunks[a].bin == h.chunks[a].bin && g.chunks[a].size == h.chunks[a].size
    ensures Guards(g, blocks)
  {
    forall a ensures GuardOk(g, blocks, a) {
      assert GuardOk(h, blocks, a);
    }
  }

  lemma KeptJoin(m: Mem, h: Heap, i: int, k: int, j: int, l: int, blocks: map<int, int>)
    requires Shape(h) && Guards(h, blocks) && 1 <= i < NAV && 1 <= j < NAV
    requires -1 <= k <= |h.bins[i]| && -1 <= l <= |h.bins[j]|
    ensures Kept(m, Join(m, At(h, i, k), At(h, j, l)), blocks)
  {
    var x, y := At(h, i, k), At(h, j, l);
    KeptLink(m, h, j, l, y + 12, x, blocks);
    KeptLink(m[y + 12 := x], h, i, k, x + 8, y, blocks);
    KeptTrans(m, m[y + 12 := x], Join(m, x, y), blocks);
  }

  lemma KeptOnlyNode(m: Mem, g: Heap, r: int, blocks: map<int, int>)
    requires Shape(g) && Guards(g, blocks) && g.bins[1] == [r]
    ensures Kept(m, OnlyNode(m, BinAt(g, 1), r), blocks)
  {
    var l := BinAt(g, 1);
    var m1 := m[l + 12 := r];
    var m2 := m1[l + 8 := r];
    var m3 := m2[r + 12 := l];
    assert At(g, 1, 0) == r && At(g, 1, -1) == l;
    KeptLink(m, g, 1, -1, l + 12, r, blocks);
    KeptLink(m1, g, 1, -1, l + 8, r, blocks);
    KeptLink(m2, g, 1, 0, r + 12, l, blocks);
    KeptLink(m3, g, 1, 0, r + 8, l, blocks);
    KeptTrans(m, m1, m2, blocks);
    KeptTrans(m, m2, m3, blocks);
    KeptTrans(m, m3, m3[r + 8 := l], blocks);
  }

  ghost predicate SameWordAt(m: Mem, m': Mem, h: Heap, a: int) {
    a in h.chunks ==> Ld(m', a + 4) == Ld(m, a + 4) && Ld(m', a) == Ld(m, a)
  }

  /** No chunk has its head or first word rewritten. */
  ghost predicate SameWords(m: Mem, m': Mem, h: Heap) {
    forall a {:trigger SameWordAt(m, m', h, a)} :: SameWordAt(m, m', h, a)
  }

  lemma SameWordsTrans(m: Mem, m': Mem, m'': Mem, h: Heap)
    requires SameWords(m, m', h) && SameWords(m', m'', h)
    ensures SameWords(m, m'', h)
  {
    forall a ensures SameWordAt(m, m'', h, a) {
      assert SameWordAt(m, m', h, a) && SameWordAt(m', m'', h, a);
    }
  }

  lemma SameWordsSame(m: Mem, h: Heap)
    ensures SameWords(m, m, h)
  {
    forall a ensures SameWordAt(m, m, h, a) {
    }
  }

  lemma JoinWords(m: Mem, h: Heap, i: int, k: int, j: int, l: int)
    requires Shape(h) && 1 <= i < NAV && 1 <= j < NAV && -1 <= k <= |h.bins[i]| && -1 <= l <= |h.bins[j]|
    ensures SameWords(m, Join(m, At(h, i, k), At(h, j, l)), h)
  {
    var m' := Join(m, At(h, i, k), At(h, j, l));
    forall a ensures SameWordAt(m, m', h, a) {
      LinkCells(h, i, k, a, j, l);
      LinkCells(h, j, l, a, i, k);
    }
  }

  lemma StaticWords(m: Mem, h: Heap, w: int)
    requires Shape(h)
    ensures SameWords(m, m[h.av + 4 := w], h)
  {
    var m' := m[h.av + 4 := w];
    forall a ensures SameWordAt(m, m', h, a) {
      if a in h.chunks { ChunkCells(h, a, a); }
    }
  }

  /** frontlink, in the order of its stores: p goes between two neighbours of ring i. */
  function Between(m: Mem, p: int, bck: int, fwd: int): Mem {
    m[p + 12 := bck][p + 8 := fwd][bck + 8 := p][fwd + 12 := p]
  }

  lemma LinkBetween(m: Mem, h: Heap, stale: set<int>, p: int, i: int, k: int, blocks: map<int, int>)
    requires Shape(h) && Rep(m, h, stale) && CanFree(h, p) && Fits(h, i, k, h.chunks[p].size)
    requires i >= 2 ==> Marked(Ld(m, h.av + 4), i / BINBLOCKWIDTH)
    requires Guards(h, blocks) && p !in blocks
    ensures var m' := Between(m, p, At(h, i, k - 1), At(h, i, k));
            var g := Attach(h, p, i, k);
            && Shape(g) && Rep(m', g, stale + {p, Next(h, p)})
            && SameWords(m, m', h) && Guards(g, blocks) && Kept(m, m', blocks)
  {
    var x, y := At(h, i, k - 1), At(h, i, k);
    var g := Attach(h, p, i, k);
    var m1 := Join(m, x, p);
    AttachKeepsShape(h, p, i, k);
    assert At(g, i, k) == p && At(g, i, k - 1) == x && At(g, i, k + 1) == y;
    LinkCells(g, i, k - 1, 0, i, k);
    LinkCells(g, i, k, 0, i, k + 1);
    LinkCells(g, i, k - 1, 0, i, k + 1);
    NodesDiffer(g, i, k - 1, i, k);
    SameStores(m, p, x, y);
    Link(m, h, stale, p, i, k);
    GuardsKept(h, g, blocks);
    JoinWords(m, g, i, k - 1, i, k);
    JoinWords(m1, g, i, k, i, k + 1);
    KeptJoin(m, g, i, k - 1, i, k, blocks);
    KeptJoin(m1, g, i, k, i, k + 1, blocks);
    KeptTrans(m, m1, Join(m1, p, y), blocks);
    var m' := Between(m, p, x, y);
    forall a ensures SameWordAt(m, m', h, a) {
      assert SameWordAt(m, m1, g, a) && SameWordAt(m1, m', g, a);
    }
  }

  lemma SameStores(m: Mem, p: int, x: int, y: int)
    requires p != x && p + 8 != y + 12 && x + 8 != y + 12 && x + 8 != p + 12
    ensures Between(m, p, x, y) == Join(Join(m, x, p), p, y)
  {
  }

  lemma OnlyNodeWords(m: Mem, g: Heap, r: int)
    requires Shape(g) && g.bins[1] == [r]
    ensures SameWords(m, OnlyNode(m, BinAt(g, 1), r), g)
  {
    var m' := OnlyNode(m, BinAt(g, 1), r);
    assert At(g, 1, 0) == r;
    forall a ensures SameWordAt(m, m', g, a) {
      LinkCells(g, 1, 0, a, 1, -1);
      LinkCells(g, 1, -1, a, 1, 0);
    }
  }

  /** All blocks in use are guarded. */
  lemma GuardsBlocks(h: Heap, blocks: map<int, int>)
    requires blocks.Keys <= Blocks(h).Keys && (forall a :: a in blocks ==> blocks[a] == Blocks(h)[a])
    ensures Guards(h, blocks)
  {
    forall a ensures GuardOk(h, blocks, a) {
      assert a in blocks ==> a in Blocks(h);
    }
  }

  // ----- writing inside a block -----

  /** Only cells strictly inside chunk a, after its head, differ. */
  ghost predicate InsideOnly(m: Mem, m': Mem, h: Heap, a: int) {
    a in h.chunks && forall c {:trigger Ld(m', c)} :: c < a + 8 || c >= Next(h, a) ==> Ld(m', c) == Ld(m, c)
  }

  /** What a caller writes in a block in use is no concern of the allocator. */
  lemma WriteInside(m: Mem, m': Mem, h: Heap, stale: set<int>, a: int)
    requires Shape(h) && Rep(m, h, stale) && InUse(h, a) && InsideOnly(m, m', h, a)
    ensures Rep(m', h, stale)
  {
    assert ChunkOk(h, a);
    forall b | b !in stale ensures HeadOk(m', h, b) && FootOk(m', h, b) {
      assert HeadOk(m, h, b) && FootOk(m, h, b) && PairOk(h, a, b) && PairOk(h, b, a) && ChunkOk(h, b);
    }
    forall i, k ensures LinkOk(m', h, i, k) {
      assert LinkOk(m, h, i, k);
      if 1 <= i < NAV && -1 <= k < |h.bins[i]| {
        NodeOutside(h, a, i, k);
        NodeOutside(h, a, i, k + 1);
      }
    }
    MarksKept(m, h, m', h);
  }

  lemma NodeOutside(h: Heap, a: int, i: int, k: int)
    requires Shape(h) && InUse(h, a) && 1 <= i < NAV && -1 <= k <= |h.bins[i]|
    ensures At(h, i, k) + 12 < a + 8 || At(h, i, k) + 8 >= Next(h, a)
  {
    var p := At(h, i, k);
    assert ItemOk(h, i, k) && ChunkOk(h, a) && PairOk(h, a, p) && PairOk(h, p, a) && ChunkOk(h, p);
  }

  lemma KeptInside(m: Mem, m': Mem, h: Heap, a: int, blocks: map<int, int>)
    requires Shape(h) && Guards(h, blocks) && a !in blocks && InsideOnly(m, m', h, a)
    ensures Kept(m, m', blocks)
  {
    forall b, w ensures KeptAt(m, m', blocks, b, w) {
      assert GuardOk(h, blocks, b) && PairOk(h, a, b) && PairOk(h, b, a) && ChunkOk(h, a);
    }
  }

  /** Word o of the block at src is word o of the block at dst. */
  ghost predicate CopiedAt(m: Mem, src: int, m': Mem, dst: int, n: int, o: int) {
    0 <= o <= n - 4 && o % 4 == 0 ==> Ld(m', dst + o) == Ld(m, src + o)
  }

  /** The first n bytes at src are the first n bytes at dst. */
  ghost predicate Copied(m: Mem, src: int, m': Mem, dst: int, n: int) {
    forall o {:trigger CopiedAt(m, src, m', dst, n, o)} :: CopiedAt(m, src, m', dst, n, o)
  }

  /** A kept block holds its own first bytes. */
  lemma KeptCopied(m: Mem, m': Mem, blocks: map<int, int>, p: int, n: int)
    requires Kept(m, m', blocks) && p in blocks && n <= blocks[p] - 4
    ensures Copied(m, p + 8, m', p + 8, n)
  {
    var q := p + 8;
    forall o ensures CopiedAt(m, q, m', q, n, o) {
      assert KeptAt(m, m', blocks, p, q + o);
    }
  }

  lemma CopiedTrans(m: Mem, src: int, m': Mem, mid: int, m'': Mem, dst: int, n: int)
    requires Copied(m, src, m', mid, n) && Copied(m', mid, m'', dst, n)
    ensures Copied(m, src, m'', dst, n)
  {
    forall o ensures CopiedAt(m, src, m'', dst, n, o) {
      assert CopiedAt(m, src, m', mid, n, o) && CopiedAt(m', mid, m'', dst, n, o);
    }
  }

  lemma CopiedLess(m: Mem, src: int, m': Mem, dst: int, n: int, n': int)
    requires Copied(m, src, m', dst, n) && n' <= n
    ensures Copied(m, src, m', dst, n')
  {
    forall o ensures CopiedAt(m, src, m', dst, n', o) {
      assert CopiedAt(m, src, m', dst, n, o);
    }
  }

  lemma KeptLess(m: Mem, m': Mem, blocks: map<int, int>, less: map<int, int>)
    requires Kept(m, m', blocks) && less.Keys <= blocks.Keys && forall a :: a in less ==> less[a] <= blocks[a]
    ensures Kept(m, m', less)
  {
    forall a, w ensures KeptAt(m, m', less, a, w) {
      assert KeptAt(m, m', blocks, a, w);
    }
  }

  /** m' is m with the first n bytes at src copied to dst, and nothing else changed. */
  ghost predicate Moved(m: Mem, src: int, m': Mem, dst: int, n: int) {
    && Copied(m, src, m', dst, n)
    && forall c {:trigger Ld(m', c)} :: c < dst || c >= dst + n ==> Ld(m', c) == Ld(m, c)
  }

  /** Copying one more word, when what is still to be read has not been overwritten. */
  lemma MoveWord(m: Mem, src: int, m': Mem, dst: int, i: int, n: int)
    requires Moved(m, src, m', dst, i) && 0 <= i < n && i % 4 == 0 && (dst <= src || src + n <= dst)
    ensures Moved(m, src, m'[dst + i := Ld(m', src + i)], dst, i + 4)
  {
    var m'' := m'[dst + i := Ld(m', src + i)];
    assert Ld(m', src + i) == Ld(m, src + i);
    var n' := i + 4;
    forall o ensures CopiedAt(m, src, m'', dst, n', o) {
      assert CopiedAt(m, src, m', dst, i, o);
    }
    forall c | c < dst || c >= dst + n' ensures Ld(m'', c) == Ld(m, c) {
      assert Ld(m', c) == Ld(m, c);
    }
  }
}
