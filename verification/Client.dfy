/** A program that calls the allocator: over any run of calls its live blocks stay apart,
    aligned, as large as asked for, and hold what the program last stored in them. */
module Client {
  import opened Words
  import opened Sizes
  import opened HeapModel
  import opened HeapMemory
  import opened Dlmalloc

  /** What the program knows of a block: its address, the bytes asked for, and the words stored
      at offsets it has written since. */
  datatype Block = Freed | Live(ptr: int, asked: int, words: map<int, int>)

  datatype Call =
    | CallMalloc(bytes: int)
    | CallMemalign(alignment: int, bytes: int)
    | CallFree(block: nat)
    | CallRealloc(block: nat, bytes: int)
    | CallStore(block: nat, offset: int, value: int)
    | CallLoad(block: nat, offset: int)

  /** A live block of the table, and the offset of a word that has bytes the program asked for: the block
      always holds the whole word. */
  predicate Names(t: seq<Block>, i: nat, o: int) {
    i < |t| && t[i].Live? && 0 <= o < t[i].asked && o % 4 == 0
  }

  /** The requests whose padded size covers them, and those that read as negative and are refused. */
  predicate Sized(bytes: int) {
    0 <= bytes < W31 - 11 || W31 <= bytes < W32
  }

  /** The calls a program may make: of live blocks only, and for sizes the allocator's arithmetic covers. */
  predicate MayCall(t: seq<Block>, c: Call) {
    match c
    case CallMalloc(bytes) => Sized(bytes)
    case CallMemalign(alignment, bytes) =>
      Sized(bytes) && PowerOfTwo(alignment) && alignment <= W31 && PaddedRequest(alignment, bytes)
    case CallFree(i) => i < |t| && t[i].Live?
    case CallRealloc(i, bytes) => i < |t| && t[i].Live? && Sized(bytes)
    case CallStore(i, o, v) => Names(t, i, o)
    case CallLoad(i, o) => Names(t, i, o) && o in t[i].words
  }

  /** The words of a block of so many bytes. */
  function Fitting(words: map<int, int>, bytes: int): map<int, int> {
    map o | o in words && o < bytes :: words[o]
  }

  /** What a call means to the program, whatever addresses the allocator picks; a failing call answers
      zero and changes nothing. */
  ghost predicate Means(c: Call, t: seq<Block>, t': seq<Block>, r: int)
    requires MayCall(t, c)
  {
    match c
    case CallMalloc(bytes) =>
      if r == 0 then t' == t else t' == t + [Live(r, bytes, map[])] && r % 8 == 0
    case CallMemalign(alignment, bytes) =>
      if r == 0 then t' == t else t' == t + [Live(r, bytes, map[])] && r % 8 == 0 && r % alignment == 0
    case CallFree(i) => t' == t[i := Freed]
    case CallRealloc(i, bytes) =>
      if r == 0 then t' == t else t' == t[i := Live(r, bytes, Fitting(t[i].words, bytes))] && r % 8 == 0
    case CallStore(i, o, v) => t' == t[i := t[i].(words := t[i].words[o := v])]
    case CallLoad(i, o) => t' == t && r == t[i].words[o]
  }

  /** The calls the allocator may be unfit for in the state it is in: realloc of a block beside the top, and the
      very first extension of the heap. */
  predicate Excused(t: seq<Block>, c: Call) {
    match c
    case CallMalloc(_) => forall i :: 0 <= i < |t| ==> t[i].Freed?
    case CallMemalign(_, _) => forall i :: 0 <= i < |t| ==> t[i].Freed?
    case CallRealloc(_, bytes) => Overflows(bytes)
    case _ => false
  }

  /** One call of a run. Only a call that the program may not make, or that is excused, is left out. */
  ghost predicate Step(c: Call, made: bool, t: seq<Block>, t': seq<Block>, r: int) {
    if made then MayCall(t, c) && Means(c, t, t', r)
    else t' == t && r == 0 && (MayCall(t, c) ==> Excused(t, c))
  }

  /** A run from an empty table: the tables before and after each call. */
  ghost predicate Trace(calls: seq<Call>, made: seq<bool>, tables: seq<seq<Block>>, results: seq<int>) {
    && |tables| == |calls| + 1 && |results| == |made| == |calls| && tables[0] == []
    && forall k {:trigger calls[k]} :: 0 <= k < |calls| ==>
      Step(calls[k], made[k], tables[k], tables[k + 1], results[k])
  }

  ghost predicate WordOk(m: Mem, b: Block, o: int) {
    b.Live? && o in b.words ==> 0 <= o < b.asked && o % 4 == 0 && Ld(m, b.ptr + o) == b.words[o]
  }

  /** A chunk of whole words with room for so many bytes. */
  predicate RoomFor(size: int, bytes: int) {
    size % 4 == 0 && size - 4 >= bytes
  }

  /** A live block is a block in use, with room for the bytes asked for, and holds its words. */
  ghost predicate BlockOk(h: Heap, m: Mem, b: Block) {
    b.Live? ==>
      && b.ptr > 8 && b.ptr - 8 in Blocks(h) && RoomFor(Blocks(h)[b.ptr - 8], b.asked)
      && forall o {:trigger WordOk(m, b, o)} :: WordOk(m, b, o)
  }

  ghost predicate EachOk(h: Heap, m: Mem, t: seq<Block>, i: int) {
    0 <= i < |t| ==> BlockOk(h, m, t[i])
  }

  ghost predicate Apart(t: seq<Block>, i: int, j: int) {
    0 <= i < j < |t| && t[i].Live? && t[j].Live? ==> t[i].ptr != t[j].ptr
  }

  ghost predicate TableOk(h: Heap, m: Mem, t: seq<Block>) {
    && (forall i {:trigger EachOk(h, m, t, i)} :: EachOk(h, m, t, i))
    && (forall i, j {:trigger Apart(t, i, j)} :: Apart(t, i, j))
  }

  /** Live blocks share no byte, and a live block is aligned. */
  lemma LiveBlocksDisjoint(h: Heap, m: Mem, t: seq<Block>, i: nat, j: nat)
    requires Shape(h) && TableOk(h, m, t) && i < |t| && j < |t| && i != j && t[i].Live? && t[j].Live?
    ensures t[i].ptr % 8 == 0
    ensures t[i].ptr + t[i].asked <= t[j].ptr - 4 || t[j].ptr + t[j].asked <= t[i].ptr - 4
  {
    var p, q := t[i].ptr - 8, t[j].ptr - 8;
    assert EachOk(h, m, t, i) && EachOk(h, m, t, j) && Apart(t, i, j) && Apart(t, j, i);
    assert AlignOk(h, p) && PairOk(h, p, q) && PairOk(h, q, p);
  }

  // ----- what each call keeps -----

  /** The blocks other than the i-th are among those in use other than its chunk. */
  lemma KeepsBlock(h: Heap, m: Mem, g: Heap, m': Mem, kept: map<int, int>, b: Block)
    requires BlockOk(h, m, b) && Kept(m, m', kept)
    requires b.Live? ==> b.ptr - 8 in kept && kept[b.ptr - 8] == Blocks(h)[b.ptr - 8]
    requires b.Live? ==> b.ptr - 8 in Blocks(g) && Blocks(g)[b.ptr - 8] == kept[b.ptr - 8]
    ensures BlockOk(g, m', b)
  {
    if b.Live? {
      forall o ensures WordOk(m', b, o) {
        assert WordOk(m, b, o) && KeptAt(m, m', kept, b.ptr - 8, b.ptr + o);
      }
    }
  }

  /** A table after a call that keeps all blocks, with one more at the end. */
  lemma Added(h: Heap, m: Mem, g: Heap, m': Mem, t: seq<Block>, b: Block)
    requires TableOk(h, m, t) && Kept(m, m', Blocks(h)) && b.Live? && b.words == map[]
    requires b.ptr > 8 && b.ptr - 8 !in Blocks(h) && b.ptr - 8 in Blocks(g) && RoomFor(Blocks(g)[b.ptr - 8], b.asked)
    requires Blocks(g) == Blocks(h)[b.ptr - 8 := Blocks(g)[b.ptr - 8]]
    ensures TableOk(g, m', t + [b])
  {
    var t' := t + [b];
    forall i ensures EachOk(g, m', t', i) {
      assert EachOk(h, m, t, i);
      if 0 <= i < |t| {
        KeepsBlock(h, m, g, m', Blocks(h), t[i]);
      }
    }
    forall i, j ensures Apart(t', i, j) {
      assert Apart(t, i, j) && EachOk(h, m, t, i);
    }
  }

  /** A table after a call that adds a block for so many bytes. */
  lemma AddedBlock(h: Heap, m: Mem, g: Heap, m': Mem, t: seq<Block>, ptr: int, bytes: int)
    requires TableOk(h, m, t) && Kept(m, m', Blocks(h)) && Shape(g) && 0 <= bytes < W31 - 11
    requires ptr > 8 && NewBlock(h, g, ptr - 8, Request2Size(bytes))
    ensures TableOk(g, m', t + [Live(ptr, bytes, map[])]) && ptr % 8 == 0
  {
    assert AlignOk(g, ptr - 8);
    Request2SizeCovers(bytes);
    Added(h, m, g, m', t, Live(ptr, bytes, map[]));
  }

  /** A table after a call that changes no block. */
  lemma Same(h: Heap, m: Mem, g: Heap, m': Mem, t: seq<Block>)
    requires TableOk(h, m, t) && Kept(m, m', Blocks(h)) && Blocks(g) == Blocks(h)
    ensures TableOk(g, m', t)
  {
    forall i ensures EachOk(g, m', t, i) {
      assert EachOk(h, m, t, i);
      if 0 <= i < |t| {
        KeepsBlock(h, m, g, m', Blocks(h), t[i]);
      }
    }
  }

  /** A table after a call that keeps all blocks but one, which has become b. */
  lemma Replaced(h: Heap, m: Mem, g: Heap, m': Mem, t: seq<Block>, i: nat, b: Block)
    requires TableOk(h, m, t) && i < |t| && t[i].Live? && BlockOk(g, m', b)
    requires Kept(m, m', Blocks(h) - {t[i].ptr - 8})
    requires b.Freed? ==> Blocks(g) == Blocks(h) - {t[i].ptr - 8}
    requires b.Live? ==>
               && b.ptr - 8 !in Blocks(h) - {t[i].ptr - 8}
               && Blocks(g) == (Blocks(h) - {t[i].ptr - 8})[b.ptr - 8 := Blocks(g)[b.ptr - 8]]
    ensures TableOk(g, m', t[i := b])
  {
    var t', kept := t[i := b], Blocks(h) - {t[i].ptr - 8};
    forall j ensures EachOk(g, m', t', j) {
      assert EachOk(h, m, t, j) && Apart(t, i, j) && Apart(t, j, i);
      if 0 <= j < |t| && j != i {
        KeepsBlock(h, m, g, m', kept, t[j]);
      }
    }
    forall j, k ensures Apart(t', j, k) {
      assert Apart(t, j, k) && Apart(t, i, j) && Apart(t, j, i) && Apart(t, i, k) && Apart(t, k, i);
      assert EachOk(h, m, t, j) && EachOk(h, m, t, k);
    }
  }

  /** The words of a resized block that still fit are those it had. */
  lemma ResizedWords(h: Heap, m: Mem, g: Heap, m': Mem, b: Block, p: int, bytes: int)
    requires b.Live? && BlockOk(h, m, b) && 0 <= bytes < W31 - 11
    requires Resized(h, m, g, m', b.ptr - 8, p, Request2Size(bytes)) && p > 0 && Blocks(g)[p] % 4 == 0
    ensures BlockOk(g, m', Live(p + 8, bytes, Fitting(b.words, bytes)))
  {
    var b', n := Live(p + 8, bytes, Fitting(b.words, bytes)), Least(Blocks(h)[b.ptr - 8], Blocks(g)[p]) - 4;
    Request2SizeCovers(bytes);
    forall o ensures WordOk(m', b', o) {
      assert WordOk(m, b, o) && CopiedAt(m, b.ptr, m', p + 8, n, o);
    }
  }

  /** A word stored in a block in use, up to the word its chunk shares with the next. */
  lemma StoreKeepsRep(m: Mem, h: Heap, a: int, c: int, v: int)
    requires Shape(h) && Rep(m, h, {}) && InUse(h, a) && a + 8 <= c <= Next(h, a) && c % 4 == 0
    ensures Rep(m[c := v], h, {})
  {
    var m' := m[c := v];
    assert ChunkOk(h, a) && AlignOk(h, a);
    forall b ensures HeadOk(m', h, b) && FootOk(m', h, b) {
      assert HeadOk(m, h, b) && FootOk(m, h, b) && PairOk(h, a, b) && PairOk(h, b, a) && ChunkOk(h, b) && AlignOk(h, b);
    }
    forall i, k ensures LinkOk(m', h, i, k) {
      assert LinkOk(m, h, i, k);
      if 1 <= i < NAV && -1 <= k < |h.bins[i]| {
        NodeAway(h, a, i, k);
        NodeAway(h, a, i, k + 1);
      }
    }
    MarksKept(m, h, m', h);
  }

  lemma NodeAway(h: Heap, a: int, i: int, k: int)
    requires Shape(h) && InUse(h, a) && 1 <= i < NAV && -1 <= k <= |h.bins[i]|
    ensures At(h, i, k) + 12 < a + 8 || At(h, i, k) + 8 > Next(h, a)
  {
    var p := At(h, i, k);
    assert ItemOk(h, i, k) && ChunkOk(h, a) && PairOk(h, a, p) && PairOk(h, p, a) && ChunkOk(h, p);
  }

  lemma StoreKeepsOthers(m: Mem, h: Heap, a: int, c: int, v: int)
    requires Shape(h) && InUse(h, a) && a + 8 <= c <= Next(h, a)
    ensures Kept(m, m[c := v], Blocks(h) - {a})
  {
    var blocks, m' := Blocks(h) - {a}, m[c := v];
    forall b, w ensures KeptAt(m, m', blocks, b, w) {
      assert PairOk(h, a, b) && PairOk(h, b, a) && ChunkOk(h, a) && ChunkOk(h, b);
    }
  }

  lemma StoredWords(h: Heap, m: Mem, b: Block, o: int, v: int)
    requires b.Live? && BlockOk(h, m, b) && 0 <= o < b.asked && o % 4 == 0
    ensures BlockOk(h, m[b.ptr + o := v], b.(words := b.words[o := v]))
  {
    var b', m' := b.(words := b.words[o := v]), m[b.ptr + o := v];
    forall x ensures WordOk(m', b', x) {
      assert WordOk(m, b, x);
    }
  }

  // ----- the program -----

  class Program {
    const heap: Allocator
    var table: seq<Block>

    /** The heap represents the table; and with the board's sbrk, sbrked_mem counts the bytes up to the break. */
    ghost predicate Valid()
      reads this, heap
    {
      heap.Valid() && TableOk(heap.h, heap.mem, table) && (heap.sbrkFails == 0 ==> heap.Counted())
    }

    constructor (heap: Allocator)
      requires heap.Valid() && (heap.sbrkFails == 0 ==> heap.Counted())
      ensures Valid() && this.heap == heap && table == []
    {
      this.heap := heap;
      table := [];
    }

    /** Is the allocator fit for this call? Not when the first extension of the heap would run out of memory, and
        not when realloc would read a huge request as one that fits beside the top. */
    predicate Fit(c: Call)
      requires MayCall(table, c)
      reads this, heap
    {
      match c
      case CallMalloc(bytes) => bytes >= W31 || FitToGrow(bytes)
      case CallMemalign(alignment, bytes) =>
        bytes >= W31 || MemalignRequest(alignment, bytes) >= W31 || FitToGrow(MemalignRequest(alignment, bytes))
      case CallRealloc(i, bytes) =>
        var p := table[i].ptr - 8;
        Overflows(bytes) ==> p + heap.ChunkSize(p) != Ld(heap.mem, heap.av + 8)
      case _ => true
    }

    predicate FitToGrow(bytes: int)
      requires 0 <= bytes < W31
      reads heap
    {
      || heap.sbrkFails == -1 || Ld(heap.mem, heap.av + 8) != heap.av
      || heap.FirstEnd(Request2Size(bytes)) <= heap.memEnd
    }

    /** FitToGrow is what the allocator needs, and before the first extension no block is live. */
    lemma FitMeans(bytes: int)
      requires Valid() && 0 <= bytes < W31
      ensures FitToGrow(bytes) <==> heap.SafeToGrow(Request2Size(bytes))
      ensures FitToGrow(bytes) || forall i :: 0 <= i < |table| ==> table[i].Freed?
    {
      heap.TopBounds();
      if heap.h.chunks == map[] {
        forall i | 0 <= i < |table| ensures table[i].Freed? {
          assert EachOk(heap.h, heap.mem, table, i);
        }
      }
    }

    lemma FitForRealloc(i: nat, bytes: int)
      requires Valid() && MayCall(table, CallRealloc(i, bytes))
      ensures table[i].ptr - 8 in heap.h.chunks
      ensures Fit(CallRealloc(i, bytes)) <==>
              (Overflows(bytes) ==> Next(heap.h, table[i].ptr - 8) != heap.h.top)
    {
      heap.TopBounds();
      assert EachOk(heap.h, heap.mem, table, i);
      assert HeadOk(heap.mem, heap.h, table[i].ptr - 8);
      heap.ReadHead(table[i].ptr - 8);
    }

    /** One call, if it may be made. */
    method Do(c: Call) returns (made: bool, r: int)
      requires Valid()
      modifies this, heap
      ensures Valid() && Step(c, made, old(table), table, r)
      ensures made <==> old(MayCall(table, c) && Fit(c))
    {
      if !MayCall(table, c) || !Fit(c) {
        Unfit(c);
        return false, 0;
      }
      made, r := true, 0;
      match c {
        case CallMalloc(bytes) => r := DoMalloc(bytes);
        case CallMemalign(alignment, bytes) => r := DoMemalign(alignment, bytes);
        case CallFree(i) => DoFree(i);
        case CallRealloc(i, bytes) => r := DoRealloc(i, bytes);
        case CallStore(i, o, v) => DoStore(i, o, v);
        case CallLoad(i, o) => r := DoLoad(i, o);
      }
    }

    lemma Unfit(c: Call)
      requires Valid() && (MayCall(table, c) ==> !Fit(c))
      ensures MayCall(table, c) ==> Excused(table, c)
    {
      if MayCall(table, c) {
        match c
        case CallMalloc(bytes) => FitMeans(bytes);
        case CallMemalign(alignment, bytes) => FitMeans(MemalignRequest(alignment, bytes));
        case CallRealloc(i, bytes) =>
        case _ =>
      }
    }

    /** Every run of calls means to the program what its calls mean one by one: each load gives
        what was stored there last, through whatever was freed and moved in between. */
    method Run(calls: seq<Call>) returns (ghost made: seq<bool>, results: seq<int>, ghost tables: seq<seq<Block>>)
      requires Valid() && table == []
      modifies this, heap
      ensures Valid() && Trace(calls, made, tables, results) && table == tables[|calls|]
    {
      made, results, tables := [], [], [table];
      for n := 0 to |calls|
        invariant Valid() && Trace(calls[..n], made, tables, results) && table == tables[n]
      {
        var did, r := Do(calls[n]);
        assert calls[..n + 1] == calls[..n] + [calls[n]];
        made, results, tables := made + [did], results + [r], tables + [table];
      }
      assert calls[..|calls|] == calls;
    }

    method DoMalloc(bytes: int) returns (r: int)
      requires Valid() && MayCall(table, CallMalloc(bytes)) && Fit(CallMalloc(bytes))
      modifies this, heap
      ensures Valid() && Means(CallMalloc(bytes), old(table), table, r)
    {
      ghost var h, m := heap.h, heap.mem;
      if bytes < W31 {
        FitMeans(bytes);
      }
      r := heap.Malloc(bytes);
      if r == 0 {
        Same(h, m, heap.h, heap.mem, table);
      } else {
        AddedBlock(h, m, heap.h, heap.mem, table, r, bytes);
        table := table + [Live(r, bytes, map[])];
      }
    }

    method DoMemalign(alignment: int, bytes: int) returns (r: int)
      requires Valid() && MayCall(table, CallMemalign(alignment, bytes)) && Fit(CallMemalign(alignment, bytes))
      modifies this, heap
      ensures Valid() && Means(CallMemalign(alignment, bytes), old(table), table, r)
    {
      ghost var h, m := heap.h, heap.mem;
      if bytes < W31 && MemalignRequest(alignment, bytes) < W31 {
        FitMeans(MemalignRequest(alignment, bytes));
      }
      r := heap.Memalign(alignment, bytes);
      if r == 0 {
        Same(h, m, heap.h, heap.mem, table);
      } else {
        AddedBlock(h, m, heap.h, heap.mem, table, r, bytes);
        table := table + [Live(r, bytes, map[])];
      }
    }

    method DoFree(i: nat)
      requires Valid() && i < |table| && table[i].Live?
      modifies this, heap
      ensures Valid() && Means(CallFree(i), old(table), table, 0)
    {
      ghost var h, m := heap.h, heap.mem;
      assert EachOk(h, m, table, i);
      heap.Free(table[i].ptr);
      Replaced(h, m, heap.h, heap.mem, table, i, Freed);
      table := table[i := Freed];
    }

    method DoRealloc(i: nat, bytes: int) returns (r: int)
      requires Valid() && MayCall(table, CallRealloc(i, bytes)) && Fit(CallRealloc(i, bytes))
      modifies this, heap
      ensures Valid() && Means(CallRealloc(i, bytes), old(table), table, r)
    {
      ghost var h, m, b := heap.h, heap.mem, table[i];
      assert EachOk(h, m, table, i);
      FitForRealloc(i, bytes);
      r := heap.Realloc(table[i].ptr, bytes);
      if r == 0 {
        Same(h, m, heap.h, heap.mem, table);
      } else {
        assert AlignOk(heap.h, r - 8) && ChunkOk(heap.h, r - 8);
        heap.NoNull();
        ResizedWords(h, m, heap.h, heap.mem, b, r - 8, bytes);
        var b' := Live(r, bytes, Fitting(table[i].words, bytes));
        Replaced(h, m, heap.h, heap.mem, table, i, b');
        table := table[i := b'];
      }
    }

    method DoStore(i: nat, o: int, v: int)
      requires Valid() && Names(table, i, o)
      modifies this, heap
      ensures Valid() && Means(CallStore(i, o, v), old(table), table, 0)
    {
      ghost var h, m, b, a := heap.h, heap.mem, table[i], table[i].ptr - 8;
      var c := table[i].ptr + o;
      assert EachOk(h, m, table, i) && AlignOk(h, a);
      StoreKeepsRep(m, h, a, c, v);
      StoreKeepsOthers(m, h, a, c, v);
      StoredWords(h, m, b, o, v);
      heap.mem := heap.mem[c := v];
      var b' := table[i].(words := table[i].words[o := v]);
      assert Blocks(h) == (Blocks(h) - {a})[a := Blocks(h)[a]];
      Replaced(h, m, h, heap.mem, table, i, b');
      table := table[i := b'];
    }

    method DoLoad(i: nat, o: int) returns (r: int)
      requires Valid() && Names(table, i, o) && o in table[i].words
      ensures r == table[i].words[o]
    {
      assert EachOk(heap.h, heap.mem, table, i) && WordOk(heap.mem, table[i], o);
      r := Ld(heap.mem, table[i].ptr + o);
    }
  }
}
