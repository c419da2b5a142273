/** The one-word index of possibly non-empty groups of four bins. */
module BinBlocks {
  import opened Words

  const BINBLOCKWIDTH: int := 4

  /** `w & Pow2(k)` is not zero. */
  predicate Marked(w: int, k: nat)
    decreases k
  {
    if k == 0 then w % 2 == 1 else Marked(w / 2, k - 1)
  }

  /** `w | Pow2(k)` */
  function Mark(w: int, k: nat): int
    decreases k
  {
    if k == 0 then w - w % 2 + 1 else w % 2 + 2 * Mark(w / 2, k - 1)
  }

  /** `w & ~Pow2(k)` */
  function Clear(w: int, k: nat): int
    decreases k
  {
    if k == 0 then w - w % 2 else w % 2 + 2 * Clear(w / 2, k - 1)
  }

  /** Marking a block marks it and no other, and stays within a word. */
  lemma {:induction false} MarkOne(w: int, k: nat, j: nat)
    ensures Marked(Mark(w, k), j) <==> j == k || Marked(w, j)
    ensures 0 <= w ==> 0 <= Mark(w, k)
    decreases k
  {
    if k > 0 {
      assert Mark(w, k) / 2 == Mark(w / 2, k - 1);
      MarkOne(w / 2, k - 1, if j == 0 then k else j - 1);
    }
  }

  /** Clearing a block leaves the others as they were. */
  lemma {:induction false} ClearOne(w: int, k: nat, j: nat)
    ensures Marked(Clear(w, k), j) <==> j != k && Marked(w, j)
    ensures 0 <= w ==> 0 <= Clear(w, k) <= w
    decreases k
  {
    if k > 0 {
      assert Clear(w, k) / 2 == Clear(w / 2, k - 1);
      ClearOne(w / 2, k - 1, if j == 0 then k else j - 1);
    }
  }

  /** A word at least the bit of an unmarked block is at least the next bit. */
  lemma {:induction false} SkipBlock(w: int, k: nat)
    requires Pow2(k) <= w && !Marked(w, k)
    ensures Pow2(k + 1) <= w
  {
    if k > 0 {
      SkipBlock(w / 2, k - 1);
    }
  }

  /** A word below the bit of a block has no mark from there on. */
  lemma {:induction false} NoHigherBlock(w: int, k: nat, j: nat)
    requires k <= j && 0 <= w < Pow2(k)
    ensures !Marked(w, j)
  {
    if k > 0 {
      NoHigherBlock(w / 2, k - 1, j - 1);
    } else if j > 0 {
      NoHigherBlock(w / 2, 0, j - 1);
    }
  }

  lemma {:induction false} MarkBound(w: int, k: nat, n: nat)
    requires k < n && 0 <= w < Pow2(n)
    ensures Mark(w, k) < Pow2(n)
  {
    if k > 0 {
      MarkBound(w / 2, k - 1, n - 1);
      assert Mark(w, k) == w % 2 + 2 * Mark(w / 2, k - 1);
    } else {
      assert Pow2(n) == 2 * Pow2(n - 1);
    }
  }

  /** A bit that a word reaches is one of the word's. */
  lemma BitInWord(w: int, k: nat)
    requires Pow2(k) <= w < W32
    ensures k < 32
  {
    WordPower();
    Pow2Grows(32, if k >= 32 then k else 32);
  }
}
