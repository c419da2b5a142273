/** The sectors that an address range selects for erasing, over banks of flash in ascending order. */
module FlashRanges {
  import opened Words

  /** flash_info_t, as far as the range computation reads it: sector_count is |start|. */
  datatype Bank = Bank(known: bool, start: seq<int>, size: int)

  /** The last address of a bank, and of one of its sectors. */
  function BankEnd(b: Bank): int
    requires b.start != []
  {
    b.start[0] + b.size - 1
  }

  function SectorEnd(b: Bank, i: nat): int
    requires i < |b.start|
  {
    if i == |b.start| - 1 then BankEnd(b) else b.start[i + 1] - 1
  }

  /** The cast to short of the last sector's number is harmless up to 32768 sectors, and wrong for any more that a
      16-bit count can hold. */
  lemma ShortIsRight(n: int)
    requires 1 <= n <= 0xffff
    ensures Short(n - 1) == n - 1 <==> n <= 0x8000
  {
  }

  /** A bank that was found: sectors in ascending order that fill it, below the end of the address space. */
  ghost predicate BankOk(b: Bank) {
    && 1 <= |b.start| <= 0x8000 && 0 <= b.start[0] && b.size >= 1 && BankEnd(b) < W32
    && (forall i, j :: 0 <= i < j < |b.start| ==> b.start[i] < b.start[j])
    && b.start[|b.start| - 1] <= BankEnd(b)
  }

  /** Bank j is the next one found after bank i. */
  ghost predicate Follows(banks: seq<Bank>, i: int, j: int) {
    && 0 <= i < j < |banks| && banks[i].known && banks[j].known
    && forall m :: i < m < j ==> !banks[m].known
  }

  /** Banks in ascending order; a bank that was not found has no sectors. */
  ghost predicate Ascending(banks: seq<Bank>) {
    && (forall k :: 0 <= k < |banks| ==> if banks[k].known then BankOk(banks[k]) else banks[k].start == [])
    && (forall i, j :: 0 <= i < j < |banks| && banks[i].known && banks[j].known ==>
                         BankEnd(banks[i]) < banks[j].start[0])
  }

  /** They are contiguous. */
  ghost predicate BanksOk(banks: seq<Bank>) {
    && Ascending(banks)
    && (forall i, j {:trigger Follows(banks, i, j)} :: Follows(banks, i, j) ==>
                                                        banks[j].start[0] == BankEnd(banks[i]) + 1)
  }

  lemma SectorInBank(b: Bank, i: nat)
    requires BankOk(b) && i < |b.start|
    ensures b.start[0] <= b.start[i] <= SectorEnd(b, i) <= BankEnd(b)
    ensures i + 1 < |b.start| ==> SectorEnd(b, i) < b.start[i + 1]
  {
  }

  /** Sectors are told apart by where they start, and by where they end. */
  lemma SectorsApart(b: Bank, i: nat, j: nat)
    requires BankOk(b) && i < j < |b.start|
    ensures SectorEnd(b, i) < b.start[j]
  {
    SectorInBank(b, i);
    if i + 1 < j {
      assert b.start[i + 1] < b.start[j];
    }
  }

  /** The sector of a bank that holds an address. */
  lemma HoldingSector(b: Bank, x: int) returns (i: nat)
    requires BankOk(b) && b.start[0] <= x <= BankEnd(b)
    ensures i < |b.start| && b.start[i] <= x <= SectorEnd(b, i)
  {
    i := 0;
    while i + 1 < |b.start| && b.start[i + 1] <= x
      invariant i < |b.start| && b.start[i] <= x
    {
      i := i + 1;
    }
  }

  // ----- what is selected -----

  /** Sector i of bank k is selected and holds address x. */
  ghost predicate HoldsAt(banks: seq<Bank>, sf: seq<int>, sl: seq<int>, k: int, i: int, x: int) {
    && 0 <= k < |banks| && k < |sf| && k < |sl| && 0 <= sf[k] <= i <= sl[k] && i < |banks[k].start|
    && banks[k].start[i] <= x <= SectorEnd(banks[k], i)
  }

  ghost predicate Selected(banks: seq<Bank>, sf: seq<int>, sl: seq<int>, x: int) {
    exists k, i :: HoldsAt(banks, sf, sl, k, i, x)
  }

  /** The number of sectors selected in the first n banks. */
  function Count(sf: seq<int>, sl: seq<int>, n: nat): int
    requires n <= |sf| && n <= |sl|
  {
    if n == 0 then 0 else Count(sf, sl, n - 1) + if sf[n - 1] >= 0 then sl[n - 1] - sf[n - 1] + 1 else 0
  }

  lemma {:induction false} CountSame(sf: seq<int>, sl: seq<int>, sf': seq<int>, sl': seq<int>, n: nat)
    requires n <= |sf| && n <= |sl| && n <= |sf'| && n <= |sl'| && sf[..n] == sf'[..n] && sl[..n] == sl'[..n]
    ensures Count(sf, sl, n) == Count(sf', sl', n)
  {
    if n > 0 {
      assert sf[..n - 1] == sf[..n][..n - 1] && sf'[..n - 1] == sf'[..n][..n - 1];
      assert sl[..n - 1] == sl[..n][..n - 1] && sl'[..n - 1] == sl'[..n][..n - 1];
      assert sf[n - 1] == sf[..n][n - 1] && sf'[n - 1] == sf'[..n][n - 1];
      assert sl[n - 1] == sl[..n][n - 1] && sl'[n - 1] == sl'[..n][n - 1];
      CountSame(sf, sl, sf', sl', n - 1);
    }
  }

  /** Bank k selects the addresses from lo up to hi, or none. */
  ghost predicate BankSelects(banks: seq<Bank>, sf: seq<int>, sl: seq<int>, k: int, lo: int, hi: int) {
    && 0 <= k < |banks| && k < |sf| && k < |sl|
    && (sf[k] < 0 ==> lo == hi)
    && (sf[k] >= 0 ==>
          && sf[k] <= sl[k] < |banks[k].start|
          && lo == banks[k].start[sf[k]] && hi == SectorEnd(banks[k], sl[k]) + 1)
  }

  lemma BankSelectsRange(banks: seq<Bank>, sf: seq<int>, sl: seq<int>, k: int, lo: int, hi: int, x: int)
    requires BanksOk(banks) && BankSelects(banks, sf, sl, k, lo, hi)
    ensures lo <= x < hi <==> exists i :: HoldsAt(banks, sf, sl, k, i, x)
  {
    if sf[k] >= 0 {
      var b := banks[k];
      SectorInBank(b, sf[k]);
      SectorInBank(b, sl[k]);
      if lo <= x < hi {
        var i := HoldingSector(b, x);
        if i < sf[k] {
          SectorsApart(b, i, sf[k]);
        }
        if sl[k] < i {
          SectorsApart(b, sl[k], i);
        }
        assert HoldsAt(banks, sf, sl, k, i, x);
      }
      forall i | HoldsAt(banks, sf, sl, k, i, x) ensures lo <= x < hi {
        if sf[k] < i {
          SectorsApart(b, sf[k], i);
        }
        if i < sl[k] {
          SectorsApart(b, i, sl[k]);
        }
      }
    }
  }

  // ----- the scan of one bank -----

  /** The sector that starts at addr_first and the one that ends at addr_last, each -1 if there is none. */
  method ScanBank(b: Bank, addr_first: int, addr_last: int) returns (s_first: int, s_last: int)
    requires BankOk(b) && 0 <= addr_first <= addr_last < W32
    ensures -1 <= s_first < |b.start| && -1 <= s_last < |b.start|
    ensures s_first >= 0 ==> b.start[s_first] == addr_first
    ensures s_first < 0 ==> forall i :: 0 <= i < |b.start| ==> b.start[i] != addr_first
    ensures s_last >= 0 ==> SectorEnd(b, s_last) == addr_last
    ensures s_last < 0 ==> forall i :: 0 <= i < |b.start| ==> SectorEnd(b, i) != addr_last
  {
    var b_end := U32(b.start[0] + b.size - 1);
    var s_end := Short(|b.start| - 1);
    ShortIsRight(|b.start|);
    s_first, s_last := -1, -1;
    for sect := 0 to |b.start|
      invariant -1 <= s_first < sect && -1 <= s_last < sect
      invariant s_first >= 0 ==> b.start[s_first] == addr_first
      invariant s_first < 0 ==> forall i :: 0 <= i < sect ==> b.start[i] != addr_first
      invariant s_last >= 0 ==> SectorEnd(b, s_last) == addr_last
      invariant s_last < 0 ==> forall i :: 0 <= i < sect ==> SectorEnd(b, i) != addr_last
    {
      SectorInBank(b, sect);
      var end := if sect == s_end then b_end else U32(b.start[sect + 1] - 1);
      if addr_first > end {
        continue;
      }
      if addr_last < b.start[sect] {
        continue;
      }
      if addr_first == b.start[sect] {
        s_first := sect;
      }
      if addr_last == end {
        s_last := sect;
      }
    }
  }

  // ----- addresses that start and end sectors -----

  ghost predicate StartsAt(banks: seq<Bank>, k: int, i: int, x: int) {
    0 <= k < |banks| && banks[k].known && 0 <= i < |banks[k].start| && banks[k].start[i] == x
  }

  ghost predicate EndsAt(banks: seq<Bank>, k: int, i: int, x: int) {
    0 <= k < |banks| && banks[k].known && 0 <= i < |banks[k].start| && SectorEnd(banks[k], i) == x
  }

  ghost predicate StartsSector(banks: seq<Bank>, x: int) {
    exists k, i :: StartsAt(banks, k, i, x)
  }

  ghost predicate EndsSector(banks: seq<Bank>, x: int) {
    exists k, i :: EndsAt(banks, k, i, x)
  }

  /** The last address of the flash, or -1 if no bank was found. */
  function FlashEnd(banks: seq<Bank>): int {
    if banks == [] then -1
    else
      var b := banks[|banks| - 1];
      if b.known && b.start != [] then BankEnd(b) else FlashEnd(banks[..|banks| - 1])
  }

  lemma {:induction false} FlashEndIs(banks: seq<Bank>)
    requires Ascending(banks)
    ensures forall k :: 0 <= k < |banks| && banks[k].known ==> BankEnd(banks[k]) <= FlashEnd(banks)
    ensures FlashEnd(banks) ==
              -1 || exists k :: 0 <= k < |banks| && banks[k].known && BankEnd(banks[k]) == FlashEnd(banks)
  {
    if banks != [] {
      var n := |banks| - 1;
      var b := banks[n];
      if b.known {
        forall k | 0 <= k < n && banks[k].known ensures BankEnd(banks[k]) <= BankEnd(b) {
          SectorInBank(b, 0);
        }
      } else {
        FlashEndIs(banks[..n]);
        if FlashEnd(banks) != -1 {
          var k :| 0 <= k < n && banks[..n][k].known && BankEnd(banks[..n][k]) == FlashEnd(banks[..n]);
          assert banks[k].known && BankEnd(banks[k]) == FlashEnd(banks);
        }
        forall k | 0 <= k < |banks| && banks[k].known ensures BankEnd(banks[k]) <= FlashEnd(banks) {
          assert banks[..n][k] == banks[k];
        }
      }
    }
  }

  /** A range that can be erased: from the start of a sector to the end of one, or past the end of the flash. */
  ghost predicate Erasable(banks: seq<Bank>, addr_first: int, addr_last: int) {
    && addr_first <= addr_last && StartsSector(banks, addr_first)
    && (EndsSector(banks, addr_last) || addr_last > FlashEnd(banks))
  }

  /** An address of one bank starts and ends no sector of another. */
  lemma InOneBank(banks: seq<Bank>, k: int, x: int)
    requires BanksOk(banks) && 0 <= k < |banks| && banks[k].known && banks[k].start[0] <= x <= BankEnd(banks[k])
    ensures StartsSector(banks, x) ==> exists i :: StartsAt(banks, k, i, x)
    ensures EndsSector(banks, x) ==> exists i :: EndsAt(banks, k, i, x)
    ensures x <= FlashEnd(banks)
  {
    FlashEndIs(banks);
    if StartsSector(banks, x) {
      var j, i :| StartsAt(banks, j, i, x);
      SectorInBank(banks[j], i);
      assert j == k;
    }
    if EndsSector(banks, x) {
      var j, i :| EndsAt(banks, j, i, x);
      SectorInBank(banks[j], i);
      assert j == k;
    }
  }

  // ----- the scan of all banks -----

  /** The first n banks select the addresses from lo up to hi. */
  ghost predicate SelectedIn(banks: seq<Bank>, sf: seq<int>, sl: seq<int>, n: int, x: int) {
    exists k, i :: k < n && HoldsAt(banks, sf, sl, k, i, x)
  }

  ghost predicate Selects(banks: seq<Bank>, sf: seq<int>, sl: seq<int>, n: int, lo: int, hi: int) {
    forall x {:trigger SelectedIn(banks, sf, sl, n, x)} :: SelectedIn(banks, sf, sl, n, x) <==> lo <= x < hi
  }

  lemma SelectsMore(banks: seq<Bank>, sf: seq<int>, sl: seq<int>, sf': seq<int>, sl': seq<int>, n: nat, a: int, lo: int,
                    hi: int)
    requires BanksOk(banks) && n < |banks| <= |sf| && |sl| == |sf| == |sf'| == |sl'|
    requires sf[..n] == sf'[..n] && sl[..n] == sl'[..n]
    requires Selects(banks, sf, sl, n, a, lo) && BankSelects(banks, sf', sl', n, lo, hi) && a <= lo <= hi
    ensures Selects(banks, sf', sl', n + 1, a, hi)
  {
    var n1 := n + 1;
    forall x ensures SelectedIn(banks, sf', sl', n1, x) <==> a <= x < hi {
      SameInFirst(banks, sf, sl, sf', sl', n, x);
      BankSelectsRange(banks, sf', sl', n, lo, hi, x);
      if SelectedIn(banks, sf', sl', n, x) {
        var k, i :| k < n && HoldsAt(banks, sf', sl', k, i, x);
        assert k < n1;
      }
      if lo <= x < hi {
        var i :| HoldsAt(banks, sf', sl', n, i, x);
      }
      if SelectedIn(banks, sf', sl', n1, x) && !SelectedIn(banks, sf', sl', n, x) {
        var k, i :| k < n1 && HoldsAt(banks, sf', sl', k, i, x);
        assert k == n;
      }
    }
  }

  lemma SameInFirst(banks: seq<Bank>, sf: seq<int>, sl: seq<int>, sf': seq<int>, sl': seq<int>, n: nat, x: int)
    requires n < |banks| <= |sf| && |sl| == |sf| == |sf'| == |sl'|
    requires sf[..n] == sf'[..n] && sl[..n] == sl'[..n]
    ensures SelectedIn(banks, sf, sl, n, x) <==> SelectedIn(banks, sf', sl', n, x)
  {
    forall k, i | k < n ensures HoldsAt(banks, sf, sl, k, i, x) <==> HoldsAt(banks, sf', sl', k, i, x) {
      if 0 <= k {
        assert sf[k] == sf[..n][k] == sf'[k] && sl[k] == sl[..n][k] == sl'[k];
      }
    }
  }

  /** The state before bank n: a is the next address to select, g the same before it wraps, and h the last bank
      with a selected sector, or -1. */
  ghost predicate Progress(banks: seq<Bank>, a0: int, z: int, sf: seq<int>, sl: seq<int>, n: nat,
                           a: int, g: int, h: int, count: int) {
    && n <= |banks| == |sf| == |sl| && (forall k :: n <= k < |banks| ==> sf[k] == -1 == sl[k])
    && count == Count(sf, sl, n) && Selects(banks, sf, sl, n, a0, g) && a == U32(g) && 0 <= a0 < W32 && 0 <= z < W32
    && if h < 0 then g == a0 && count == 0 && forall k, i :: k < n ==> !StartsAt(banks, k, i, a0)
       else
         && h < n && banks[h].known && banks[h].start != [] && count > 0
         && StartsSector(banks, a0) && a0 < g <= BankEnd(banks[h]) + 1
         && (forall m :: h < m < n ==> !banks[m].known)
         && if g <= z then g == BankEnd(banks[h]) + 1 else g == z + 1 && EndsSector(banks, z)
  }

  /** What the scan of a bank finds. */
  ghost predicate Scanned(b: Bank, a: int, z: int, f: int, l: int) {
    && BankOk(b) && 0 <= a <= z < W32 && -1 <= f < |b.start| && -1 <= l < |b.start|
    && (if f >= 0 then b.start[f] == a else forall i :: 0 <= i < |b.start| ==> b.start[i] != a)
    && (if l >= 0 then SectorEnd(b, l) == z else forall i :: 0 <= i < |b.start| ==> SectorEnd(b, i) != z)
  }

  /** While there is more to select and another bank, the address has not wrapped and is that of its start. */
  lemma NextBank(banks: seq<Bank>, a0: int, z: int, sf: seq<int>, sl: seq<int>, n: nat, a: int, g: int, h: int,
                 count: int)
    requires BanksOk(banks) && Progress(banks, a0, z, sf, sl, n, a, g, h, count)
    requires n < |banks| && banks[n].known && a <= z
    ensures a == g && (h >= 0 ==> g <= z && a == banks[n].start[0])
  {
    SectorInBank(banks[n], 0);
    if h >= 0 {
      assert Follows(banks, h, n);
    }
  }

  lemma StepSkip(banks: seq<Bank>, a0: int, z: int, sf: seq<int>, sl: seq<int>, n: nat, a: int, g: int, h: int,
                 count: int)
    requires BanksOk(banks) && Progress(banks, a0, z, sf, sl, n, a, g, h, count)
    requires n < |banks| && (!banks[n].known || (h < 0 && forall i :: !StartsAt(banks, n, i, a0)))
    ensures Progress(banks, a0, z, sf, sl, n + 1, a, g, h, count)
  {
    SelectsMore(banks, sf, sl, sf, sl, n, a0, g, g);
  }

  /** A bank where the start is found: the last sector is the one that ends the range, or the bank's last. */
  lemma StepHit(banks: seq<Bank>, a0: int, z: int, sf: seq<int>, sl: seq<int>, n: nat,
                a: int, g: int, h: int, count: int, f: int, l: int, last: int)
    requires BanksOk(banks) && Progress(banks, a0, z, sf, sl, n, a, g, h, count)
    requires n < |banks| && banks[n].known && Scanned(banks[n], a, z, f, l) && f >= 0
    requires if l >= 0 then last == l else z > BankEnd(banks[n]) && last == |banks[n].start| - 1
    ensures f <= last
    ensures var e := SectorEnd(banks[n], last) + 1;
            Progress(banks, a0, z, sf[n := f], sl[n := last], n + 1, U32(e), e, n, count + last - f + 1)
  {
    var b, e := banks[n], SectorEnd(banks[n], last) + 1;
    NextBank(banks, a0, z, sf, sl, n, a, g, h, count);
    SectorInBank(b, last);
    SectorInBank(b, f);
    InOrder(b, f, last);
    HitRange(b, f, last);
    var sf', sl' := sf[n := f], sl[n := last];
    assert sf'[..n] == sf[..n] && sl'[..n] == sl[..n];
    CountSame(sf, sl, sf', sl', n);
    SelectsMore(banks, sf, sl, sf', sl', n, a0, g, e);
    if h < 0 {
      assert StartsAt(banks, n, f, a0);
    }
    if l >= 0 {
      assert EndsAt(banks, n, l, z);
    }
  }

  lemma InOrder(b: Bank, f: nat, l: nat)
    requires BankOk(b) && f < |b.start| && l < |b.start| && b.start[f] <= SectorEnd(b, l)
    ensures f <= l
  {
    SectorInBank(b, l);
    assert forall i, j :: 0 <= i < j < |b.start| ==> b.start[i] < b.start[j];
  }

  lemma HitRange(b: Bank, f: nat, l: nat)
    requires BankOk(b) && f <= l < |b.start|
    ensures b.start[f] < SectorEnd(b, l) + 1
  {
    SectorInBank(b, f);
    if f < l {
      SectorsApart(b, f, l);
      SectorInBank(b, l);
    }
  }

  // ----- the errors -----

  /** "end address not on sector boundary" */
  lemma BadEnd(banks: seq<Bank>, a0: int, z: int, n: nat, a: int, f: int)
    requires BanksOk(banks) && n < |banks| && banks[n].known && Scanned(banks[n], a, z, f, -1) && f >= 0
    requires z <= BankEnd(banks[n])
    ensures !Erasable(banks, a0, z)
  {
    SectorInBank(banks[n], f);
    InOneBank(banks, n, z);
  }

  /** "start address not on sector boundary", and a range that begins before this bank but not on a boundary */
  lemma BadStart(banks: seq<Bank>, a0: int, z: int, sf: seq<int>, sl: seq<int>, n: nat,
                 a: int, g: int, h: int, count: int, l: int)
    requires BanksOk(banks) && Progress(banks, a0, z, sf, sl, n, a, g, h, count)
    requires n < |banks| && banks[n].known && Scanned(banks[n], a, z, -1, l)
    ensures h < 0 && a == a0
    ensures l >= 0 || banks[n].start[0] <= a < BankEnd(banks[n]) ==> !Erasable(banks, a0, z)
    ensures forall i :: !StartsAt(banks, n, i, a0)
  {
    var b := banks[n];
    NextBank(banks, a0, z, sf, sl, n, a, g, h, count);
    if l >= 0 {
      SectorInBank(b, l);
      if StartsSector(banks, a0) {
        var k, i :| StartsAt(banks, k, i, a0);
        SectorInBank(banks[k], i);
      }
    } else if b.start[0] <= a < BankEnd(b) {
      InOneBank(banks, n, a0);
    }
  }

  /** When all banks are done. */
  lemma AtTheEnd(banks: seq<Bank>, a0: int, z: int, sf: seq<int>, sl: seq<int>, n: nat, a: int, g: int, h: int,
                 count: int)
    requires BanksOk(banks) && Progress(banks, a0, z, sf, sl, n, a, g, h, count) && (n == |banks| || a > z)
    ensures count > 0 <==> Erasable(banks, a0, z)
    ensures count > 0 ==>
              count == Count(sf, sl, |banks|) && g - 1 == (if z < FlashEnd(banks) then z else FlashEnd(banks))
    ensures count > 0 ==> forall x :: Selected(banks, sf, sl, x) <==> a0 <= x < g
  {
    FlashEndIs(banks);
    NoMore(sf, sl, n);
    if h >= 0 {
      forall x ensures Selected(banks, sf, sl, x) <==> a0 <= x < g {
        assert SelectedIn(banks, sf, sl, n, x) <==> a0 <= x < g;
        OnlyFirst(banks, sf, sl, n, x);
      }
      if g <= z {
        LastBank(banks, h);
      } else {
        var k, i :| EndsAt(banks, k, i, z);
        SectorInBank(banks[k], i);
      }
    }
  }

  lemma {:induction false} NoMore(sf: seq<int>, sl: seq<int>, n: nat)
    requires n <= |sf| == |sl| && forall k :: n <= k < |sf| ==> sf[k] == -1
    ensures Count(sf, sl, |sf|) == Count(sf, sl, n)
  {
    NoMoreUpTo(sf, sl, n, |sf|);
  }

  lemma {:induction false} NoMoreUpTo(sf: seq<int>, sl: seq<int>, n: nat, m: nat)
    requires n <= m <= |sf| == |sl| && forall k :: n <= k < |sf| ==> sf[k] == -1
    ensures Count(sf, sl, m) == Count(sf, sl, n)
    decreases m
  {
    if n < m {
      NoMoreUpTo(sf, sl, n, m - 1);
    }
  }

  lemma OnlyFirst(banks: seq<Bank>, sf: seq<int>, sl: seq<int>, n: nat, x: int)
    requires n <= |banks| == |sf| == |sl| && forall k :: n <= k < |banks| ==> sf[k] == -1
    ensures Selected(banks, sf, sl, x) <==> SelectedIn(banks, sf, sl, n, x)
  {
    if Selected(banks, sf, sl, x) {
      var k, i :| HoldsAt(banks, sf, sl, k, i, x);
      assert k < n;
    }
    if SelectedIn(banks, sf, sl, n, x) {
      var k, i :| k < n && HoldsAt(banks, sf, sl, k, i, x);
    }
  }

  lemma LastBank(banks: seq<Bank>, h: nat)
    requires Ascending(banks) && h < |banks| && banks[h].known && forall m :: h < m < |banks| ==> !banks[m].known
    ensures FlashEnd(banks) == BankEnd(banks[h])
  {
    FlashEndIs(banks);
    SectorInBank(banks[h], 0);
  }

  // ----- the methods -----

  /** flash_fill_sect_ranges: 0 and a count above zero exactly for an erasable range, and then the sectors
      selected tile it, as far as there is flash. */
  method FillSectRanges(banks: seq<Bank>, addr_first0: int, addr_last: int, s_first: array<int>, s_last: array<int>)
    returns (rcode: int, s_count: int)
    requires BanksOk(banks) && 0 <= addr_first0 < W32 && 0 <= addr_last < W32
    requires s_first != s_last && s_first.Length == s_last.Length == |banks|
    modifies s_first, s_last
    ensures rcode == 0 && s_count > 0 <==> Erasable(banks, addr_first0, addr_last)
    ensures rcode == 0 && s_count > 0 ==> s_count == Count(s_first[..], s_last[..], |banks|)
    ensures rcode == 0 && s_count > 0 ==>
              var end := if addr_last < FlashEnd(banks) then addr_last else FlashEnd(banks);
              forall x :: Selected(banks, s_first[..], s_last[..], x) <==> addr_first0 <= x <= end
  {
    s_count, rcode := 0, 0;
    Clear(s_first);
    Clear(s_last);
    var addr_first, bank := addr_first0, 0;
    ghost var g, h := addr_first0, -1;
    NothingYet(banks, s_first[..], s_last[..], addr_first0);
    while bank < |banks| && addr_first <= addr_last
      invariant 0 <= bank <= |banks| && rcode == 0
      invariant Progress(banks, addr_first0, addr_last, s_first[..], s_last[..], bank, addr_first, g, h, s_count)
    {
      if banks[bank].known {
        rcode, addr_first, s_count, g, h :=
          OneBank(banks, bank, addr_first0, addr_first, addr_last, s_first, s_last, s_count, g, h);
        if rcode != 0 {
          return;
        }
      } else {
        StepSkip(banks, addr_first0, addr_last, s_first[..], s_last[..], bank, addr_first, g, h, s_count);
      }
      bank := bank + 1;
    }
    AtTheEnd(banks, addr_first0, addr_last, s_first[..], s_last[..], bank, addr_first, g, h, s_count);
  }

  method Clear(a: array<int>)
    modifies a
    ensures a[..] == seq(a.Length, k => -1)
  {
    for k := 0 to a.Length
      invariant forall i :: 0 <= i < k ==> a[i] == -1
    {
      a[k] := -1;
    }
  }

  lemma NothingYet(banks: seq<Bank>, sf: seq<int>, sl: seq<int>, a0: int)
    requires |sf| == |sl| == |banks| && 0 <= a0 < W32
    ensures Selects(banks, sf, sl, 0, a0, a0)
  {
    forall x ensures SelectedIn(banks, sf, sl, 0, x) <==> a0 <= x < a0 {
    }
  }

  /** One bank: an error, or the state before the next. */
  method OneBank(banks: seq<Bank>, bank: nat, ghost a0: int, addr_first0: int, addr_last: int,
                 s_first: array<int>, s_last: array<int>, s_count0: int, ghost g0: int, ghost h0: int)
    returns (rcode: int, addr_first: int, s_count: int, ghost g: int, ghost h: int)
    requires BanksOk(banks) && s_first != s_last && bank < |banks| && banks[bank].known
    requires addr_first0 <= addr_last
    requires Progress(banks, a0, addr_last, s_first[..], s_last[..], bank, addr_first0, g0, h0, s_count0)
    modifies s_first, s_last
    ensures rcode != 0 ==> !Erasable(banks, a0, addr_last)
    ensures rcode == 0 ==> Progress(banks, a0, addr_last, s_first[..], s_last[..], bank + 1, addr_first, g, h, s_count)
  {
    rcode, addr_first, s_count, g, h := 0, addr_first0, s_count0, g0, h0;
    var b := banks[bank];
    ghost var sf, sl := s_first[..], s_last[..];
    var b_end := U32(b.start[0] + b.size - 1);
    var s_end := Short(|b.start| - 1);
    ShortIsRight(|b.start|);
    var first, last := ScanBank(b, addr_first, addr_last);
    ghost var l := last;
    if first >= 0 {
      if last < 0 {
        if addr_last > b_end {
          last := s_end;
        } else {
          BadEnd(banks, a0, addr_last, bank, addr_first, first);
          rcode := 1;
          return;
        }
      }
      rcode, addr_first, s_count :=
        TakeSectors(banks, bank, a0, addr_first, addr_last, s_first, s_last, s_count, g, h, first, last, l);
      g, h := SectorEnd(b, last) + 1, bank;
    } else {
      BadStart(banks, a0, addr_last, sf, sl, bank, addr_first, g, h, s_count, l);
      if addr_first >= b.start[0] && addr_first < b_end {
        rcode := 1;
      } else if last >= 0 {
        rcode := 1;
      } else {
        StepSkip(banks, a0, addr_last, sf, sl, bank, addr_first, g, h, s_count);
      }
    }
  }

  /** The sectors found in a bank, and where the range goes on. */
  method TakeSectors(banks: seq<Bank>, bank: nat, ghost a0: int, addr_first0: int, ghost z: int,
                     s_first: array<int>, s_last: array<int>, s_count0: int, ghost g0: int, ghost h0: int,
                     first: int, last: int, ghost l: int)
    returns (rcode: int, addr_first: int, s_count: int)
    requires BanksOk(banks) && s_first != s_last && bank < |banks| && banks[bank].known
    requires Progress(banks, a0, z, s_first[..], s_last[..], bank, addr_first0, g0, h0, s_count0)
    requires Scanned(banks[bank], addr_first0, z, first, l) && first >= 0
    requires if l >= 0 then last == l else z > BankEnd(banks[bank]) && last == |banks[bank].start| - 1
    modifies s_first, s_last
    ensures rcode == 0
    ensures var e := SectorEnd(banks[bank], last) + 1;
            Progress(banks, a0, z, s_first[..], s_last[..], bank + 1, addr_first, e, bank, s_count)
  {
    var b := banks[bank];
    StepHit(banks, a0, z, s_first[..], s_last[..], bank, addr_first0, g0, h0, s_count0, first, l, last);
    ghost var sf, sl := s_first[..][bank := first], s_last[..][bank := last];
    rcode := 0;
    s_first[bank], s_last[bank] := first, last;
    assert s_first[..] == sf && s_last[..] == sl;
    if last < first {
      assert false;
    }
    var s_end := Short(|b.start| - 1);
    ShortIsRight(|b.start|);
    addr_first := if last == s_end then U32(U32(b.start[0] + b.size - 1) + 1) else b.start[last + 1];
    s_count := s_count0 + (last - first + 1);
  }

  // ----- start +length -----

  ghost predicate InSector(banks: seq<Bank>, k: int, i: int, x: int) {
    && 0 <= k < |banks| && banks[k].known && 0 <= i < |banks[k].start|
    && banks[k].start[i] <= x <= SectorEnd(banks[k], i)
  }

  lemma OneSector(banks: seq<Bank>, k: int, i: int, k': int, i': int, x: int)
    requires BanksOk(banks) && InSector(banks, k, i, x) && InSector(banks, k', i', x)
    ensures k == k' && i == i'
  {
    SectorInBank(banks[k], i);
    SectorInBank(banks[k'], i');
    if k == k' {
      if i < i' {
        SectorsApart(banks[k], i, i');
      } else if i' < i {
        SectorsApart(banks[k], i', i);
      }
    }
  }

  ghost predicate InSomeSector(banks: seq<Bank>, x: int) {
    exists k, i :: InSector(banks, k, i, x)
  }

  /** addr_spec for `start +length`: the end of the sector that holds the last byte, or -1 when there is none. */
  method EndOfLength(banks: seq<Bank>, addr_first: int, len: int) returns (ok: bool, addr_last: int)
    requires BanksOk(banks) && 0 <= addr_first < W32 && 0 <= len < W32
    ensures ok <==> InSomeSector(banks, U32(addr_first + len - 1))
    ensures ok ==> Found(banks, U32(addr_first + len - 1), addr_last)
  {
    addr_last, ok := U32(addr_first + len - 1), false;
    ghost var x := addr_last;
    var bank := 0;
    while bank < |banks| && !ok
      invariant 0 <= bank <= |banks|
      invariant if ok then Found(banks, x, addr_last)
                else addr_last == x && forall k, i :: k < bank ==> !InSector(banks, k, i, x)
    {
      if banks[bank].known {
        ok, addr_last := EndInBank(banks, bank, addr_last);
      }
      bank := bank + 1;
    }
  }

  ghost predicate Found(banks: seq<Bank>, x: int, end: int) {
    exists k, i :: InSector(banks, k, i, x) && end == SectorEnd(banks[k], i)
  }

  /** There is one such end. */
  lemma FoundIsUnique(banks: seq<Bank>, x: int, end: int, end': int)
    requires BanksOk(banks) && Found(banks, x, end) && Found(banks, x, end')
    ensures end == end'
  {
    var k, i :| InSector(banks, k, i, x) && end == SectorEnd(banks[k], i);
    var k', i' :| InSector(banks, k', i', x) && end' == SectorEnd(banks[k'], i');
    OneSector(banks, k, i, k', i', x);
  }

  method EndInBank(banks: seq<Bank>, bank: nat, addr_last0: int) returns (found: bool, addr_last: int)
    requires BanksOk(banks) && bank < |banks| && banks[bank].known && 0 <= addr_last0 < W32
    ensures if found then Found(banks, addr_last0, addr_last)
            else addr_last == addr_last0 && forall i :: !InSector(banks, bank, i, addr_last0)
  {
    found, addr_last := false, addr_last0;
    var b, i := banks[bank], 0;
    while i < |b.start| && !found
      invariant 0 <= i <= |b.start|
      invariant if found then Found(banks, addr_last0, addr_last)
                else addr_last == addr_last0 && forall j :: j < i ==> !InSector(banks, bank, j, addr_last0)
    {
      SectorInBank(b, i);
      var sector_end_addr := if i == |b.start| - 1 then U32(b.start[0] + b.size - 1) else U32(b.start[i + 1] - 1);
      if addr_last <= sector_end_addr && addr_last >= b.start[i] {
        found := true;
        assert InSector(banks, bank, i, addr_last0);
        if addr_last < sector_end_addr {
          addr_last := sector_end_addr;
        }
      }
      i := i + 1;
    }
  }

  /** Every sector that starts by `end` starts by x. */
  ghost predicate StartBy(banks: seq<Bank>, end: int, x: int) {
    forall k, i, s :: StartsAt(banks, k, i, s) && s <= end ==> s <= x
  }

  /** "start +length" from the start of a sector, with its last byte in flash, is accepted and can be erased, and
      the sectors selected are the fewest that cover it: each of them holds a byte of the range. */
  lemma LengthIsErasable(banks: seq<Bank>, addr_first: int, len: int, end: int)
    requires BanksOk(banks) && StartsSector(banks, addr_first) && 0 <= addr_first && 1 <= len
    requires addr_first + len - 1 <= FlashEnd(banks)
    requires Found(banks, addr_first + len - 1, end)
    ensures Erasable(banks, addr_first, end) && 0 <= end && addr_first + len - 1 <= end <= FlashEnd(banks)
    ensures StartBy(banks, end, addr_first + len - 1)
  {
    var x := addr_first + len - 1;
    var k, i :| InSector(banks, k, i, x) && end == SectorEnd(banks[k], i);
    assert EndsAt(banks, k, i, end);
    SectorInBank(banks[k], i);
    FlashEndIs(banks);
    NoneStartsAfter(banks, k, i, x);
  }

  /** Between a byte and the end of its sector no sector starts. */
  lemma NoneStartsAfter(banks: seq<Bank>, k: int, i: int, x: int)
    requires BanksOk(banks) && InSector(banks, k, i, x)
    ensures StartBy(banks, SectorEnd(banks[k], i), x)
  {
    SectorInBank(banks[k], i);
    forall m, j, s | StartsAt(banks, m, j, s) && s <= SectorEnd(banks[k], i) ensures s <= x {
      SectorInBank(banks[m], j);
      if m == k && i < j {
        SectorsApart(banks[k], i, j);
      }
    }
  }

  /** The last byte of a range that ends inside the flash is in a sector. */
  lemma {:induction false} LastByteInSector(banks: seq<Bank>, a: int, x: int)
    requires BanksOk(banks) && StartsSector(banks, a) && a <= x <= FlashEnd(banks)
    ensures InSomeSector(banks, x)
  {
    var k, i :| StartsAt(banks, k, i, a);
    SectorInBank(banks[k], i);
    var m := ReachBank(banks, k, x);
    var j := HoldingSector(banks[m], x);
    assert InSector(banks, m, j, x);
  }

  /** Banks follow one another without a gap: one of them, from k on, holds x. */
  lemma ReachBank(banks: seq<Bank>, k: nat, x: int) returns (m: nat)
    requires BanksOk(banks) && k < |banks| && banks[k].known && banks[k].start[0] <= x <= FlashEnd(banks)
    ensures m < |banks| && banks[m].known && banks[m].start[0] <= x <= BankEnd(banks[m])
    decreases |banks| - k
  {
    if x <= BankEnd(banks[k]) {
      m := k;
    } else {
      var n := NextKnown(banks, k);
      m := ReachBank(banks, n, x);
    }
  }

  /** The bank after one that is not the last. */
  lemma NextKnown(banks: seq<Bank>, k: nat) returns (n: nat)
    requires BanksOk(banks) && k < |banks| && banks[k].known && BankEnd(banks[k]) < FlashEnd(banks)
    ensures k < n < |banks| && banks[n].known && banks[n].start[0] == BankEnd(banks[k]) + 1
  {
    n := k + 1;
    while n < |banks| && !banks[n].known
      invariant k < n <= |banks| && forall m :: k < m < n ==> !banks[m].known
    {
      n := n + 1;
    }
    if n == |banks| {
      LastBank(banks, k);
    }
    assert Follows(banks, k, n);
  }

  /** erase start +length, up to the erasing itself. */
  method PlanLength(banks: seq<Bank>, addr_first: int, len: int, s_first: array<int>, s_last: array<int>)
    returns (ok: bool, s_count: int)
    requires BanksOk(banks) && 0 <= addr_first < W32 && 1 <= len < W32 && addr_first + len - 1 <= FlashEnd(banks)
    requires StartsSector(banks, addr_first)
    requires s_first != s_last && s_first.Length == s_last.Length == |banks|
    modifies s_first, s_last
    ensures ok && s_count > 0 && s_count == Count(s_first[..], s_last[..], |banks|)
    ensures forall x :: addr_first <= x < addr_first + len ==> Selected(banks, s_first[..], s_last[..], x)
    ensures forall k, i, x :: HoldsAt(banks, s_first[..], s_last[..], k, i, x) ==>
                                addr_first <= banks[k].start[i] <= addr_first + len - 1
  {
    ghost var x := addr_first + len - 1;
    FlashBelowTop(banks);
    LastByteInSector(banks, addr_first, x);
    var addr_last, rcode;
    ok, addr_last := EndOfLength(banks, addr_first, len);
    LengthIsErasable(banks, addr_first, len, addr_last);
    rcode, s_count := FillSectRanges(banks, addr_first, addr_last, s_first, s_last);
    EachHoldsAByte(banks, s_first[..], s_last[..], addr_first, addr_last, x);
  }

  lemma FlashBelowTop(banks: seq<Bank>)
    requires BanksOk(banks)
    ensures FlashEnd(banks) < W32
  {
    FlashEndIs(banks);
  }

  lemma EachHoldsAByte(banks: seq<Bank>, sf: seq<int>, sl: seq<int>, a: int, end: int, x: int)
    requires BanksOk(banks) && forall y :: Selected(banks, sf, sl, y) <==> a <= y <= end
    requires StartBy(banks, end, x)
    ensures forall k, i, y :: HoldsAt(banks, sf, sl, k, i, y) ==> a <= banks[k].start[i] <= x
  {
    forall k, i, y | HoldsAt(banks, sf, sl, k, i, y) ensures a <= banks[k].start[i] <= x {
      var s := banks[k].start[i];
      assert HoldsAt(banks, sf, sl, k, i, s);
      assert Selected(banks, sf, sl, s);
      assert StartsAt(banks, k, i, s);
    }
  }
}
