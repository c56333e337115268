/** Which block malloc hands out, and in which order the free lists stand after
    malloc and free: told from the heap before the call alone. */
module HeapOrder {
  import opened Bits
  import opened BuddyHeap
  import opened HeapTheorems
  import opened Sequences

  // ------------------------------------------------------------------------- malloc

  /** Splitting puts one right half in front of each bin below the block's. */
  lemma {:induction false} SplitBinsAt(h: Heap, p: nat, cur: nat, k: nat, i: nat)
    requires k <= cur <= |h.bins| && i < |h.bins|
    ensures |Split(h, p, cur, k).bins| == |h.bins|
    ensures Split(h, p, cur, k).bins[i] == if k <= i < cur then [p + Pow2(i)] + h.bins[i] else h.bins[i]
    decreases cur
  {
    if k < cur {
      SplitBinsAt(SplitOnce(h, p, cur - 1), p, cur - 1, k, i);
    }
  }

  /** The search finds a bin that is not above a fitting block's. */
  lemma FitFound(h: Heap, size: nat, b: nat, j: nat)
    requires Inv(h) && CanMalloc(h, size) && IsFree(h, b, j) && BlockLog(size) <= j
    ensures j < NUM_BINS && BlockLog(size) < |h.bins| == NUM_BINS
    ensures var m := FirstFit(h.bins, BlockLog(size));
            && m <= j && h.bins[m] != [] && IsFree(h, h.bins[m][0], m)
            && (var p := h.bins[m][0]; Malloc(h, size) == (Split(Take(h, p, m), p, m, BlockLog(size)), p))
  {
    assert BlockOk(h, b);
    hide Tiled, BoundsOk, BlockLog, Split, Take, GrowFor;
    BlockLogRange(size);
    var m := FirstFit(h.bins, BlockLog(size));
    assert b in h.bins[j];
    assert h.bins[m][0] in h.bins[m];
  }

  /** With a free block that is large enough, malloc takes the first block of the
      first bin that has one.  The block's bin loses its head, and every bin from
      the size class up to there, empty before, holds the half that was split off. */
  lemma MallocTakesFirst(h: Heap, size: nat, b: nat, j: nat)
    requires Inv(h) && CanMalloc(h, size) && IsFree(h, b, j) && BlockLog(size) <= j
    ensures var (g, p) := Malloc(h, size);
            var k := BlockLog(size);
            && g.end == h.end && p in h.blocks && !h.blocks[p].used
            && var m := h.blocks[p].log;
               && k <= m <= j && m < |h.bins| == |g.bins| == NUM_BINS && h.bins[m] != [] && h.bins[m][0] == p
               && forall i | 0 <= i < NUM_BINS ::
                    g.bins[i] == if i == m then h.bins[m][1..] else if k <= i < m then [p + Pow2(i)] else h.bins[i]
  {
    hide Inv, CanMalloc, Malloc, BlockLog, Pow2, Split;
    FitFound(h, size, b, j);
    MallocOk(h, size);
    var k := BlockLog(size);
    var m := FirstFit(h.bins, k);
    var p := h.bins[m][0];
    forall i | 0 <= i < NUM_BINS
      ensures |Split(Take(h, p, m), p, m, k).bins| == NUM_BINS
      ensures Split(Take(h, p, m), p, m, k).bins[i] ==
              if i == m then h.bins[m][1..] else if k <= i < m then [p + Pow2(i)] else h.bins[i]
    {
      SplitBinsAt(Take(h, p, m), p, m, k, i);
    }
    SplitEnd(Take(h, p, m), p, m, k);
  }

  lemma {:induction false} SplitEnd(h: Heap, p: nat, cur: nat, k: nat)
    requires cur <= |h.bins|
    ensures Split(h, p, cur, k).end == h.end
    decreases cur
  {
    if k < cur {
      SplitEnd(SplitOnce(h, p, cur - 1), p, cur - 1, k);
    }
  }

  /** Bin s with at most one block in front that is not below lo. */
  predicate OneMore(s: seq<nat>, t: seq<nat>, lo: nat) {
    t == s || (|t| == |s| + 1 && t[1..] == s && t[0] >= lo)
  }

  /** Growth stops at the first multiple of the size. */
  lemma {:induction false} GrowForPlace(h: Heap, k: nat)
    requires Inv(h) && GrowEnd(h.end, Pow2(k)) <= LIMIT
    ensures var (g, p, j) := GrowFor(h, Pow2(k));
            h.end <= p && Aligned(p, k) && j == LowLog(p) && g.end == p + LowBit(p)
    ensures forall a: nat | h.end <= a < GrowFor(h, Pow2(k)).1 :: !Aligned(a, k)
    decreases Pow2(k) - LowBit(h.end)
  {
    var e := h.end;
    LowBitCarry(e);
    if LowBit(e) < Pow2(k) {
      GrowOk(h);
      hide Inv, Aligned, Pow2, LowLog;
      GrowForPlace(Grow(h), k);
      forall a: nat | e <= a < GrowFor(h, Pow2(k)).1 ensures !Aligned(a, k) {
        if a < e + LowBit(e) {
          NoneBetween(e, a, k);
        }
      }
    } else {
      AlignedLowBit(e, k);
    }
  }

  lemma AlignedLowBit(e: nat, k: nat)
    requires e > 0 && LowBit(e) >= Pow2(k)
    ensures Aligned(e, k)
  {
    LowLogGreatest(e, k);
    if LowLog(e) < k {
      Pow2Mono(LowLog(e), k);
    }
  }

  lemma NoneBetween(e: nat, a: nat, k: nat)
    requires e > 0 && LowBit(e) < Pow2(k) && e <= a < e + LowBit(e)
    ensures !Aligned(a, k)
  {
    var j := LowLog(e);
    hide Aligned, Pow2, LowLog;
    LowLogGreatest(e, k);
    LowLogGreatest(e, j);
    if k <= j {
      Pow2Mono(k, j);
    } else if Aligned(a, k) && e < a {
      AlignedWeaken(a, j, k);
      AlignedGap(e, a, j);
    }
  }

  /** Each round of growth puts its block in front of a bin of its own. */
  lemma {:induction false} GrowForBins(h: Heap, k: nat, i: nat)
    requires Inv(h) && GrowEnd(h.end, Pow2(k)) <= LIMIT && i < NUM_BINS
    ensures var (g, p, j) := GrowFor(h, Pow2(k));
            && j < |g.bins| == |h.bins| == NUM_BINS && k <= j
            && (i < LowLog(h.end) ==> g.bins[i] == h.bins[i])
            && (i < k && i != j ==> OneMore(h.bins[i], g.bins[i], h.end))
            && (k <= i && i != j ==> g.bins[i] == h.bins[i])
            && g.bins[j] == [p] + h.bins[j]
    decreases Pow2(k) - LowBit(h.end)
  {
    var e := h.end;
    hide Tiled, Aligned, Pow2, LowLog;
    LowBitCarry(e);
    LogInRange(e);
    LowLogGreatest(e, k);
    if LowBit(e) < Pow2(k) {
      GrowOk(h);
      GrowForBins(Grow(h), k, i);
      if k <= LowLog(e) {
        Pow2Mono(k, LowLog(e));
      }
    } else {
      AlignedLowBit(e, k);
    }
  }

  lemma HeadIsFree(h: Heap, k: nat)
    requires BinsOk(h) && k < NUM_BINS && h.bins[k] != []
    ensures IsFree(h, h.bins[k][0], k)
  {
    assert h.bins[k][0] in h.bins[k];
  }

  lemma NothingFits(h: Heap, size: nat)
    requires Inv(h) && CanMalloc(h, size) && forall b: nat, j: nat | IsFree(h, b, j) :: j < BlockLog(size)
    ensures BlockLog(size) < |h.bins| == NUM_BINS && FirstFit(h.bins, BlockLog(size)) == NUM_BINS
  {
    hide Tiled, BoundsOk, BlockLog;
    BlockLogRange(size);
    var f := FirstFit(h.bins, BlockLog(size));
    if f < NUM_BINS {
      HeadIsFree(h, f);
    }
  }

  /** Behind the block that growth ends with, its bin is as it was; taking the
      block and splitting it leaves one new block at most in every bin. */
  lemma GrowsBinAt(h: Heap, k: nat, i: nat)
    requires Inv(h) && GrowEnd(h.end, Pow2(k)) <= LIMIT && i < NUM_BINS
    ensures var (g, p, j) := GrowFor(h, Pow2(k));
            && j < |g.bins| == |h.bins| == NUM_BINS
            && |Split(Take(g, p, j), p, j, k).bins| == NUM_BINS
            && OneMore(h.bins[i], Split(Take(g, p, j), p, j, k).bins[i], h.end)
  {
    assert h.end > 0;
    hide Inv, Pow2, GrowEnd, GrowFor, Split;
    GrowForBins(h, k, i);
    GrowForPlace(h, k);
    var (g, p, j) := GrowFor(h, Pow2(k));
    SplitBinsAt(Take(g, p, j), p, j, k, i);
  }

  /** Without one, malloc grows the heap: its result is the first multiple of the
      size from the heap's end on.  Every bin keeps its blocks in order, behind at
      most one new one. */
  lemma MallocGrows(h: Heap, size: nat)
    requires Inv(h) && CanMalloc(h, size) && forall b: nat, j: nat | IsFree(h, b, j) :: j < BlockLog(size)
    ensures var (g, p) := Malloc(h, size);
            var k := BlockLog(size);
            && h.end <= p && Aligned(p, k) && (forall a: nat | h.end <= a < p :: !Aligned(a, k))
            && p > 0 && g.end == p + LowBit(p)
            && |g.bins| == |h.bins| == NUM_BINS
            && forall i | 0 <= i < NUM_BINS :: OneMore(h.bins[i], g.bins[i], h.end)
  {
    hide Inv, BlockLog, Pow2, Aligned, LowBit, GrowEnd, GrowFor, Split, OneMore;
    NothingFits(h, size);
    var k := BlockLog(size);
    GrowForPlace(h, k);
    GrowForBins(h, k, 0);
    var (g, p, j) := GrowFor(h, Pow2(k));
    forall i | 0 <= i < NUM_BINS
      ensures |h.bins| == |Split(Take(g, p, j), p, j, k).bins| == NUM_BINS
      ensures OneMore(h.bins[i], Split(Take(g, p, j), p, j, k).bins[i], h.end)
    {
      GrowsBinAt(h, k, i);
    }
    SplitEnd(Take(g, p, j), p, j, k);
  }

  // --------------------------------------------------------------------------- free

  /** The elements outside the n bytes from lo, in order. */
  function Outside(s: seq<nat>, lo: nat, n: nat): seq<nat> {
    if s == [] then [] else (if lo <= s[0] < lo + n then [] else [s[0]]) + Outside(s[1..], lo, n)
  }

  lemma {:induction false} OutsideRemove(s: seq<nat>, x: nat, lo: nat, n: nat)
    requires lo <= x < lo + n
    ensures Outside(Remove(s, x), lo, n) == Outside(s, lo, n)
  {
    if s != [] && s[0] != x {
      OutsideRemove(s[1..], x, lo, n);
    }
  }

  lemma {:induction false} OutsideAll(s: seq<nat>, lo: nat, n: nat)
    requires forall x | x in s :: !(lo <= x < lo + n)
    ensures Outside(s, lo, n) == s
  {
    if s != [] {
      assert s[0] in s && forall x | x in s[1..] :: x in s;
      OutsideAll(s[1..], lo, n);
    }
  }

  /** Bin i of g: block b, of size 2^k, in front if it belongs there, and behind it
      what bin i of h has outside that block. */
  ghost predicate BinAfter(h: Heap, g: Heap, b: nat, k: nat, i: nat) {
    && i < |h.bins| && i < |g.bins|
    && g.bins[i] == (if i == k then [b] else []) + Outside(h.bins[i], b, Pow2(k))
  }

  lemma BinUnmerged(h: Heap, p: nat, k: nat, i: nat)
    requires Inv(h) && IsFree(h, p, k) && k < NUM_BINS && h.bins[k] != [] && h.bins[k][0] == p && i < NUM_BINS
    ensures BinAfter(h, h, p, k, i)
  {
    hide BoundsOk;
    var s := if i == k then h.bins[k][1..] else h.bins[i];
    forall x | x in s ensures !(p <= x < p + Pow2(k)) {
      assert x in h.bins[i];
      assert Apart(h, p, x) && BlockOk(h, x);
      assert i == k ==> x != p;
    }
    OutsideAll(s, p, Pow2(k));
    if i == k {
      assert h.bins[k] == [p] + s;
    }
  }

  lemma BinMerged(h: Heap, p: nat, k: nat, g: Heap, b: nat, j: nat, i: nat)
    requires k + 1 < |h.bins| && BinAfter(Merge(h, p, k), g, b, j, i)
    requires b <= p < b + Pow2(j) && b <= Buddy(p, k) < b + Pow2(j)
    ensures BinAfter(h, g, b, j, i)
  {
    hide Pow2, Buddy;
    OutsideRemove(h.bins[k], p, b, Pow2(j));
    OutsideRemove(Remove(h.bins[k], p), Buddy(p, k), b, Pow2(j));
  }

  lemma MergeHead(h: Heap, p: nat, k: nat)
    requires k + 1 < |h.bins|
    ensures |Merge(h, p, k).bins| == |h.bins|
    ensures Merge(h, p, k).bins[k + 1] != [] && Merge(h, p, k).bins[k + 1][0] == Lower(p, k)
  {
  }

  lemma {:induction false} CoalesceBins(h: Heap, p: nat, k: nat) returns (b: nat)
    requires Inv(h) && IsFree(h, p, k) && k < |h.bins| == NUM_BINS && h.bins[k] != [] && h.bins[k][0] == p
    ensures var g := Coalesce(h, p, k);
            && Contains(g, b, p) && !g.blocks[b].used && g.blocks[b].log >= k
            && forall i | 0 <= i < NUM_BINS :: BinAfter(h, g, b, g.blocks[b].log, i)
    decreases NUM_BINS - k
  {
    hide Inv, BinAfter, Merge, CoalescedBut, Live, Pow2, Buddy, Lower;
    CoalesceOk(h, p, k);
    var g := Coalesce(h, p, k);
    if IsFree(h, Buddy(p, k), k) {
      MergeOk(h, p, k);
      MergeHead(h, p, k);
      b := CoalesceBins(Merge(h, p, k), Lower(p, k), k + 1);
      AroundHalves(h, g, b, p, k);
      forall i | 0 <= i < NUM_BINS ensures BinAfter(h, g, b, g.blocks[b].log, i) {
        assert BinAfter(Merge(h, p, k), g, b, g.blocks[b].log, i);
        BinMerged(h, p, k, g, b, g.blocks[b].log, i);
      }
    } else {
      b := p;
      StartInside(h, p);
      forall i | 0 <= i < NUM_BINS ensures BinAfter(h, g, b, g.blocks[b].log, i) {
        BinUnmerged(h, p, k, i);
      }
    }
  }

  lemma StartInside(h: Heap, p: nat)
    requires p in h.blocks
    ensures Contains(h, p, p)
  {
  }

  /** A block around the union of two buddies is around both. */
  lemma AroundHalves(h: Heap, g: Heap, b: nat, p: nat, k: nat)
    requires Inv(h) && IsFree(h, p, k) && Inv(g) && Contains(g, b, Lower(p, k)) && g.blocks[b].log >= k + 1
    ensures Contains(g, b, p) && Contains(g, b, Buddy(p, k))
  {
    assert BlockOk(h, p);
    BuddyHalves(p, k);
    AroundBoth(g, b, p, k);
    AroundBoth(g, b, Buddy(p, k), k);
  }

  /** free: the block that results from coalescing is first of its bin, the free
      blocks it has taken up leave theirs, and nothing else moves. */
  lemma FreeBins(h: Heap, p: nat) returns (b: nat)
    requires Inv(h) && IsUsed(h, p)
    ensures var g := Free(h, p);
            && Contains(g, b, p) && !g.blocks[b].used
            && forall i | 0 <= i < NUM_BINS :: BinAfter(h, g, b, g.blocks[b].log, i)
  {
    ReleaseOk(h, p);
    var k := h.blocks[p].log;
    var r := Release(h, p);
    b := CoalesceBins(r, p, k);
    var g := Free(h, p);
    forall i | 0 <= i < NUM_BINS ensures BinAfter(h, g, b, g.blocks[b].log, i) {
      assert BinAfter(r, g, b, g.blocks[b].log, i);
      assert i == k ==> r.bins[i][1..] == h.bins[i];
    }
  }

  /** So what is freed and finds no free buddy is what malloc hands out next for
      that size class. */
  lemma FreedBlockNext(h: Heap, p: nat, size: nat)
    requires Inv(h) && Coalesced(h) && IsUsed(h, p) && BlockLog(size) == h.blocks[p].log && size < SIZE_RANGE
    requires !IsFree(h, Buddy(p, h.blocks[p].log), h.blocks[p].log)
    ensures Inv(Free(h, p)) && CanMalloc(Free(h, p), size) && Malloc(Free(h, p), size).1 == p
  {
    BuddyBack(h, p);
    hide Coalesced, BlockLog, Malloc, Tiled, BoundsOk, CanMalloc, Buddy;
    FreeOk(h, p);
    FreedBlockIsReused(h, p, size);
    ReleaseOk(h, p);
    var g := Free(h, p);
    assert g == Release(h, p);
    MallocTakesFirst(g, size, p, BlockLog(size));
  }
}
