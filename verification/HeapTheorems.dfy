/** What holds of the allocator's heap between calls, and across them. */
module HeapTheorems {
  import opened Bits
  import opened BuddyHeap

  // ------------------------------------------------ what realloc and calloc ask for

  /** What a reallocation of block p copies. */
  function CopySize(h: Heap, p: nat, size: nat): nat
    requires p in h.blocks
  {
    if size < Pow2(h.blocks[p].log) then size else Pow2(h.blocks[p].log)
  }

  /** The new block can take what is copied: the request is in the range malloc
      serves in full, or the old block is a single slot. */
  predicate CanCopy(h: Heap, p: nat, size: nat)
    requires p in h.blocks
  {
    size <= MAX_REQUEST || h.blocks[p].log == 4
  }

  /** This is exactly when the copy stays inside the new block. */
  lemma CopyFitsIff(h: Heap, p: nat, size: nat)
    requires Inv(h) && p in h.blocks && size < SIZE_RANGE
    ensures CopySize(h, p, size) <= Pow2(BlockLog(size)) <==> CanCopy(h, p, size)
  {
    assert BlockOk(h, p);
    BlockHoldsRequest(size);
    Pow2Values();
    Pow2Mono(4, BlockLog(size));
    if size > MAX_REQUEST {
      RequestWraps(size);
      Pow2Mono(h.blocks[p].log, 30);
      if h.blocks[p].log > 4 {
        Pow2Mono(4, h.blocks[p].log);
      }
    }
  }

  /** Otherwise the byte behind the new block is overwritten, and if the heap
      goes on there, another block loses it. */
  lemma CopyOverruns(h: Heap, p: nat, size: nat)
    requires Inv(h) && IsUsed(h, p) && CanMalloc(h, size) && !CanCopy(h, p, size)
    ensures var (g, q) := Malloc(h, size);
            && 16 < CopySize(h, p, size) && q in g.blocks && !Contains(g, q, q + 16)
            && (q + 16 < g.end ==> Covered(g, q + 16))
  {
    assert size < SIZE_RANGE;
    RequestWraps(size);
    CopyLarge(h, p, size);
    hide Inv, Malloc, CanMalloc, BlockLog, Pow2, Aligned, CopySize, CanCopy;
    var (g, q) := Malloc(h, size);
    MallocOk(h, size);
    assert q in Live(g) && Live(g)[q] == 4;
    SlotEnds(g, q);
  }

  lemma CopyLarge(h: Heap, p: nat, size: nat)
    requires Inv(h) && p in h.blocks && !CanCopy(h, p, size)
    ensures 16 < CopySize(h, p, size)
  {
    assert BlockOk(h, p);
    Pow2Values();
    Pow2Mono(4, h.blocks[p].log);
  }

  lemma SlotEnds(h: Heap, q: nat)
    requires Inv(h) && q in h.blocks && h.blocks[q].log == 4
    ensures !Contains(h, q, q + 16) && (q + 16 < h.end ==> Covered(h, q + 16))
  {
    assert BlockOk(h, q);
    Pow2Values();
  }

  /** The size calloc asks for: a 32-bit product. */
  function Total(num: nat, size: nat): (n: nat)
    ensures n < SIZE_RANGE
  {
    num * size % SIZE_RANGE
  }

  /** A zeroed block holds all its elements exactly when the product of their
      number and size is at most 2^31: above that, malloc gets too small a
      request or serves it with 16 bytes. */
  lemma CallocHoldsIff(num: nat, size: nat)
    ensures Pow2(BlockLog(Total(num, size))) >= num * size <==> num * size <= MAX_REQUEST
  {
    ProductFits(num * size);
  }

  /** What is asked for is the product, if that is below 2^32. */
  lemma TotalOfSmall(num: nat, size: nat)
    ensures num * size < SIZE_RANGE ==> Total(num, size) == num * size
  {
    SmallRemainder(num * size);
  }

  lemma SmallRemainder(n: nat)
    ensures n < SIZE_RANGE ==> n % SIZE_RANGE == n
  {
  }

  lemma ProductFits(n: nat)
    ensures Pow2(BlockLog(n % SIZE_RANGE)) >= n <==> n <= MAX_REQUEST
  {
    BlockHoldsRequest(n % SIZE_RANGE);
    BlockLogRange(n % SIZE_RANGE);
    Pow2Values();
    Pow2Mono(BlockLog(n % SIZE_RANGE), 31);
    if n < SIZE_RANGE {
      assert n % SIZE_RANGE == n;
    }
  }

  lemma MallocKeeps(h: Heap, size: nat, p: nat)
    requires Inv(h) && CanMalloc(h, size) && IsUsed(h, p)
    ensures Inv(Malloc(h, size).0) && IsUsed(Malloc(h, size).0, p)
    ensures Malloc(h, size).1 != p && Malloc(h, size).0.blocks[p] == h.blocks[p]
  {
    MallocOk(h, size);
    assert p in Live(h);
    assert p in Live(Malloc(h, size).0);
  }

  // --------------------------------------- the free blocks follow from the live ones

  /** x belongs to no live block. */
  ghost predicate Vacant(h: Heap, x: nat) {
    forall b | b in Live(h) :: !(b <= x < b + Pow2(Live(h)[b]))
  }

  /** An aligned interval of the heap, of size 2^k, that meets no live block. */
  ghost predicate VacantInterval(h: Heap, a: nat, k: nat) {
    && 4 <= k && Aligned(a, k) && h.lo <= a && a + Pow2(k) <= h.end
    && forall x: nat | a <= x < a + Pow2(k) :: Vacant(h, x)
  }

  ghost predicate InFreeBlock(h: Heap, b: nat, a: nat, k: nat) {
    Contains(h, b, a) && !h.blocks[b].used && h.blocks[b].log >= k
  }

  /** The two halves of an interval do not lie in two blocks of half its size:
      these would be free buddies. */
  lemma HalvesTogether(h: Heap, a: nat, k: nat, b: nat, c: nat)
    requires Tiled(h) && Coalesced(h) && Aligned(a, k + 1)
    requires InFreeBlock(h, b, a, k) && InFreeBlock(h, c, a + Pow2(k), k)
    ensures h.blocks[b].log > k || h.blocks[c].log > k
  {
    assert BlockOk(h, b) && BlockOk(h, c);
    hide Tiled, Coalesced, Aligned, Buddy;
    HalvesAreBuddies(a, k);
    if h.blocks[b].log == k && h.blocks[c].log == k {
      FloorUnique(b, a, k);
      FloorUnique(a, a, k);
      FloorUnique(c, a + Pow2(k), k);
      FloorUnique(a + Pow2(k), a + Pow2(k), k);
      NoPair(h, b);
    }
  }

  lemma VacantSlot(h: Heap, a: nat) returns (b: nat)
    requires Inv(h) && VacantInterval(h, a, 4)
    ensures InFreeBlock(h, b, a, 4)
  {
    b := BlockAt(h, a);
    assert Vacant(h, a);
    assert b !in Live(h);
  }

  /** Every vacant interval lies inside one free block: nothing stays split. */
  lemma {:induction false} VacantInOneBlock(h: Heap, a: nat, k: nat) returns (b: nat)
    requires Inv(h) && Coalesced(h) && VacantInterval(h, a, k)
    ensures InFreeBlock(h, b, a, k)
    decreases k
  {
    hide Tiled, BinsOk, Coalesced, Vacant, Aligned;
    if k == 4 {
      b := VacantSlot(h, a);
    } else {
      HalvesAreBuddies(a, k - 1);
      b := VacantInOneBlock(h, a, k - 1);
      var c := VacantInOneBlock(h, a + Pow2(k - 1), k - 1);
      HalvesTogether(h, a, k - 1, b, c);
      if h.blocks[b].log == k - 1 {
        BlockAligned(h, c);
        Nested(a, k, c, h.blocks[c].log);
        b := c;
      }
    }
  }

  lemma BlockAligned(h: Heap, b: nat)
    requires Inv(h) && b in h.blocks
    ensures Aligned(b, h.blocks[b].log)
  {
    assert BlockOk(h, b);
  }

  /** A vacant interval that no larger vacant interval contains. */
  ghost predicate MaximalVacant(h: Heap, a: nat, k: nat) {
    && VacantInterval(h, a, k)
    && forall b: nat, j: nat | VacantInterval(h, b, j) && b <= a < b + Pow2(j) :: j <= k
  }

  lemma FreeBlockVacant(h: Heap, a: nat, k: nat)
    requires Inv(h) && IsFree(h, a, k)
    ensures VacantInterval(h, a, k)
  {
    assert BlockOk(h, a);
    forall x: nat | a <= x < a + Pow2(k) ensures Vacant(h, x) {
      assert Contains(h, a, x);
      forall b | b in Live(h) ensures !(b <= x < b + Pow2(Live(h)[b])) {
        if Contains(h, b, x) {
          SameBlock(h, a, b, x);
        }
      }
    }
  }

  /** The free blocks are exactly the maximal vacant intervals. */
  lemma FreeIffMaximal(h: Heap, a: nat, k: nat)
    requires Inv(h) && Coalesced(h)
    ensures IsFree(h, a, k) <==> MaximalVacant(h, a, k)
  {
    if IsFree(h, a, k) {
      FreeBlockVacant(h, a, k);
      forall b: nat, j: nat | VacantInterval(h, b, j) && b <= a < b + Pow2(j) ensures j <= k {
        var c := VacantInOneBlock(h, b, j);
        assert BlockOk(h, c);
        Nested(b, j, c, h.blocks[c].log);
        assert Contains(h, a, a) && Contains(h, c, a);
        SameBlock(h, a, c, a);
      }
    }
    if MaximalVacant(h, a, k) {
      var b := VacantInOneBlock(h, a, k);
      FreeBlockVacant(h, b, h.blocks[b].log);
      FloorUnique(b, a, k);
      FloorUnique(a, a, k);
    }
  }

  lemma SameVacancy(h: Heap, g: Heap, a: nat, k: nat)
    requires h.lo == g.lo && h.end == g.end && Live(h) == Live(g)
    ensures VacantInterval(h, a, k) <==> VacantInterval(g, a, k)
    ensures MaximalVacant(h, a, k) <==> MaximalVacant(g, a, k)
  {
    assert forall x: nat :: Vacant(h, x) <==> Vacant(g, x);
    assert forall b: nat, j: nat :: VacantInterval(h, b, j) <==> VacantInterval(g, b, j);
  }

  /** The whole tiling is a function of the live blocks and the heap's end. */
  lemma LiveDeterminesBlocks(h: Heap, g: Heap)
    requires Inv(h) && Coalesced(h) && Inv(g) && Coalesced(g)
    requires h.lo == g.lo && h.end == g.end && Live(h) == Live(g)
    ensures h.blocks == g.blocks
    ensures forall k, b: nat | 0 <= k < NUM_BINS :: b in h.bins[k] <==> b in g.bins[k]
  {
    forall a: nat, k: nat ensures IsFree(h, a, k) <==> IsFree(g, a, k) {
      FreeIffMaximal(h, a, k);
      FreeIffMaximal(g, a, k);
      SameVacancy(h, g, a, k);
    }
    forall b: nat ensures b in h.blocks <==> b in g.blocks {
      SameMember(h, g, b);
      SameMember(g, h, b);
    }
    forall b | b in h.blocks ensures h.blocks[b] == g.blocks[b] {
      SameMember(h, g, b);
    }
  }

  lemma SameMember(h: Heap, g: Heap, b: nat)
    requires Live(h) == Live(g)
    requires forall a: nat, k: nat :: IsFree(h, a, k) <==> IsFree(g, a, k)
    ensures b in h.blocks ==> b in g.blocks && h.blocks[b] == g.blocks[b]
  {
    if b in h.blocks {
      if h.blocks[b].used {
        assert b in Live(h);
        assert b in Live(g);
      } else {
        assert IsFree(h, b, h.blocks[b].log);
      }
    }
  }

  // ------------------------------------------------------------- laws across calls

  /** malloc grows the heap exactly when no vacant interval of the needed size
      is left, wherever it may lie. */
  lemma GrowsIffNoRoom(h: Heap, size: nat)
    requires Inv(h) && Coalesced(h) && CanMalloc(h, size)
    ensures Malloc(h, size).0.end == h.end <==> exists a: nat :: VacantInterval(h, a, BlockLog(size))
    ensures Malloc(h, size).0.end > h.end <==> !exists a: nat :: VacantInterval(h, a, BlockLog(size))
  {
    hide Tiled, BoundsOk, Coalesced, Malloc, BlockLog, VacantInterval, Pow2;
    BlockLogRange(size);
    var k := BlockLog(size);
    var j := FirstFit(h.bins, k);
    MallocOk(h, size);
    forall a: nat | VacantInterval(h, a, k) ensures j < NUM_BINS {
      VacantFits(h, a, k);
    }
    if j < NUM_BINS {
      assert h.bins[j][0] in h.bins[j];
      VacantPart(h, h.bins[j][0], j, k);
    } else {
      GrowForOk(h, Pow2(k));
    }
  }

  /** A vacant interval is found by the search through the bins. */
  lemma VacantFits(h: Heap, a: nat, k: nat)
    requires Inv(h) && Coalesced(h) && VacantInterval(h, a, k) && k < NUM_BINS
    ensures |h.bins| == NUM_BINS && FirstFit(h.bins, k) < NUM_BINS
  {
    var b := VacantInOneBlock(h, a, k);
    assert BlockOk(h, b);
    hide Tiled, BoundsOk, Coalesced, VacantInterval, Aligned;
    assert b in h.bins[h.blocks[b].log];
  }

  /** A free block is vacant, and so is its first part of any smaller size. */
  lemma VacantPart(h: Heap, a: nat, j: nat, k: nat)
    requires Inv(h) && IsFree(h, a, j) && 4 <= k <= j
    ensures VacantInterval(h, a, k)
  {
    FreeBlockVacant(h, a, j);
    hide Tiled, BinsOk, BoundsOk, Vacant;
    AlignedWeaken(a, k, j);
    Pow2Mono(k, j);
  }

  /** What malloc hands out lies in the heap, aligned to its size; it is the
      smallest block that can hold the request if the request is at most 2^31. */
  lemma MallocFits(h: Heap, size: nat)
    requires Inv(h) && CanMalloc(h, size)
    ensures var (g, p) := Malloc(h, size);
            var k := BlockLog(size);
            && h.lo <= p && p + Pow2(k) <= g.end && Aligned(p, k)
            && (size <= MAX_REQUEST ==> size <= Pow2(k) && (k == 4 || Pow2(k - 1) < size))
  {
    var (g, p) := Malloc(h, size);
    var k := BlockLog(size);
    MallocOk(h, size);
    assert p in Live(g);
    assert BlockOk(g, p);
    if size <= MAX_REQUEST {
      BlockLogLeast(size, k);
      BlockLogLeast(size, k - 1);
    }
  }

  /** It overlaps no live block. */
  lemma MallocDisjoint(h: Heap, size: nat, b: nat)
    requires Inv(h) && CanMalloc(h, size) && IsUsed(h, b)
    ensures var p := Malloc(h, size).1;
            p + Pow2(BlockLog(size)) <= b || b + Pow2(h.blocks[b].log) <= p
  {
    var (g, p) := Malloc(h, size);
    MallocOk(h, size);
    MallocKeeps(h, size, b);
    assert p in Live(g);
    assert Apart(g, p, b) && Apart(g, b, p);
  }

  /** malloc leaves the end where it was exactly when it did not grow. */
  lemma ChooseSame(h: Heap, size: nat)
    requires Inv(h) && CanMalloc(h, size)
    ensures Choose(h, size).0.end == h.end ==> Choose(h, size).0 == h
  {
    BlockLogRange(size);
    if FirstFit(h.bins, BlockLog(size)) == NUM_BINS {
      GrowForOk(h, Pow2(BlockLog(size)));
    }
  }

  /** Freeing what malloc just returned restores every block and every bin, as
      a set, of the heap malloc chose from; when malloc did not grow the heap,
      that is the heap before the call. */
  lemma FreeUndoesMalloc(h: Heap, size: nat)
    requires Inv(h) && Coalesced(h) && CanMalloc(h, size)
    ensures var (g, p) := Malloc(h, size);
            var before := Choose(h, size).0;
            && Inv(g) && IsUsed(g, p)
            && Free(g, p).end == before.end && Free(g, p).blocks == before.blocks
            && (g.end == h.end ==> before == h)
            && |Free(g, p).bins| == |before.bins| == NUM_BINS
            && (forall k, b: nat | 0 <= k < NUM_BINS :: b in Free(g, p).bins[k] <==> b in before.bins[k])
  {
    hide Tiled, BoundsOk, Malloc, CanMalloc, Choose, Free, Coalesced;
    var (g, p) := Malloc(h, size);
    MallocOk(h, size);
    ChooseOk(h, size);
    ChooseSame(h, size);
    assert p in Live(g);
    FreeOk(g, p);
    assert Live(Free(g, p)) == Live(h);
    LiveDeterminesBlocks(Free(g, p), Choose(h, size).0);
  }

  /** A free followed at once by a malloc of the same size class, or a smaller
      one, always succeeds and never grows the heap. */
  lemma FreedBlockIsReused(h: Heap, p: nat, size: nat)
    requires Inv(h) && Coalesced(h) && IsUsed(h, p) && size < SIZE_RANGE
    requires BlockLog(size) <= h.blocks[p].log
    ensures Inv(Free(h, p)) && CanMalloc(Free(h, p), size)
    ensures Malloc(Free(h, p), size).0.end == h.end
  {
    FreeOk(h, p);
    var g := Free(h, p);
    var b :| Contains(g, b, p) && !g.blocks[b].used && g.blocks[b].log >= h.blocks[p].log;
    assert BlockOk(g, b);
    assert b in g.bins[g.blocks[b].log];
    BlockLogRange(size);
    assert FirstFit(g.bins, BlockLog(size)) < NUM_BINS;
    assert CanMalloc(g, size);
    MallocOk(g, size);
  }
}
