/** The buddy allocator as a value: which blocks tile the heap, which of them
    are in use, and the order of every free list.  The functions say what each
    call of the allocator does to that value; the class in Allocator.dfy, which
    works on the size table and on the words of memory, is proved against them. */
module BuddyHeap {
  import opened Bits
  import opened Sequences

  const SLOT_SIZE: nat := 16
  const NUM_BINS: nat := 32

  /** The heap may not grow into the area reserved for the stack. */
  const LIMIT: nat := 0x6f80_0000

  /** Sizes are 32-bit unsigned integers. */
  const SIZE_RANGE: nat := 0x1_0000_0000

  /** The largest request whose size class the allocator computes correctly. */
  const MAX_REQUEST: nat := 0x8000_0000

  datatype Block = Block(log: nat, used: bool)

  /** lo is the heap's end after initialisation: everything below it is
      reserved.  bins[k] lists the free blocks of size 2^k, first one first. */
  datatype Heap = Heap(lo: nat, end: nat, blocks: map<nat, Block>, bins: seq<seq<nat>>)

  // --------------------------------------------------------------- invariants

  ghost predicate Contains(h: Heap, b: nat, x: nat) {
    b in h.blocks && b <= x < b + Pow2(h.blocks[b].log)
  }

  ghost predicate Covered(h: Heap, x: nat) {
    exists b: nat :: Contains(h, b, x)
  }

  ghost predicate BlockOk(h: Heap, b: nat)
    requires b in h.blocks
  {
    var k := h.blocks[b].log;
    4 <= k <= 30 && h.lo <= b && Aligned(b, k) && b + Pow2(k) <= h.end
  }

  ghost predicate Apart(h: Heap, b: nat, c: nat)
    requires b in h.blocks && c in h.blocks
  {
    b < c ==> b + Pow2(h.blocks[b].log) <= c
  }

  /** The blocks tile [lo, end) exactly. */
  ghost predicate Tiled(h: Heap) {
    && (forall b | b in h.blocks :: BlockOk(h, b))
    && (forall b, c {:trigger Apart(h, b, c)} | b in h.blocks && c in h.blocks :: Apart(h, b, c))
    && (forall x: nat | h.lo <= x < h.end :: Covered(h, x))
  }

  /** Clearing the lowest set bit of the end leaves the heap: no aligned block
      of the heap has its buddy above the end. */
  ghost predicate BoundsOk(h: Heap) {
    && 0 < h.lo <= h.end <= LIMIT
    && Aligned(h.lo, 4) && Aligned(h.end, 4)
    && h.end - LowBit(h.end) < h.lo
  }

  predicate IsFree(h: Heap, b: nat, k: nat) {
    b in h.blocks && h.blocks[b] == Block(k, false)
  }

  predicate IsUsed(h: Heap, b: nat) {
    b in h.blocks && h.blocks[b].used
  }

  /** Bin k lists exactly the free blocks of size 2^k, each once. */
  ghost predicate BinsOk(h: Heap) {
    && |h.bins| == NUM_BINS
    && (forall k | 0 <= k < NUM_BINS :: NoDuplicates(h.bins[k]))
    && (forall k, b: nat | 0 <= k < NUM_BINS :: b in h.bins[k] <==> IsFree(h, b, k))
  }

  ghost predicate Inv(h: Heap) {
    BoundsOk(h) && Tiled(h) && BinsOk(h)
  }

  ghost predicate HasFreeBuddy(h: Heap, b: nat)
    requires b in h.blocks
  {
    IsFree(h, Buddy(b, h.blocks[b].log), h.blocks[b].log)
  }

  /** No two free buddies of equal size, except possibly the pair of p. */
  ghost predicate CoalescedBut(h: Heap, p: nat) {
    forall b | b in h.blocks && !h.blocks[b].used && b != p && Buddy(b, h.blocks[b].log) != p ::
      !HasFreeBuddy(h, b)
  }

  ghost predicate Coalesced(h: Heap) {
    forall b | b in h.blocks && !h.blocks[b].used :: !HasFreeBuddy(h, b)
  }

  /** The live blocks: what the program holds. */
  function Live(h: Heap): map<nat, nat> {
    map b | b in h.blocks && h.blocks[b].used :: h.blocks[b].log
  }

  /** The heap after initialisation: nothing but the reserved prefix. */
  function InitHeap(lo: nat): Heap {
    Heap(lo, lo, map[], seq(NUM_BINS, _ => []))
  }

  lemma InitOk(lo: nat)
    requires 0 < lo <= LIMIT && Aligned(lo, 4)
    ensures Inv(InitHeap(lo)) && Coalesced(InitHeap(lo)) && Live(InitHeap(lo)) == map[]
  {
  }

  // --------------------------------------------------------------- operations

  function BitLength(n: nat): nat {
    if n == 0 then 0 else 1 + BitLength(n / 2)
  }

  /** The exponent of the block that malloc(size) returns.  The machine takes
      the count of the shift that computes 1 << log modulo 32. */
  function BlockLog(size: nat): (k: nat)
    ensures k >= 4
  {
    var k := BitLength((if size == 0 then 16 else size) - 1) % 32;
    if k < 4 then 4 else k
  }

  function Push(bins: seq<seq<nat>>, k: nat, p: nat): seq<seq<nat>>
    requires k < |bins|
  {
    bins[k := [p] + bins[k]]
  }

  function Unlink(bins: seq<seq<nat>>, k: nat, p: nat): seq<seq<nat>>
    requires k < |bins|
  {
    bins[k := Remove(bins[k], p)]
  }

  lemma {:induction false} BitLengthLeast(n: nat, k: nat)
    ensures BitLength(n) <= k <==> n < Pow2(k)
  {
    if n != 0 && k != 0 {
      BitLengthLeast(n / 2, k - 1);
    }
  }

  /** malloc's size class is the least power of two that is at least 16 and at
      least the request. */
  lemma BlockLogLeast(size: nat, k: nat)
    requires size <= MAX_REQUEST
    ensures BlockLog(size) <= k <==> 4 <= k && size <= Pow2(k)
  {
    var n := (if size == 0 then 16 else size) - 1;
    Pow2Values();
    BitLengthLeast(n, 31);
    BitLengthLeast(n, k);
    if 4 <= k {
      Pow2Mono(4, k);
    }
  }

  lemma BlockLogRange(size: nat)
    ensures 4 <= BlockLog(size) < NUM_BINS
  {
  }

  /** Beyond 2^31 the shift count wraps to 0. */
  lemma RequestWraps(size: nat)
    requires MAX_REQUEST < size < SIZE_RANGE
    ensures BlockLog(size) == 4
  {
    Pow2Values();
    BitLengthLeast(size - 1, 31);
    BitLengthLeast(size - 1, 32);
  }

  /** The block is large enough exactly for requests up to 2^31: beyond that a
      16-byte block is handed out. */
  lemma BlockHoldsRequest(size: nat)
    requires size < SIZE_RANGE
    ensures size <= Pow2(BlockLog(size)) <==> size <= MAX_REQUEST
  {
    Pow2Values();
    if size <= MAX_REQUEST {
      BlockLogLeast(size, BlockLog(size));
    } else {
      RequestWraps(size);
    }
  }

  /** The first non-empty bin from k up. */
  function FirstFit(bins: seq<seq<nat>>, k: nat): (j: nat)
    requires k <= |bins|
    ensures k <= j <= |bins|
    ensures forall i | k <= i < j :: bins[i] == []
    ensures j < |bins| ==> bins[j] != []
    decreases |bins| - k
  {
    if k == |bins| || bins[k] != [] then k else FirstFit(bins, k + 1)
  }

  /** One round of growth: a free block of the size of the end's lowest set bit. */
  function Grow(h: Heap): Heap
    requires h.end > 0 && LowLog(h.end) < |h.bins|
  {
    var k := LowLog(h.end);
    Heap(h.lo, h.end + Pow2(k), h.blocks[h.end := Block(k, false)], Push(h.bins, k, h.end))
  }

  /** Where the heap ends once growth has produced a block of at least size. */
  function GrowEnd(end: nat, size: nat): (r: nat)
    requires end > 0
    ensures r > end
    decreases size - LowBit(end)
  {
    LowBitCarry(end);
    if LowBit(end) < size then GrowEnd(end + LowBit(end), size) else end + LowBit(end)
  }

  /** Growth until a block of at least size exists; p is that block, k its log. */
  function GrowFor(h: Heap, size: nat): (r: (Heap, nat, nat))
    requires h.end > 0 && |h.bins| == NUM_BINS && GrowEnd(h.end, size) <= LIMIT
    decreases size - LowBit(h.end)
  {
    LowBitCarry(h.end);
    LogInRange(h.end);
    if LowBit(h.end) < size then GrowFor(Grow(h), size) else (Grow(h), h.end, LowLog(h.end))
  }

  /** Hand out the free block p of bin k. */
  function Take(h: Heap, p: nat, k: nat): Heap
    requires k < |h.bins|
  {
    h.(blocks := h.blocks[p := Block(k, true)], bins := Unlink(h.bins, k, p))
  }

  /** Give the right half of block p, of size 2^(k + 1), back. */
  function SplitOnce(h: Heap, p: nat, k: nat): Heap
    requires k < |h.bins|
  {
    var right := p + Pow2(k);
    h.(blocks := h.blocks[p := Block(k, true)][right := Block(k, false)],
       bins := Push(h.bins, k, right))
  }

  function Split(h: Heap, p: nat, cur: nat, k: nat): Heap
    requires cur <= |h.bins|
    decreases cur
  {
    if cur <= k then h else Split(SplitOnce(h, p, cur - 1), p, cur - 1, k)
  }

  /** malloc can be called: the request is in range and, when the heap has to
      grow, the growth succeeds. */
  ghost predicate CanMalloc(h: Heap, size: nat) {
    && h.end > 0 && |h.bins| == NUM_BINS && size < SIZE_RANGE
    && (BlockLogRange(size);
        FirstFit(h.bins, BlockLog(size)) == NUM_BINS ==> GrowEnd(h.end, Pow2(BlockLog(size))) <= LIMIT)
  }

  /** The heap malloc chooses from, its choice, and the choice's log. */
  function Choose(h: Heap, size: nat): (Heap, nat, nat)
    requires CanMalloc(h, size)
  {
    BlockLogRange(size);
    var j := FirstFit(h.bins, BlockLog(size));
    if j < NUM_BINS then (h, h.bins[j][0], j) else GrowFor(h, Pow2(BlockLog(size)))
  }

  function Malloc(h: Heap, size: nat): (r: (Heap, nat))
    requires CanMalloc(h, size) && Inv(h)
  {
    var (g, p, j) := Choose(h, size);
    ChooseOk(h, size);
    (Split(Take(g, p, j), p, j, BlockLog(size)), p)
  }

  /** The lower of two buddies, where their union starts. */
  function Lower(p: nat, k: nat): nat {
    if p < Buddy(p, k) then p else Buddy(p, k)
  }

  /** Replace the free block p of size 2^k and its free buddy by their union. */
  function Merge(h: Heap, p: nat, k: nat): Heap
    requires k + 1 < |h.bins|
  {
    var b := Buddy(p, k);
    var m := Lower(p, k);
    h.(blocks := (h.blocks - {p, b})[m := Block(k + 1, false)],
       bins := Push(Unlink(Unlink(h.bins, k, p), k, b), k + 1, m))
  }

  function Coalesce(h: Heap, p: nat, k: nat): Heap
    requires Inv(h) && IsFree(h, p, k)
    decreases NUM_BINS - k
  {
    if IsFree(h, Buddy(p, k), k) then
      MergeOk(h, p, k);
      Coalesce(Merge(h, p, k), Lower(p, k), k + 1)
    else h
  }

  /** Put the used block p back on its list, before any coalescing. */
  function Release(h: Heap, p: nat): Heap
    requires IsUsed(h, p) && h.blocks[p].log < |h.bins|
  {
    var k := h.blocks[p].log;
    h.(blocks := h.blocks[p := Block(k, false)], bins := Push(h.bins, k, p))
  }

  function Free(h: Heap, p: nat): Heap
    requires Inv(h) && IsUsed(h, p)
  {
    ReleaseOk(h, p);
    Coalesce(Release(h, p), p, h.blocks[p].log)
  }

  lemma LogInRange(end: nat)
    requires 0 < end <= LIMIT
    ensures LowLog(end) <= 30
  {
    LowLogGreatest(end, 0);
    Pow2Values();
    if LowLog(end) > 30 {
      Pow2Mono(31, LowLog(end));
    }
  }

  // ------------------------------------------------------- the block at a place

  /** Blocks that contain the same address are the same block. */
  lemma SameBlock(h: Heap, b: nat, c: nat, x: nat)
    requires Tiled(h) && Contains(h, b, x) && Contains(h, c, x)
    ensures b == c
  {
    assert Apart(h, b, c) && Apart(h, c, b);
  }

  lemma BlockAt(h: Heap, x: nat) returns (b: nat)
    requires Tiled(h) && h.lo <= x < h.end
    ensures Contains(h, b, x) && BlockOk(h, b)
  {
    assert Covered(h, x);
    b :| Contains(h, b, x);
  }

  /** No block starts below the heap. */
  lemma BelowHeap(h: Heap, b: nat)
    requires Tiled(h) && b < h.lo
    ensures b !in h.blocks
  {
    assert b in h.blocks ==> BlockOk(h, b);
  }

  /** No block starts at the heap's end. */
  lemma EndIsFresh(h: Heap)
    requires Inv(h)
    ensures h.end !in h.blocks
  {
    assert h.end in h.blocks ==> BlockOk(h, h.end);
  }

  // --------------------------------------------------------- effects on the bins

  lemma PushBins(h: Heap, g: Heap, k: nat, p: nat)
    requires BinsOk(h) && k < NUM_BINS && g.bins == Push(h.bins, k, p) && !IsFree(h, p, k)
    requires forall b: nat, j: nat :: IsFree(g, b, j) <==> IsFree(h, b, j) || (b == p && j == k)
    ensures BinsOk(g)
  {
    assert p !in h.bins[k];
    forall j, b: nat | 0 <= j < NUM_BINS ensures b in g.bins[j] <==> IsFree(g, b, j) {
      assert b in h.bins[j] <==> IsFree(h, b, j);
    }
  }

  lemma UnlinkBins(h: Heap, g: Heap, k: nat, p: nat)
    requires BinsOk(h) && k < NUM_BINS && g.bins == Unlink(h.bins, k, p)
    requires forall b: nat, j: nat :: IsFree(g, b, j) <==> IsFree(h, b, j) && !(b == p && j == k)
    ensures BinsOk(g)
  {
    RemoveFacts(h.bins[k], p);
    forall j, b: nat | 0 <= j < NUM_BINS ensures b in g.bins[j] <==> IsFree(g, b, j) {
      assert b in h.bins[j] <==> IsFree(h, b, j);
    }
  }

  // --------------------------------------------------------------- taking a block

  /** Only the mark of one block changes: the tiling stays. */
  lemma RemarkTiled(h: Heap, g: Heap, p: nat)
    requires Tiled(h) && p in h.blocks && g.lo == h.lo && g.end == h.end
    requires g.blocks == h.blocks[p := Block(h.blocks[p].log, !h.blocks[p].used)]
    ensures Tiled(g)
  {
    assert forall b | b in g.blocks :: BlockOk(h, b);
    forall b, c | b in g.blocks && c in g.blocks ensures Apart(g, b, c) {
      assert Apart(h, b, c);
    }
    forall x: nat | g.lo <= x < g.end ensures Covered(g, x) {
      var b := BlockAt(h, x);
      assert Contains(g, b, x);
    }
  }

  lemma TakeOk(h: Heap, p: nat, k: nat)
    requires Inv(h) && k < NUM_BINS && IsFree(h, p, k)
    ensures k < |h.bins| && p !in Live(h)
    ensures var g := Take(h, p, k);
            && Inv(g) && Live(g) == Live(h)[p := k] && g.lo == h.lo && g.end == h.end
            && p in g.blocks && g.blocks[p] == Block(k, true) && (Coalesced(h) ==> Coalesced(g))
  {
    RemarkTiled(h, Take(h, p, k), p);
    UnlinkBins(h, Take(h, p, k), k, p);
  }

  lemma ReleaseOk(h: Heap, p: nat)
    requires Inv(h) && IsUsed(h, p)
    ensures h.blocks[p].log < NUM_BINS
    ensures Inv(Release(h, p)) && Live(Release(h, p)) == Live(h) - {p}
    ensures Coalesced(h) ==> CoalescedBut(Release(h, p), p)
  {
    assert BlockOk(h, p);
    RemarkTiled(h, Release(h, p), p);
    PushBins(h, Release(h, p), h.blocks[p].log, p);
  }

  // -------------------------------------------------------------------- splitting

  /** The middle of a block is not the start of one. */
  lemma MiddleIsFresh(h: Heap, p: nat, k: nat)
    requires Tiled(h) && p in h.blocks && h.blocks[p].log == k + 1
    ensures p + Pow2(k) !in h.blocks
  {
    assert p + Pow2(k) in h.blocks ==> Apart(h, p, p + Pow2(k));
  }

  lemma SplitApart(h: Heap, p: nat, k: nat, b: nat, c: nat)
    requires Tiled(h) && k < |h.bins| && p in h.blocks && h.blocks[p] == Block(k + 1, true)
    requires b in SplitOnce(h, p, k).blocks && c in SplitOnce(h, p, k).blocks
    ensures Apart(SplitOnce(h, p, k), b, c)
  {
    var right := p + Pow2(k);
    if b == right {
      assert c != right ==> Apart(h, p, c);
    } else {
      assert c != right ==> Apart(h, b, c);
      assert Apart(h, p, b) && Apart(h, b, p);
    }
  }

  lemma SplitTiled(h: Heap, p: nat, k: nat)
    requires Tiled(h) && 4 <= k < |h.bins| && p in h.blocks && h.blocks[p] == Block(k + 1, true)
    ensures Tiled(SplitOnce(h, p, k))
  {
    var g, right := SplitOnce(h, p, k), p + Pow2(k);
    assert BlockOk(h, p);
    HalvesAreBuddies(p, k);
    MiddleIsFresh(h, p, k);
    forall b | b in g.blocks ensures BlockOk(g, b) {
      assert b != right ==> BlockOk(h, b);
    }
    forall b, c | b in g.blocks && c in g.blocks ensures Apart(g, b, c) {
      SplitApart(h, p, k, b, c);
    }
    forall x: nat | g.lo <= x < g.end ensures Covered(g, x) {
      var b := BlockAt(h, x);
      assert Contains(g, if b == p && right <= x then right else b, x);
    }
  }

  /** Buddies of equal size are each other's buddy. */
  lemma BuddyBack(h: Heap, b: nat)
    requires Tiled(h) && b in h.blocks
    ensures var k := h.blocks[b].log; Buddy(b, k) != b && Buddy(Buddy(b, k), k) == b
  {
    assert BlockOk(h, b);
    BuddyHalves(b, h.blocks[b].log);
  }

  /** A free block has no free buddy after the split if it had none before. */
  lemma SplitNoPair(h: Heap, p: nat, k: nat, b: nat)
    requires k < |h.bins| && IsUsed(h, p) && Buddy(p + Pow2(k), k) == p && p + Pow2(k) !in h.blocks
    requires b in SplitOnce(h, p, k).blocks && !SplitOnce(h, p, k).blocks[b].used
    requires Buddy(Buddy(b, SplitOnce(h, p, k).blocks[b].log), SplitOnce(h, p, k).blocks[b].log) == b
    requires b in h.blocks && !h.blocks[b].used ==> !HasFreeBuddy(h, b)
    ensures !HasFreeBuddy(SplitOnce(h, p, k), b)
  {
  }

  lemma SplitBins(h: Heap, p: nat, k: nat)
    requires BinsOk(h) && k < NUM_BINS && p in h.blocks && h.blocks[p] == Block(k + 1, true)
    requires p + Pow2(k) !in h.blocks
    ensures BinsOk(SplitOnce(h, p, k)) && Live(SplitOnce(h, p, k)) == Live(h)[p := k]
  {
    hide Pow2;
    PushBins(h, SplitOnce(h, p, k), k, p + Pow2(k));
  }

  lemma NoPair(h: Heap, b: nat)
    requires Coalesced(h)
    ensures b in h.blocks && !h.blocks[b].used ==> !HasFreeBuddy(h, b)
  {
  }

  lemma NoPairs(h: Heap)
    requires forall b | b in h.blocks && !h.blocks[b].used :: !HasFreeBuddy(h, b)
    ensures Coalesced(h)
  {
  }

  /** Splitting a used block: the left half stays used, the right half, whose
      buddy it is, becomes free. */
  lemma SplitOnceOk(h: Heap, p: nat, k: nat)
    requires Inv(h) && 4 <= k && p in h.blocks && h.blocks[p] == Block(k + 1, true)
    ensures k + 1 < NUM_BINS
    ensures Inv(SplitOnce(h, p, k)) && Live(SplitOnce(h, p, k)) == Live(h)[p := k]
    ensures Coalesced(h) ==> Coalesced(SplitOnce(h, p, k))
  {
    assert BlockOk(h, p);
    hide Tiled, BinsOk, Coalesced, Live, Pow2, Aligned, Buddy;
    HalvesAreBuddies(p, k);
    MiddleIsFresh(h, p, k);
    SplitTiled(h, p, k);
    SplitBins(h, p, k);
    if Coalesced(h) {
      var g := SplitOnce(h, p, k);
      forall b | b in g.blocks && !g.blocks[b].used ensures !HasFreeBuddy(g, b) {
        BuddyBack(g, b);
        NoPair(h, b);
        SplitNoPair(h, p, k, b);
      }
      NoPairs(g);
    }
  }

  // ---------------------------------------------------------------------- merging

  lemma MergePlace(h: Heap, p: nat, k: nat)
    requires BoundsOk(h) && Tiled(h) && |h.bins| == NUM_BINS
    requires IsFree(h, p, k) && IsFree(h, Buddy(p, k), k)
    ensures k < 30 && Buddy(p, k) != p && BlockOk(Merge(h, p, k), Lower(p, k))
  {
    var b := Buddy(p, k);
    assert BlockOk(h, p) && BlockOk(h, b);
    BuddyHalves(p, k);
    MergeFits(h, Lower(p, k), k);
  }

  lemma MergeApart(h: Heap, p: nat, k: nat, c: nat, d: nat)
    requires BoundsOk(h) && Tiled(h) && k + 1 < |h.bins| && k <= 30
    requires IsFree(h, p, k) && IsFree(h, Buddy(p, k), k)
    requires c in Merge(h, p, k).blocks && d in Merge(h, p, k).blocks
    ensures Apart(Merge(h, p, k), c, d)
  {
    var b := Buddy(p, k);
    var m := Lower(p, k);
    assert BlockOk(h, p);
    BuddyHalves(p, k);
    if c == m {
      assert d != m ==> Apart(h, p, d) && Apart(h, b, d);
    } else {
      assert Apart(h, c, d);
    }
  }

  lemma MergeTiled(h: Heap, p: nat, k: nat)
    requires BoundsOk(h) && Tiled(h) && |h.bins| == NUM_BINS
    requires IsFree(h, p, k) && IsFree(h, Buddy(p, k), k)
    ensures k < 30 && Tiled(Merge(h, p, k))
  {
    MergePlace(h, p, k);
    var b := Buddy(p, k);
    var m := Lower(p, k);
    var g := Merge(h, p, k);
    BuddyHalves(p, k);
    forall c | c in g.blocks ensures BlockOk(g, c) {
      assert c != m ==> BlockOk(h, c);
    }
    forall c, d | c in g.blocks && d in g.blocks ensures Apart(g, c, d) {
      MergeApart(h, p, k, c, d);
    }
    forall x: nat | g.lo <= x < g.end ensures Covered(g, x) {
      var c := BlockAt(h, x);
      assert Contains(g, if c == p || c == b then m else c, x);
    }
  }

  lemma MergeBins(h: Heap, p: nat, k: nat)
    requires BinsOk(h) && k + 1 < NUM_BINS && IsFree(h, p, k) && IsFree(h, Buddy(p, k), k)
    requires p != Buddy(p, k)
    ensures BinsOk(Merge(h, p, k))
  {
    var b := Buddy(p, k);
    var m := Lower(p, k);
    var h1 := h.(blocks := h.blocks - {p}, bins := Unlink(h.bins, k, p));
    UnlinkBins(h, h1, k, p);
    var h2 := h1.(blocks := h1.blocks - {b}, bins := Unlink(h1.bins, k, b));
    UnlinkBins(h1, h2, k, b);
    PushBins(h2, h2.(blocks := h2.blocks[m := Block(k + 1, false)], bins := Push(h2.bins, k + 1, m)), k + 1, m);
    assert h2.blocks == h.blocks - {p, b};
  }

  lemma MergeCoalesced(h: Heap, p: nat, k: nat)
    requires Tiled(h) && k + 1 < |h.bins| && IsFree(h, p, k) && IsFree(h, Buddy(p, k), k)
    requires CoalescedBut(h, p)
    ensures CoalescedBut(Merge(h, p, k), Lower(p, k))
  {
    var m := Lower(p, k);
    var g := Merge(h, p, k);
    BuddyBack(h, p);
    forall c | c in g.blocks && !g.blocks[c].used && c != m && Buddy(c, g.blocks[c].log) != m
      ensures !HasFreeBuddy(g, c)
    {
      BuddyBack(h, c);
      assert !HasFreeBuddy(h, c);
    }
  }

  /** Merging two free buddies. */
  lemma MergeOk(h: Heap, p: nat, k: nat)
    requires Inv(h) && IsFree(h, p, k) && IsFree(h, Buddy(p, k), k)
    ensures k + 1 < NUM_BINS
    ensures var g := Merge(h, p, k);
            var m := Lower(p, k);
            && Inv(g) && IsFree(g, m, k + 1) && Live(g) == Live(h) && Contains(g, m, p)
            && (CoalescedBut(h, p) ==> CoalescedBut(g, m))
  {
    assert BlockOk(h, p);
    BuddyHalves(p, k);
    hide Tiled, BinsOk, CoalescedBut, Aligned, Buddy;
    MergeTiled(h, p, k);
    MergeBins(h, p, k);
    if CoalescedBut(h, p) {
      MergeCoalesced(h, p, k);
    }
  }

  /** The union of two blocks of the heap still has an admissible size. */
  lemma MergeFits(h: Heap, m: nat, k: nat)
    requires BoundsOk(h) && h.lo <= m && m + Pow2(k + 1) <= h.end && k <= 30
    ensures k < 30
  {
    if k == 30 {
      Pow2Values();
    }
  }

  // ---------------------------------------------------------------------- growing

  /** A new root block is aligned to its size, and its buddy is below the heap. */
  lemma RootBlock(h: Heap)
    requires BoundsOk(h)
    ensures var k := LowLog(h.end); 4 <= k <= 30 && Aligned(h.end, k) && Buddy(h.end, k) < h.lo
  {
    var k := LowLog(h.end);
    LogInRange(h.end);
    LowLogGreatest(h.end, 4);
    LowLogGreatest(h.end, k);
    LowLogGreatest(h.end, k + 1);
    BuddyHalves(h.end, k);
  }

  lemma GrowTiled(h: Heap)
    requires Inv(h)
    ensures LowLog(h.end) < |h.bins|
    ensures Tiled(Grow(h))
  {
    RootBlock(h);
    var g := Grow(h);
    assert forall b | b in h.blocks :: BlockOk(h, b);
    forall b | b in g.blocks ensures BlockOk(g, b) {
      assert b != h.end ==> BlockOk(h, b);
    }
    forall b, c | b in g.blocks && c in g.blocks ensures Apart(g, b, c) {
      assert b != h.end ==> BlockOk(h, b);
      assert c != h.end ==> BlockOk(h, c);
      assert b != h.end && c != h.end ==> Apart(h, b, c);
    }
    forall x: nat | g.lo <= x < g.end ensures Covered(g, x) {
      if x < h.end {
        var b := BlockAt(h, x);
        assert Contains(g, b, x);
      } else {
        assert Contains(g, h.end, x);
      }
    }
  }

  lemma GrowBins(h: Heap)
    requires BinsOk(h) && h.end > 0 && LowLog(h.end) < NUM_BINS && h.end !in h.blocks
    ensures BinsOk(Grow(h)) && Live(Grow(h)) == Live(h)
  {
    hide LowLog;
    PushBins(h, Grow(h), LowLog(h.end), h.end);
  }

  /** A free block has no free buddy after growth if it had none before. */
  lemma GrowNoPair(h: Heap, b: nat)
    requires h.end > 0 && LowLog(h.end) < |h.bins| && Buddy(h.end, LowLog(h.end)) !in Grow(h).blocks
    requires b in Grow(h).blocks && !Grow(h).blocks[b].used
    requires Buddy(Buddy(b, Grow(h).blocks[b].log), Grow(h).blocks[b].log) == b
    requires b in h.blocks && !h.blocks[b].used ==> !HasFreeBuddy(h, b)
    ensures !HasFreeBuddy(Grow(h), b)
  {
  }

  lemma GrowOk(h: Heap)
    requires Inv(h) && h.end + LowBit(h.end) <= LIMIT
    ensures LowLog(h.end) < |h.bins|
    ensures Inv(Grow(h)) && Live(Grow(h)) == Live(h) && IsFree(Grow(h), h.end, LowLog(h.end))
    ensures Coalesced(h) ==> Coalesced(Grow(h))
  {
    EndIsFresh(h);
    hide Tiled, BinsOk, Coalesced, Live, Buddy, Aligned, LowLog;
    RootBlock(h);
    GrowTiled(h);
    LowBitCarry(h.end);
    LowLogGreatest(Grow(h).end, 4);
    GrowBins(h);
    if Coalesced(h) {
      var g := Grow(h);
      BelowHeap(g, Buddy(h.end, LowLog(h.end)));
      forall b | b in g.blocks && !g.blocks[b].used ensures !HasFreeBuddy(g, b) {
        BuddyBack(g, b);
        NoPair(h, b);
        GrowNoPair(h, b);
      }
      NoPairs(g);
    }
  }

  /** Growth ends with a free block of the requested size or more, at the top. */
  lemma {:induction false} GrowForOk(h: Heap, size: nat)
    requires Inv(h) && GrowEnd(h.end, size) <= LIMIT
    ensures var (g, p, k) := GrowFor(h, size);
            && Inv(g) && Live(g) == Live(h) && g.lo == h.lo && g.end == GrowEnd(h.end, size)
            && IsFree(g, p, k) && k < NUM_BINS && g.bins[k] != [] && g.bins[k][0] == p
            && size <= Pow2(k) && h.end <= p && p + Pow2(k) == g.end
            && (Coalesced(h) ==> Coalesced(g))
    decreases size - LowBit(h.end)
  {
    LowBitCarry(h.end);
    GrowOk(h);
    if LowBit(h.end) < size {
      GrowForOk(Grow(h), size);
    }
  }

  // --------------------------------------------------------------- whole operations

  lemma ChooseOk(h: Heap, size: nat)
    requires Inv(h) && CanMalloc(h, size)
    ensures var (g, p, j) := Choose(h, size);
            && Inv(g) && Live(g) == Live(h) && g.lo == h.lo && (Coalesced(h) ==> Coalesced(g))
            && BlockLog(size) <= j < NUM_BINS && IsFree(g, p, j) && g.bins[j][..1] == [p]
  {
    BlockLogRange(size);
    var k := BlockLog(size);
    var j := FirstFit(h.bins, k);
    if j < NUM_BINS {
      assert h.bins[j][0] in h.bins[j];
    } else {
      GrowForOk(h, Pow2(k));
      var (g, p, i) := GrowFor(h, Pow2(k));
      if i < k {
        Pow2Mono(i, k);
      }
    }
  }

  lemma {:induction false} SplitOk(h: Heap, p: nat, cur: nat, k: nat)
    requires Inv(h) && 4 <= k <= cur < NUM_BINS && p in h.blocks && h.blocks[p] == Block(cur, true)
    ensures var g := Split(h, p, cur, k);
            && Inv(g) && g.lo == h.lo && g.end == h.end && Live(g) == Live(h)[p := k]
            && (Coalesced(h) ==> Coalesced(g))
    decreases cur
  {
    hide Tiled, BoundsOk, Coalesced, Pow2;
    if k < cur {
      SplitOnceOk(h, p, cur - 1);
      SplitOk(SplitOnce(h, p, cur - 1), p, cur - 1, k);
    }
  }

  /** malloc keeps the invariant and the absence of free buddies, and adds one
      live block of the least sufficient size. */
  lemma MallocOk(h: Heap, size: nat)
    requires Inv(h) && CanMalloc(h, size)
    ensures var (g, p) := Malloc(h, size);
            && Inv(g) && (Coalesced(h) ==> Coalesced(g))
            && p !in Live(h) && Live(g) == Live(h)[p := BlockLog(size)]
            && g.lo == h.lo && g.end == Choose(h, size).0.end
  {
    hide Inv, CanMalloc, Choose, Take, Split, Coalesced, BlockLog;
    ChooseOk(h, size);
    var (g, p, j) := Choose(h, size);
    TakeOk(g, p, j);
    BlockLogRange(size);
    SplitOk(Take(g, p, j), p, j, BlockLog(size));
  }

  /** The heap never shrinks. */
  lemma MallocEnd(h: Heap, size: nat)
    requires Inv(h) && CanMalloc(h, size)
    ensures h.end <= Malloc(h, size).0.end
  {
    hide Inv, Malloc, Pow2;
    MallocOk(h, size);
    if FirstFit(h.bins, BlockLog(size)) == NUM_BINS {
      GrowForOk(h, Pow2(BlockLog(size)));
    }
  }

  /** A block around the union of two buddies is a block around each. */
  lemma AroundBoth(h: Heap, b: nat, p: nat, k: nat)
    requires Tiled(h) && Aligned(p, k)
    requires var m := Lower(p, k); Contains(h, b, m)
    requires b in h.blocks && h.blocks[b].log >= k + 1
    ensures Contains(h, b, p)
  {
    BuddyHalves(p, k);
    assert BlockOk(h, b);
    Nested(Lower(p, k), k + 1, b, h.blocks[b].log);
  }

  /** When the excepted pair is no pair of free buddies, there is no exception. */
  lemma NoPairLeft(h: Heap, p: nat, k: nat)
    requires Tiled(h) && IsFree(h, p, k) && !IsFree(h, Buddy(p, k), k) && CoalescedBut(h, p)
    ensures Coalesced(h)
  {
    forall b | b in h.blocks && !h.blocks[b].used ensures !HasFreeBuddy(h, b) {
      BuddyBack(h, b);
    }
  }

  /** Coalescing changes no live block and leaves no free buddies. */
  lemma {:induction false} CoalesceOk(h: Heap, p: nat, k: nat)
    requires Inv(h) && IsFree(h, p, k)
    ensures var g := Coalesce(h, p, k);
            && Inv(g) && g.lo == h.lo && g.end == h.end && Live(g) == Live(h)
            && (CoalescedBut(h, p) ==> Coalesced(g))
            && exists b :: Contains(g, b, p) && !g.blocks[b].used && g.blocks[b].log >= k
    decreases NUM_BINS - k
  {
    if IsFree(h, Buddy(p, k), k) {
      assert BlockOk(h, p);
      MergeOk(h, p, k);
      var m := Lower(p, k);
      assert Contains(Merge(h, p, k), m, p);
      CoalesceOk(Merge(h, p, k), m, k + 1);
      var g := Coalesce(h, p, k);
      var b :| Contains(g, b, m) && !g.blocks[b].used && g.blocks[b].log >= k + 1;
      AroundBoth(g, b, p, k);
    } else {
      assert Contains(h, p, p);
      if CoalescedBut(h, p) {
        NoPairLeft(h, p, k);
      }
    }
  }

  /** free gives up exactly the block of p; p then lies in a free block at
      least as large as its own, and no free buddies remain. */
  lemma FreeOk(h: Heap, p: nat)
    requires Inv(h) && IsUsed(h, p)
    ensures var g := Free(h, p);
            && Inv(g) && g.lo == h.lo && g.end == h.end && Live(g) == Live(h) - {p}
            && (Coalesced(h) ==> Coalesced(g))
            && exists b :: Contains(g, b, p) && !g.blocks[b].used && g.blocks[b].log >= h.blocks[p].log
  {
    ReleaseOk(h, p);
    CoalesceOk(Release(h, p), p, h.blocks[p].log);
  }
}
