/** The allocator itself: loops over the size table and stores into memory,
    proved against the value-level operations of BuddyHeap. */
module Allocator {
  import opened Bits
  import opened BuddyHeap
  import opened FreeLists
  import opened SizeTable
  import opened HeapFrame
  import opened HeapTheorems
  import opened BoundsCheck
  import opened Programs
  import opened Sequences
  import opened Words

  /** Memory and table agree with the heap h. */
  ghost predicate Represents(t: seq<Byte>, m: seq<Byte>, brk: nat, h: Heap) {
    && |t| == TABLE_SLOTS && |m| == LIMIT && h.lo == HeapStart(brk)
    && Inv(h) && TableOk(t, h) && Reserved(t, h.lo) && ListsOk(m, brk, h.bins)
  }

  lemma RepresentsInv(t: seq<Byte>, m: seq<Byte>, brk: nat, h: Heap)
    requires Represents(t, m, brk, h)
    ensures Inv(h) && h.end > 0 && |h.bins| == NUM_BINS
  {
  }

  lemma RepresentsSizes(t: seq<Byte>, m: seq<Byte>, brk: nat, h: Heap)
    requires Represents(t, m, brk, h)
    ensures |m| == LIMIT && h.lo == HeapStart(brk)
  {
  }

  /** The smallest x with 2^x >= size. */
  method GetLog2(size: nat) returns (res: nat)
    requires size > 0
    ensures res == BitLength(size - 1)
  {
    res := 0;
    var rest: nat := size - 1;
    while rest > 0
      invariant res + BitLength(rest) == BitLength(size - 1)
    {
      rest := rest / 2;
      res := res + 1;
    }
  }

  lemma LogOfPow2(k: nat)
    ensures BitLength(Pow2(k) - 1) == k
  {
    BitLengthLeast(Pow2(k) - 1, k);
    if k > 0 {
      BitLengthLeast(Pow2(k) - 1, k - 1);
    }
  }

  lemma {:induction false} ShrStep(n: nat, k: nat)
    ensures Shr(n, k + 1) == Shr(n, k) / 2
  {
    if k != 0 {
      ShrStep(n / 2, k - 1);
    }
  }

  // ------------------------------------------------------------ one step each, pure

  /** A block that is about to be listed is in no list yet. */
  lemma NotListed(h: Heap, p: nat)
    requires BinsOk(h) && (p !in h.blocks || h.blocks[p].used)
    ensures Fresh(h.bins, p)
  {
    forall k | 0 <= k < |h.bins| ensures p !in h.bins[k] {
      assert p in h.bins[k] <==> IsFree(h, p, k);
    }
  }

  lemma BlockNode(m: seq<Byte>, brk: nat, h: Heap, p: nat)
    requires BoundsOk(h) && Tiled(h) && h.lo == HeapStart(brk) && p in h.blocks && |m| == LIMIT
    ensures NodeAddr(m, brk, p) && HeapStart(brk) <= p < WORDS
  {
    assert BlockOk(h, p);
    AlignedSlots(p, h.blocks[p].log);
    Pow2Mono(4, h.blocks[p].log);
    Pow2Values();
  }

  /** Memory holds these lists, and their nodes are not in live blocks of h. */
  ghost predicate Listing(m: seq<Byte>, brk: nat, h: Heap, lists: seq<seq<nat>>, live: map<nat, nat>) {
    && |m| == LIMIT && h.lo == HeapStart(brk) && BoundsOk(h) && Tiled(h) && Within(live, h)
    && ListsOk(m, brk, lists) && MembersWritable(h, live, lists)
  }

  lemma ListingStart(t: seq<Byte>, m: seq<Byte>, brk: nat, h: Heap, live: map<nat, nat>)
    requires Represents(t, m, brk, h) && Within(live, h)
    ensures Listing(m, brk, h, h.bins, live)
  {
    FreeMembersWritable(h, live);
  }

  lemma ListingLists(m: seq<Byte>, brk: nat, h: Heap, lists: seq<seq<nat>>, live: map<nat, nat>)
    requires Listing(m, brk, h, lists, live)
    ensures |lists| == NUM_BINS && ListsOk(m, brk, lists) && |m| == LIMIT
  {
  }

  /** Listing block p of h in bin k keeps the lists and touches nothing live. */
  lemma ListStep(m: seq<Byte>, brk: nat, h: Heap, lists: seq<seq<nat>>, k: nat, p: nat, live: map<nat, nat>)
    requires Listing(m, brk, h, lists, live) && k < NUM_BINS && Fresh(lists, p) && p in h.blocks && p !in live
    ensures var f := First(brk, k);
            && CanAppend(m, f, p) && |lists| == NUM_BINS
            && Listing(Appended(m, f, p), brk, h, Push(lists, k, p), live)
            && Untouched(m, Appended(m, f, p), live, brk, h.end)
  {
    hide ListsOk, BoundsOk, Tiled, Within, Untouched, Appended, CanAppend, MembersWritable;
    ListingLists(m, brk, h, lists, live);
    BlockNode(m, brk, h, p);
    HeadWritable(m, brk, h, live, lists, k);
    AppendOk(m, brk, lists, k, p);
    HeapAbove(brk);
    AppendUntouched(m, h, live, brk, First(brk, k), p);
    PushWritable(h, live, lists, k, p);
    UntouchedLength(m, Appended(m, First(brk, k), p), live, brk, h.end);
  }

  lemma UntouchedLength(m: seq<Byte>, m': seq<Byte>, live: map<nat, nat>, brk: nat, end: nat)
    requires Untouched(m, m', live, brk, end)
    ensures |m'| == |m|
  {
  }

  lemma PushWritable(h: Heap, live: map<nat, nat>, lists: seq<seq<nat>>, k: nat, p: nat)
    requires MembersWritable(h, live, lists) && k < |lists| && p in h.blocks && p !in live
    ensures MembersWritable(h, live, Push(lists, k, p))
  {
  }

  /** Taking one member of bin k out of the lists. */
  lemma UnlistStep(m: seq<Byte>, brk: nat, h: Heap, lists: seq<seq<nat>>, k: nat, p: nat, live: map<nat, nat>)
    requires Listing(m, brk, h, lists, live) && k < NUM_BINS && |lists| == NUM_BINS && p in lists[k]
    ensures CanRemove(m, p)
    ensures Listing(Removed(m, p), brk, h, Unlink(lists, k, p), live)
    ensures Untouched(m, Removed(m, p), live, brk, h.end)
  {
    hide ListsOk, BoundsOk, Tiled, Within, Untouched, Removed, CanRemove, MembersWritable;
    LinksWritable(m, brk, h, live, lists, k, p);
    RemoveOk(m, brk, lists, k, p);
    HeapAbove(brk);
    RemoveUntouched(m, h, live, brk, p);
    UnlinkWritable(h, live, lists, k, p);
    UntouchedLength(m, Removed(m, p), live, brk, h.end);
  }

  lemma UnlinkWritable(h: Heap, live: map<nat, nat>, lists: seq<seq<nat>>, k: nat, p: nat)
    requires MembersWritable(h, live, lists) && k < |lists|
    ensures MembersWritable(h, live, Unlink(lists, k, p))
  {
    RemoveMembers(lists[k], p);
  }

  lemma GrowTable(t: seq<Byte>, t': seq<Byte>, h: Heap)
    requires Inv(h) && TableOk(t, h) && Reserved(t, h.lo) && |t| == TABLE_SLOTS
    requires h.end + LowBit(h.end) <= LIMIT && LowLog(h.end) <= 30
    requires Filled(t, t', h.end / 16, (h.end + LowBit(h.end)) / 16, FormMetadata(LowLog(h.end), false))
    ensures LowLog(h.end) < |h.bins| && TableOk(t', Grow(h)) && Reserved(t', h.lo)
    ensures SameOutside(t, t', h.lo, Grow(h).end)
  {
    GrowOk(h);
    RootBlock(h);
    FillInside(t, t', h.end, LowLog(h.end), FormMetadata(LowLog(h.end), false), h.lo, Grow(h).end);
    assert forall b | b in h.blocks :: BlockOk(h, b);
    MarkStep(t, t', h, Grow(h), h.end, {}, {});
  }

  /** What is listed and what is live stays so when the heap grows. */
  lemma GrowWithin(h: Heap, live: map<nat, nat>)
    requires h.end > 0 && LowLog(h.end) < |h.bins| && h.end !in h.blocks
    requires Within(live, h) && MembersWritable(h, live, h.bins)
    ensures Within(live, Grow(h)) && MembersWritable(Grow(h), live, h.bins) && h.end !in live
  {
  }

  lemma GrowLists(t: seq<Byte>, m: seq<Byte>, brk: nat, h: Heap, live: map<nat, nat>)
    requires Represents(t, m, brk, h) && h.end + LowBit(h.end) <= LIMIT && Within(live, h)
    ensures LowLog(h.end) < |h.bins|
    ensures Listing(m, brk, Grow(h), h.bins, live) && Fresh(h.bins, h.end)
    ensures h.end in Grow(h).blocks && h.end !in live
  {
    hide Tiled, BinsOk, BoundsOk, TableOkBut, Reserved, ListsOk, LowLog, LowBit, Live;
    RepresentsInv(t, m, brk, h);
    GrowOk(h);
    EndIsFresh(h);
    NotListed(h, h.end);
    FreeMembersWritable(h, live);
    GrowWithin(h, live);
  }

  /** Where the new block lies, and that its bin exists. */
  lemma GrowPlace(h: Heap)
    requires Inv(h) && h.end + LowBit(h.end) <= LIMIT
    ensures 4 <= LowLog(h.end) <= 30 && LowLog(h.end) < |h.bins| && Aligned(h.end, LowLog(h.end))
    ensures LowBit(h.end) == Pow2(LowLog(h.end)) && Grow(h).lo == h.lo && Grow(h).end == h.end + LowBit(h.end)
    ensures Grow(h).bins == Push(h.bins, LowLog(h.end), h.end)
  {
    RootBlock(h);
  }

  /** After one round of growth, table and memory represent the grown heap. */
  lemma GrowStep(t: seq<Byte>, t': seq<Byte>, m: seq<Byte>, m': seq<Byte>, brk: nat, h: Heap, live: map<nat, nat>)
    requires Represents(t, m, brk, h) && h.end + LowBit(h.end) <= LIMIT && LowLog(h.end) <= 30
    requires Filled(t, t', h.end / 16, (h.end + LowBit(h.end)) / 16, FormMetadata(LowLog(h.end), false))
    requires LowLog(h.end) < |h.bins| && Listing(m', brk, Grow(h), Push(h.bins, LowLog(h.end), h.end), live)
    ensures Represents(t', m', brk, Grow(h)) && SameOutside(t, t', h.lo, Grow(h).end)
  {
    hide BoundsOk, Tiled, BinsOk, ListsOk, Within, MembersWritable, Filled;
    GrowOk(h);
    GrowTable(t, t', h);
  }

  // ------------------------------------------------------------------- splitting

  /** While malloc splits block p: p is already used in g and still listed in
      bin j, and its table entries are not written yet. */
  ghost predicate Splitting(t: seq<Byte>, m: seq<Byte>, brk: nat, g: Heap, lists: seq<seq<nat>>, p: nat, j: nat) {
    && |t| == TABLE_SLOTS && |m| == LIMIT && g.lo == HeapStart(brk)
    && Inv(g) && IsUsed(g, p) && TableOkBut(t, g, {p}) && Reserved(t, g.lo)
    && ListsOk(m, brk, lists) && j < NUM_BINS && p in lists[j] && g.bins == Unlink(lists, j, p)
  }

  lemma SplittingStart(t: seq<Byte>, m: seq<Byte>, brk: nat, h: Heap, p: nat, j: nat)
    requires Represents(t, m, brk, h) && j < NUM_BINS && IsFree(h, p, j)
    ensures Splitting(t, m, brk, Take(h, p, j), h.bins, p, j)
  {
    TakeOk(h, p, j);
    assert p in h.bins[j];
  }

  /** Lists that are those of g, and p: */
  lemma UnlinkedMembers(g: Heap, lists: seq<seq<nat>>, p: nat, j: nat, live: map<nat, nat>)
    requires BinsOk(g) && |lists| == NUM_BINS && j < NUM_BINS && g.bins == Unlink(lists, j, p)
    requires NoDuplicates(lists[j]) && p in g.blocks && Within(live, g) && p !in live
    ensures MembersWritable(g, live, lists)
    ensures forall q | q !in g.blocks :: Fresh(lists, q)
  {
    RemoveFacts(lists[j], p);
    forall k, b: nat | 0 <= k < NUM_BINS && b in lists[k] ensures b in g.blocks && b !in live {
      assert b == p || b in g.bins[k];
      assert b in g.bins[k] <==> IsFree(g, b, k);
    }
  }

  /** The lists during splitting. */
  lemma SplittingMembers(t: seq<Byte>, m: seq<Byte>, brk: nat, g: Heap, lists: seq<seq<nat>>, p: nat, j: nat,
                         live: map<nat, nat>)
    requires Splitting(t, m, brk, g, lists, p, j) && Within(live, g) && p !in live
    ensures MembersWritable(g, live, lists)
    ensures forall q | q !in g.blocks :: Fresh(lists, q)
  {
    hide Tiled, BoundsOk, BinsOk, TableOkBut, Reserved, BinOk, Disjoint, Within, MembersWritable, Fresh, NoDuplicates;
    assert BinOk(m, brk, lists[j], j);
    MembersDistinct(m, brk, lists[j], j);
    UnlinkedMembers(g, lists, p, j, live);
  }

  /** Where the right half lies. */
  lemma SplitPlace(g: Heap, p: nat, k: nat)
    requires Inv(g) && 4 <= k && p in g.blocks && g.blocks[p] == Block(k + 1, true)
    ensures k < |g.bins| && Tiled(SplitOnce(g, p, k)) && Aligned(p + Pow2(k), k)
    ensures g.lo <= p && p + Pow2(k) + Pow2(k) <= g.end <= LIMIT && k <= 30
    ensures SplitOnce(g, p, k).lo == g.lo && SplitOnce(g, p, k).end == g.end
  {
    assert BlockOk(g, p);
    SplitOnceOk(g, p, k);
    HalvesAreBuddies(p, k);
  }

  lemma SplitTable(t: seq<Byte>, t': seq<Byte>, g: Heap, p: nat, k: nat)
    requires Inv(g) && |t| == TABLE_SLOTS && TableOkBut(t, g, {p}) && Reserved(t, g.lo)
    requires 4 <= k && p in g.blocks && g.blocks[p] == Block(k + 1, true) && k < NUM_BINS
    requires Filled(t, t', (p + Pow2(k)) / 16, (p + Pow2(k) + Pow2(k)) / 16, FormMetadata(k, false))
    ensures k < |g.bins| && TableOkBut(t', SplitOnce(g, p, k), {p}) && Reserved(t', g.lo)
    ensures SameOutside(t, t', g.lo, g.end)
  {
    hide Inv, Tiled, TableOkBut, Reserved, Filled, SameOutside, Aligned, Pow2;
    SplitPlace(g, p, k);
    FillInside(t, t', p + Pow2(k), k, FormMetadata(k, false), g.lo, g.end);
    MarkStep(t, t', g, SplitOnce(g, p, k), p + Pow2(k), {p}, {p});
  }

  lemma SplitFrame(g: Heap, p: nat, k: nat, lists: seq<seq<nat>>, live: map<nat, nat>)
    requires Inv(g) && 4 <= k && p in g.blocks && g.blocks[p] == Block(k + 1, true)
    requires Within(live, g) && p !in live && MembersWritable(g, live, lists)
    ensures k < |g.bins| && Within(live, SplitOnce(g, p, k)) && MembersWritable(SplitOnce(g, p, k), live, lists)
    ensures p + Pow2(k) !in g.blocks && p + Pow2(k) !in live
    ensures BoundsOk(SplitOnce(g, p, k)) && Tiled(SplitOnce(g, p, k))
  {
    SplitOnceOk(g, p, k);
    MiddleIsFresh(g, p, k);
  }

  lemma SplitLists(t: seq<Byte>, m: seq<Byte>, brk: nat, g: Heap, lists: seq<seq<nat>>, p: nat, j: nat, k: nat,
                   live: map<nat, nat>)
    requires Splitting(t, m, brk, g, lists, p, j) && Within(live, g) && p !in live
    requires 4 <= k < j && g.blocks[p] == Block(k + 1, true)
    ensures k < |g.bins| && p + Pow2(k) in SplitOnce(g, p, k).blocks && p + Pow2(k) !in live
    ensures Listing(m, brk, SplitOnce(g, p, k), lists, live) && Fresh(lists, p + Pow2(k))
  {
    hide Tiled, BinsOk, ListsOk, TableOkBut, MembersWritable, Within;
    SplittingMembers(t, m, brk, g, lists, p, j, live);
    SplitFrame(g, p, k, lists, live);
  }

  lemma SplittingFacts(t: seq<Byte>, m: seq<Byte>, brk: nat, g: Heap, lists: seq<seq<nat>>, p: nat, j: nat)
    requires Splitting(t, m, brk, g, lists, p, j)
    ensures Inv(g) && |g.bins| == |lists| == NUM_BINS && p in g.blocks && j < NUM_BINS
    ensures |t| == TABLE_SLOTS && TableOkBut(t, g, {p}) && Reserved(t, g.lo)
  {
  }

  /** One more split keeps the picture. */
  lemma SplittingStep(t: seq<Byte>, t': seq<Byte>, m: seq<Byte>, m': seq<Byte>, brk: nat, g: Heap,
                      lists: seq<seq<nat>>, p: nat, j: nat, k: nat, live: map<nat, nat>)
    requires Splitting(t, m, brk, g, lists, p, j) && 4 <= k < j && g.blocks[p] == Block(k + 1, true)
    requires |t'| == |t| && Reserved(t', g.lo) && TableOkBut(t', SplitOnce(g, p, k), {p})
    requires Listing(m', brk, SplitOnce(g, p, k), Push(lists, k, p + Pow2(k)), live)
    ensures Splitting(t', m', brk, SplitOnce(g, p, k), Push(lists, k, p + Pow2(k)), p, j)
  {
    hide BoundsOk, Tiled, BinsOk, ListsOk, TableOkBut, Reserved, Within, MembersWritable;
    SplittingFacts(t, m, brk, g, lists, p, j);
    SplitOnceOk(g, p, k);
  }

  /** The lists at the end of splitting. */
  lemma SplittingLists(t: seq<Byte>, m: seq<Byte>, brk: nat, g: Heap, lists: seq<seq<nat>>, p: nat, j: nat,
                       live: map<nat, nat>)
    requires Splitting(t, m, brk, g, lists, p, j) && Within(live, g) && p !in live
    ensures Listing(m, brk, g, lists, live) && j < |lists| && p in lists[j]
  {
    SplittingMembers(t, m, brk, g, lists, p, j, live);
  }

  /** Splitting ends: the table shows p, and p leaves its list. */
  lemma SplittingEnd(t: seq<Byte>, t': seq<Byte>, m: seq<Byte>, m': seq<Byte>, brk: nat, g: Heap,
                     lists: seq<seq<nat>>, p: nat, j: nat, live: map<nat, nat>)
    requires Splitting(t, m, brk, g, lists, p, j) && g.blocks[p].log < 128
    requires Filled(t, t', p / 16, (p + Pow2(g.blocks[p].log)) / 16, FormMetadata(g.blocks[p].log, true))
    requires j < |lists| && Listing(m', brk, g, Unlink(lists, j, p), live)
    ensures Represents(t', m', brk, g) && SameOutside(t, t', g.lo, g.end)
  {
    assert BlockOk(g, p);
    FillInside(t, t', p, g.blocks[p].log, FormMetadata(g.blocks[p].log, true), g.lo, g.end);
    MarkStep(t, t', g, g, p, {p}, {});
  }

  /** The split loop's guard says that the block is too large. */
  lemma SplitGuard(binId: nat, log2: nat)
    requires 4 <= log2 <= binId
    ensures Pow2(binId - 1) >= Pow2(log2) <==> log2 < binId
  {
    if log2 < binId {
      Pow2Mono(log2, binId - 1);
    }
  }

  /** The node behind a non-empty bin's sentinel is the bin's first block. */
  lemma HeadOfBin(t: seq<Byte>, m: seq<Byte>, brk: nat, h: Heap, k: nat)
    requires Represents(t, m, brk, h) && k < |h.bins| && h.bins[k] != []
    ensures Fits(m, First(brk, k)) && Next(m, First(brk, k)) == h.bins[k][0]
  {
    EmptyIffDummy(m, brk, h.bins, k);
  }

  lemma CutFrame(t: seq<Byte>, m: seq<Byte>, t1: seq<Byte>, m1: seq<Byte>, t2: seq<Byte>, m2: seq<Byte>,
                 live: map<nat, nat>, brk: nat, lo: nat, end: nat)
    requires Frame(t, m, t1, m1, live, brk, lo, end)
    requires Untouched(m1, m2, live, brk, end) && SameOutside(t1, t2, lo, end)
    ensures Frame(t, m, t2, m2, live, brk, lo, end)
  {
    assert Frame(t1, m1, t2, m2, live, brk, lo, end);
    FrameTrans(t, m, t1, m1, t2, m2, live, brk, lo, end, end);
  }

  /** The size malloc computes is the size class. */
  lemma SizeClass(size: nat)
    ensures var sz := if size == 0 then 16 else size;
            var n := Pow2(BitLength(sz - 1) % 32);
            && (if n < 16 then 16 else n) == Pow2(BlockLog(size))
            && BitLength(Pow2(BlockLog(size)) - 1) == BlockLog(size)
  {
    var k := BitLength((if size == 0 then 16 else size) - 1) % 32;
    Pow2Values();
    LogOfPow2(BlockLog(size));
    if k < 4 {
      Pow2Mono(k, 4);
    } else {
      Pow2Mono(4, k);
    }
  }

  /** A free block starts a slot that says so. */
  lemma FreeSlot(t: seq<Byte>, m: seq<Byte>, brk: nat, h: Heap, p: nat, j: nat)
    requires Represents(t, m, brk, h) && IsFree(h, p, j)
    ensures 4 <= j <= 30 && p / 16 < |t| && LooksFree(t, p, j) && p >= h.lo > 0
  {
    assert BlockOk(h, p);
    StartSlot(t, h, p);
  }

  /** What malloc does after choosing block p of bin j in h. */
  lemma CutOk(t: seq<Byte>, m: seq<Byte>, brk: nat, h: Heap, p: nat, j: nat, k: nat)
    requires Represents(t, m, brk, h) && j < NUM_BINS && IsFree(h, p, j) && 4 <= k <= j
    ensures Splitting(t, m, brk, Take(h, p, j), h.bins, p, j)
    ensures p !in Live(h) && Within(Live(h), Take(h, p, j))
    ensures var g := Split(Take(h, p, j), p, j, k);
            && Inv(g) && g.lo == h.lo && g.end == h.end && (Coalesced(h) ==> Coalesced(g))
            && p in g.blocks && g.blocks[p] == Block(k, true) && Within(Live(h), g)
            && Aligned(p, k) && k <= 30 && p + Pow2(k) <= LIMIT
  {
    hide BoundsOk, Tiled, BinsOk, TableOkBut, Reserved, ListsOk, Splitting;
    RepresentsInv(t, m, brk, h);
    TakeOk(h, p, j);
    SplittingStart(t, m, brk, h, p, j);
    SplitOk(Take(h, p, j), p, j, k);
    var g := Split(Take(h, p, j), p, j, k);
    assert p in Live(g);
    BlockInside(g, p);
  }

  lemma BlockInside(h: Heap, p: nat)
    requires Inv(h) && p in h.blocks
    ensures BlockOk(h, p) && h.end <= LIMIT
  {
  }

  // -------------------------------------------------------- releasing and merging

  /** What free finds in the table. */
  lemma UsedSlot(t: seq<Byte>, m: seq<Byte>, brk: nat, h: Heap, p: nat)
    requires Represents(t, m, brk, h) && IsUsed(h, p)
    ensures var k := h.blocks[p].log;
            && 4 <= k <= 30 && k < |h.bins| && Aligned(p, k) && p + Pow2(k) <= h.end <= LIMIT
            && 0 < h.lo <= p && p / 16 < |t| && GetLogsize(t[p / 16]) == k && BitLength(Pow2(k) - 1) == k
  {
    assert BlockOk(h, p);
    StartSlot(t, h, p);
    LogOfPow2(h.blocks[p].log);
  }

  /** What free may write. */
  lemma ReleaseLists(t: seq<Byte>, m: seq<Byte>, brk: nat, h: Heap, p: nat, live: map<nat, nat>)
    requires Represents(t, m, brk, h) && IsUsed(h, p) && live == Live(h) - {p}
    ensures Listing(m, brk, h, h.bins, live) && Fresh(h.bins, p) && p in h.blocks && p !in live
  {
    NotListed(h, p);
    assert Within(live, h);
    ListingStart(t, m, brk, h, live);
  }

  lemma ReleaseStep(t: seq<Byte>, t': seq<Byte>, m: seq<Byte>, m': seq<Byte>, brk: nat, h: Heap, p: nat,
                    live: map<nat, nat>)
    requires Represents(t, m, brk, h) && IsUsed(h, p) && h.blocks[p].log < |h.bins|
    requires Filled(t, t', p / 16, (p + Pow2(h.blocks[p].log)) / 16, FormMetadata(h.blocks[p].log, false))
    requires Listing(m', brk, h, Push(h.bins, h.blocks[p].log, p), live)
    ensures Represents(t', m', brk, Release(h, p)) && SameOutside(t, t', h.lo, h.end)
    ensures Release(h, p).lo == h.lo && Release(h, p).end == h.end
  {
    hide Tiled, BinsOk, BoundsOk, TableOkBut, Reserved, ListsOk, Filled, SameOutside, Live;
    ReleaseOk(h, p);
    BlockInside(h, p);
    FillInside(t, t', p, h.blocks[p].log, FormMetadata(h.blocks[p].log, false), h.lo, h.end);
    MarkStep(t, t', h, Release(h, p), p, {}, {});
  }

  /** Both buddies of a pair are in bin k, and after one has left the other still
      is; then nothing of the pair is listed. */
  lemma BuddyMembers(h: Heap, p: nat, k: nat)
    requires Inv(h) && IsFree(h, p, k) && IsFree(h, Buddy(p, k), k)
    ensures k < 30 && |h.bins| == NUM_BINS && p in h.bins[k] && Buddy(p, k) in Unlink(h.bins, k, p)[k]
    ensures var lists := Unlink(Unlink(h.bins, k, p), k, Buddy(p, k));
            forall j, x: nat | 0 <= j < NUM_BINS && x in lists[j] :: IsFree(h, x, j) && x != p && x != Buddy(p, k)
  {
    var b := Buddy(p, k);
    BuddyBack(h, p);
    MergeTiled(h, p, k);
    assert p in h.bins[k] && b in h.bins[k];
    hide Tiled, BoundsOk;
    RemoveFacts(h.bins[k], p);
    RemoveFacts(Remove(h.bins[k], p), b);
    forall j, x: nat | 0 <= j < NUM_BINS && x in Unlink(Unlink(h.bins, k, p), k, b)[j]
      ensures IsFree(h, x, j) && x != p && x != b
    {
      assert x in h.bins[j];
    }
  }

  lemma UnionMembers(h: Heap, lists: seq<seq<nat>>, p: nat, k: nat, live: map<nat, nat>)
    requires |lists| == NUM_BINS && k + 1 < |h.bins| && Within(live, h)
    requires forall j, x: nat | 0 <= j < NUM_BINS && x in lists[j] :: IsFree(h, x, j) && x != p && x != Buddy(p, k)
    ensures MembersWritable(Merge(h, p, k), live, lists) && Fresh(lists, Lower(p, k))
  {
    forall j, x | 0 <= j < |lists| && x in lists[j] ensures x in Merge(h, p, k).blocks && x !in live {
      assert IsFree(h, x, j);
    }
  }

  /** What listing the union needs. */
  lemma UnionReady(h: Heap, p: nat, k: nat, live: map<nat, nat>)
    requires Inv(h) && Within(live, h) && IsFree(h, p, k) && IsFree(h, Buddy(p, k), k)
    ensures k < 30 && |h.bins| == NUM_BINS
    ensures var g := Merge(h, p, k);
            && BoundsOk(g) && Tiled(g) && Within(live, g) && Lower(p, k) in g.blocks && Lower(p, k) !in live
            && g.lo == h.lo
  {
    hide Tiled;
    MergeOk(h, p, k);
    MergeTiled(h, p, k);
  }

  /** With the pair out of the lists, their union can be listed. */
  lemma UnionLists(m: seq<Byte>, brk: nat, h: Heap, p: nat, k: nat, live: map<nat, nat>)
    requires Inv(h) && IsFree(h, p, k) && IsFree(h, Buddy(p, k), k) && |h.bins| == NUM_BINS && k < 30
    requires Listing(m, brk, h, Unlink(Unlink(h.bins, k, p), k, Buddy(p, k)), live)
    ensures var (g, lists) := (Merge(h, p, k), Unlink(Unlink(h.bins, k, p), k, Buddy(p, k)));
            && Listing(m, brk, g, lists, live) && Fresh(lists, Lower(p, k))
            && Lower(p, k) in g.blocks && Lower(p, k) !in live
  {
    hide Inv, Tiled, ListsOk, BinsOk, BoundsOk, MembersWritable, Within, Merge, Remove;
    BuddyMembers(h, p, k);
    UnionReady(h, p, k, live);
    UnionMembers(h, Unlink(Unlink(h.bins, k, p), k, Buddy(p, k)), p, k, live);
  }

  lemma MergeFields(h: Heap, p: nat, k: nat)
    requires k + 1 < |h.bins|
    ensures var g := Merge(h, p, k);
            && g.bins == Push(Unlink(Unlink(h.bins, k, p), k, Buddy(p, k)), k + 1, Lower(p, k))
            && g.lo == h.lo && g.end == h.end
    ensures Pow2(k) * 2 == Pow2(k + 1)
  {
  }

  lemma UnionInside(h: Heap, p: nat, k: nat)
    requires Inv(h) && IsFree(h, p, k) && IsFree(h, Buddy(p, k), k)
    ensures k + 1 < |h.bins|
    ensures var (g, q) := (Merge(h, p, k), Lower(p, k));
            && Tiled(g) && q in g.blocks && g.blocks[q] == Block(k + 1, false) && 4 <= k < 30
            && Aligned(q, k + 1) && h.lo <= q && q + Pow2(k + 1) <= h.end <= LIMIT
  {
    hide Tiled;
    MergeTiled(h, p, k);
    MergeOk(h, p, k);
    BlockInside(h, p);
    BlockInside(Merge(h, p, k), Lower(p, k));
  }

  lemma MergeTable(t: seq<Byte>, t': seq<Byte>, h: Heap, p: nat, k: nat)
    requires Inv(h) && TableOk(t, h) && Reserved(t, h.lo) && k + 1 < |h.bins|
    requires IsFree(h, p, k) && IsFree(h, Buddy(p, k), k)
    requires Filled(t, t', Lower(p, k) / 16, (Lower(p, k) + Pow2(k + 1)) / 16, FormMetadata(k + 1, false))
    ensures TableOk(t', Merge(h, p, k)) && Reserved(t', h.lo) && SameOutside(t, t', h.lo, h.end)
  {
    hide Inv, Tiled, TableOkBut, Reserved, Filled, SameOutside, Pow2, Aligned, Buddy;
    UnionInside(h, p, k);
    FillInside(t, t', Lower(p, k), k + 1, FormMetadata(k + 1, false), h.lo, h.end);
    MarkStep(t, t', h, Merge(h, p, k), Lower(p, k), {}, {});
  }

  lemma MergeStep(t: seq<Byte>, t': seq<Byte>, m: seq<Byte>, m': seq<Byte>, brk: nat, h: Heap, p: nat, k: nat,
                  live: map<nat, nat>)
    requires Represents(t, m, brk, h) && IsFree(h, p, k) && IsFree(h, Buddy(p, k), k) && k + 1 < NUM_BINS
    requires Filled(t, t', Lower(p, k) / 16, (Lower(p, k) + Pow2(k + 1)) / 16, FormMetadata(k + 1, false))
    requires |h.bins| == NUM_BINS && Listing(m', brk, Merge(h, p, k), Merge(h, p, k).bins, live)
    ensures Represents(t', m', brk, Merge(h, p, k)) && IsFree(Merge(h, p, k), Lower(p, k), k + 1)
    ensures Live(Merge(h, p, k)) == Live(h) && SameOutside(t, t', h.lo, h.end)
  {
    hide Tiled, BinsOk, BoundsOk, ListsOk, TableOkBut, Filled;
    MergeOk(h, p, k);
    MergeTable(t, t', h, p, k);
  }

  /** The coalescing test, in terms of the heap. */
  lemma BuddySlot(t: seq<Byte>, m: seq<Byte>, brk: nat, h: Heap, p: nat, k: nat)
    requires Represents(t, m, brk, h) && IsFree(h, p, k)
    ensures Buddy(p, k) / 16 < |t| && (LooksFree(t, Buddy(p, k), k) <==> IsFree(h, Buddy(p, k), k))
  {
    LooksFreeReserved(t, h, p, k);
  }

  // ------------------------------------------------------------ the program's bytes

  /** The program's bytes, in its globals and in its blocks: the allocator's view
      does not depend on them. */
  lemma ProgramWrites(t: seq<Byte>, m: seq<Byte>, m': seq<Byte>, brk: nat, h: Heap, a: nat)
    requires Represents(t, m, brk, h) && (a < brk || InLive(Live(h), a))
    requires |m'| == |m| && forall x | 0 <= x < |m| && x != a :: m'[x] == m[x]
    ensures Represents(t, m', brk, h)
  {
    hide Tiled, BinsOk, BoundsOk, BinOk, Disjoint, TableOkBut, Reserved, SameNode, InLive;
    forall k | 0 <= k < NUM_BINS ensures BinOk(m', brk, h.bins[k], k) {
      assert BinOk(m, brk, h.bins[k], k);
      BinKept(m, m', brk, h, a, k);
    }
  }

  lemma BinKept(m: seq<Byte>, m': seq<Byte>, brk: nat, h: Heap, a: nat, k: nat)
    requires Inv(h) && h.lo == HeapStart(brk) && (a < brk || InLive(Live(h), a)) && k < NUM_BINS && |m'| == |m|
    requires BinOk(m, brk, h.bins[k], k)
    requires forall x | 0 <= x < |m| && x != a :: m'[x] == m[x]
    ensures BinOk(m', brk, h.bins[k], k)
  {
    hide InLive;
    var c := ChainOf(brk, h.bins[k], k);
    forall i | 0 <= i < |c| ensures SameNode(m, m', c[i]) {
      NodeOutside(m, brk, h, a, k, i);
      hide BinOk, Inv;
      NodeKept(m, m', c[i]);
    }
    hide Inv;
    BinFrame(m, m', brk, h.bins[k], k);
  }

  lemma NodeOutside(m: seq<Byte>, brk: nat, h: Heap, a: nat, k: nat, i: nat)
    requires Inv(h) && h.lo == HeapStart(brk) && (a < brk || InLive(Live(h), a)) && k < NUM_BINS
    requires BinOk(m, brk, h.bins[k], k) && i < |ChainOf(brk, h.bins[k], k)|
    ensures var n := ChainOf(brk, h.bins[k], k)[i];
            Fits(m, n) && (n + NODE_SIZE <= a || a < n)
  {
    var c := ChainOf(brk, h.bins[k], k);
    assert NodeAddr(m, brk, c[i]);
    SentinelsInside(brk, k);
    HeapAbove(brk);
    assert 0 < i < |c| - 1 ==> c[i] in h.bins[k];
    hide BinOk, NodeAddr, HeapStart;
    if 0 < i < |c| - 1 {
      assert IsFree(h, c[i], k);
      FreeNodeOutside(h, c[i], a, brk);
    } else {
      SentinelOutside(h, c[i], a, brk);
    }
  }

  lemma FreeNodeOutside(h: Heap, n: nat, a: nat, brk: nat)
    requires Inv(h) && brk <= h.lo && (a < brk || InLive(Live(h), a)) && n in h.blocks && !h.blocks[n].used
    ensures n + NODE_SIZE <= a || a < n
  {
    assert BlockOk(h, n);
    Pow2Mono(4, h.blocks[n].log);
    Pow2Values();
    if a >= brk {
      var b :| b in Live(h) && b <= a < b + Pow2(Live(h)[b]);
      assert Apart(h, n, b) && Apart(h, b, n);
    }
  }

  lemma SentinelOutside(h: Heap, n: nat, a: nat, brk: nat)
    requires Inv(h) && brk <= n && n + NODE_SIZE <= h.lo && (a < brk || InLive(Live(h), a))
    ensures n + NODE_SIZE <= a || a < n
  {
    if a >= brk {
      var b :| b in Live(h) && b <= a < b + Pow2(Live(h)[b]);
      assert BlockOk(h, b);
    }
  }

  /** Every byte of a live block is the program's. */
  lemma BlockBytes(h: Heap, p: nat, a: nat)
    requires Inv(h) && IsUsed(h, p) && p <= a < p + Pow2(h.blocks[p].log)
    ensures InLive(Live(h), a) && a < LIMIT
  {
    assert BlockOk(h, p);
    assert p in Live(h) && Live(h)[p] == h.blocks[p].log;
  }

  /** So is every byte below the heap's sentinels. */
  lemma OwnedInMemory(h: Heap, a: nat, brk: nat)
    requires Inv(h) && h.lo == HeapStart(brk) && (a < brk || InLive(Live(h), a))
    ensures a < LIMIT
  {
    HeapAbove(brk);
    if a >= brk {
      var b :| b in Live(h) && b <= a < b + Pow2(Live(h)[b]);
      assert BlockOk(h, b);
    }
  }

  /** The n bytes from dst are what the n bytes from src were. */
  ghost predicate Copied(m: seq<Byte>, m': seq<Byte>, dst: nat, src: nat, n: nat) {
    && src + n <= |m| && dst + n <= |m'|
    && forall a | dst <= a < dst + n :: m'[a] == m[src + (a - dst)]
  }

  /** Only the n bytes from dst change. */
  ghost predicate OnlyChanged(m: seq<Byte>, m': seq<Byte>, dst: nat, n: nat) {
    && |m'| == |m|
    && forall a | 0 <= a < |m| && !(dst <= a < dst + n) :: m'[a] == m[a]
  }

  /** Two live blocks share no byte. */
  lemma LiveApart(h: Heap, b: nat, c: nat)
    requires Inv(h) && b in Live(h) && c in Live(h) && b != c
    ensures b + Pow2(Live(h)[b]) <= c || c + Pow2(Live(h)[c]) <= b
  {
    assert Apart(h, b, c) && Apart(h, c, b);
  }

  /** What the program writes into its own block is no concern of the others. */
  lemma WriteUntouched(m: seq<Byte>, m': seq<Byte>, h: Heap, p: nat, n: nat, brk: nat)
    requires Inv(h) && h.lo == HeapStart(brk) && IsUsed(h, p) && n <= Pow2(h.blocks[p].log)
    requires OnlyChanged(m, m', p, n)
    ensures Untouched(m, m', Live(h) - {p}, brk, h.end)
  {
    HeapAbove(brk);
    assert BlockOk(h, p);
    assert p in Live(h);
    forall a | 0 <= a < |m| && (a < brk || h.end <= a || InLive(Live(h) - {p}, a)) ensures m'[a] == m[a] {
      if InLive(Live(h) - {p}, a) {
        var b :| b in Live(h) - {p} && b <= a < b + Pow2(Live(h)[b]);
        LiveApart(h, p, b);
      }
    }
  }

  lemma UntouchedLess(m: seq<Byte>, m': seq<Byte>, live: map<nat, nat>, live': map<nat, nat>, brk: nat, end: nat)
    requires Untouched(m, m', live, brk, end)
    requires forall b | b in live' :: b in live && live[b] == live'[b]
    ensures Untouched(m, m', live', brk, end)
  {
    forall a | 0 <= a < |m| && InLive(live', a) ensures InLive(live, a) {
      var b :| b in live' && b <= a < b + Pow2(live'[b]);
    }
  }

  lemma FrameLess(t: seq<Byte>, m: seq<Byte>, t': seq<Byte>, m': seq<Byte>,
                  live: map<nat, nat>, live': map<nat, nat>, brk: nat, lo: nat, end: nat)
    requires Frame(t, m, t', m', live, brk, lo, end)
    requires forall b | b in live' :: b in live && live[b] == live'[b]
    ensures Frame(t, m, t', m', live', brk, lo, end)
  {
    hide Untouched, SameOutside;
    UntouchedLess(m, m', live, live', brk, end);
  }

  /** A live block's bytes are among those a frame keeps. */
  lemma FrameKeeps(t: seq<Byte>, m: seq<Byte>, t': seq<Byte>, m': seq<Byte>, live: map<nat, nat>, brk: nat,
                   lo: nat, end: nat, b: nat)
    requires Frame(t, m, t', m', live, brk, lo, end) && b in live && b + Pow2(live[b]) <= |m|
    ensures |m'| == |m| && forall a | b <= a < b + Pow2(live[b]) :: m'[a] == m[a]
  {
    forall a | b <= a < b + Pow2(live[b]) ensures m'[a] == m[a] {
      assert InLive(live, a);
    }
  }

  // -------------------------------------------------------------------- reallocation

  /** The heap at the three moments of a reallocation. */
  lemma ReallocHeap(h0: Heap, size: nat, p: nat)
    requires Inv(h0) && CanMalloc(h0, size) && IsUsed(h0, p) && CanCopy(h0, p, size)
    ensures var (h1, q) := BuddyHeap.Malloc(h0, size);
            && Inv(h1) && IsUsed(h1, p) && IsUsed(h1, q) && p != q && h1.blocks[p] == h0.blocks[p]
            && h1.blocks[q].log == BlockLog(size) && CopySize(h0, p, size) <= Pow2(BlockLog(size))
            && q !in Live(h0) && Live(h1) == Live(h0)[q := BlockLog(size)] && h1.lo == h0.lo
            && p in Live(h0) && Live(h0)[p] == h0.blocks[p].log && p + Pow2(Live(h0)[p]) <= LIMIT
            && BuddyHeap.Free(h1, p).lo == h1.lo && BuddyHeap.Free(h1, p).end == h1.end
  {
    MallocOk(h0, size);
    MallocKeeps(h0, size, p);
    CopyFitsIff(h0, p, size);
    var (h1, q) := BuddyHeap.Malloc(h0, size);
    assert q in Live(h1);
    assert BlockOk(h0, p);
    FreeOk(h1, p);
  }

  /** Copying before freeing carries the old contents over, whatever the
      allocator does with the old block afterwards. */
  lemma MoveOk(t: seq<Byte>, m: seq<Byte>, m1: seq<Byte>, t2: seq<Byte>, m2: seq<Byte>, h: Heap, p: nat, q: nat,
               n: nat, brk: nat)
    requires Inv(h) && h.lo == HeapStart(brk) && IsUsed(h, p) && IsUsed(h, q) && p != q
    requires n <= Pow2(h.blocks[q].log) && |m| == LIMIT
    requires Copied(m, m1, q, p, n) && OnlyChanged(m, m1, q, n)
    requires Frame(t, m1, t2, m2, Live(h) - {p}, brk, h.lo, h.end)
    ensures Copied(m, m2, q, p, n) && Frame(t, m, t2, m2, Live(h) - {p} - {q}, brk, h.lo, h.end)
  {
    hide Inv, InLive, Frame;
    var live := Live(h) - {p} - {q};
    assert q in Live(h) - {p};
    BlockInside(h, q);
    FrameKeeps(t, m1, t2, m2, Live(h) - {p}, brk, h.lo, h.end, q);
    FrameLess(t, m1, t2, m2, Live(h) - {p}, live, brk, h.lo, h.end);
    WriteUntouched(m, m1, h, q, n, brk);
    UntouchedLess(m, m1, Live(h) - {q}, live, brk, h.end);
    WriteThenFrame(t, m, m1, t2, m2, live, brk, h.lo, h.end);
  }

  lemma WriteThenFrame(t: seq<Byte>, m: seq<Byte>, m1: seq<Byte>, t2: seq<Byte>, m2: seq<Byte>,
                       live: map<nat, nat>, brk: nat, lo: nat, end: nat)
    requires Untouched(m, m1, live, brk, end) && Frame(t, m1, t2, m2, live, brk, lo, end)
    ensures Frame(t, m, t2, m2, live, brk, lo, end)
  {
    hide InLive;
  }

  /** What malloc and the move together do to the bytes. */
  lemma ReallocBytes(t0: seq<Byte>, m0: seq<Byte>, t1: seq<Byte>, m1: seq<Byte>, t2: seq<Byte>, m2: seq<Byte>,
                     h0: Heap, h1: Heap, p: nat, q: nat, n: nat, k: nat, brk: nat)
    requires p in Live(h0) && q !in Live(h0) && Live(h1) == Live(h0)[q := k] && |m0| == LIMIT
    requires n <= Pow2(Live(h0)[p]) && p + Pow2(Live(h0)[p]) <= LIMIT && h1.lo == h0.lo
    requires Frame(t0, m0, t1, m1, Live(h0), brk, h0.lo, h1.end)
    requires Copied(m1, m2, q, p, n) && Frame(t1, m1, t2, m2, Live(h1) - {p} - {q}, brk, h1.lo, h1.end)
    ensures Copied(m0, m2, q, p, n) && Frame(t0, m0, t2, m2, Live(h0) - {p}, brk, h0.lo, h1.end)
  {
    hide Frame, Live;
    var live := Live(h0) - {p};
    FrameKeeps(t0, m0, t1, m1, Live(h0), brk, h0.lo, h1.end, p);
    FrameLess(t0, m0, t1, m1, Live(h0), live, brk, h0.lo, h1.end);
    FrameLess(t1, m1, t2, m2, Live(h1) - {p} - {q}, live, brk, h1.lo, h1.end);
    FrameTrans(t0, m0, t1, m1, t2, m2, live, brk, h0.lo, h1.end, h1.end);
  }

  // --------------------------------------------------------------- initialisation

  /** The sentinels of bin k point at each other. */
  ghost predicate EmptyBin(m: seq<Byte>, brk: nat, k: nat) {
    && SentinelsOk(m, brk, k)
    && Next(m, First(brk, k)) == Last(brk, k) && Prev(m, Last(brk, k)) == First(brk, k)
  }

  lemma SentinelAddrs(m: seq<Byte>, brk: nat, k: nat)
    requires Fits(m, First(brk, k)) && Fits(m, Last(brk, k)) && k < NUM_BINS
    ensures NodeAddr(m, brk, First(brk, k)) && NodeAddr(m, brk, Last(brk, k)) && First(brk, k) != Last(brk, k)
  {
    assert First(brk, k) - brk == 12 * (2 * k) && Last(brk, k) - brk == 12 * (2 * k + 1);
  }

  lemma EmptyBinOk(m: seq<Byte>, brk: nat, k: nat)
    requires EmptyBin(m, brk, k) && k < NUM_BINS
    ensures BinOk(m, brk, [], k)
  {
    hide NodeAddr, Fits, First, Last, Prev, Next;
    SentinelAddrs(m, brk, k);
    var c := ChainOf(brk, [], k);
    assert c == [First(brk, k), Last(brk, k)];
    assert Link(m, c, 0);
  }

  /** Linking one bin's sentinels leaves those of the other bins. */
  lemma EmptyBinKept(m: seq<Byte>, m': seq<Byte>, brk: nat, k: nat, j: nat)
    requires EmptyBin(m, brk, k) && k != j && OnlyChanged(m, m', First(brk, j), 2 * NODE_SIZE)
    ensures EmptyBin(m', brk, k)
  {
    hide Next, Prev, IsDummy;
    NodeKept(m, m', First(brk, k));
    NodeKept(m, m', Last(brk, k));
  }

  /** The six stores that link the sentinels of bin k. */
  lemma LinkedSentinels(m: seq<Byte>, brk: nat, k: nat)
    requires Fits(m, Last(brk, k)) && Last(brk, k) < WORDS
    ensures var (f, l) := (First(brk, k), Last(brk, k));
            var m1 := Stored(Stored(Stored(m, f + 8, 1), f, 0), f + 4, l);
            EmptyBin(Stored(Stored(Stored(m1, l + 8, 1), l, f), l + 4, 0), brk, k)
  {
    hide Next, Prev, IsDummy, Stored;
    var (f, l) := (First(brk, k), Last(brk, k));
    var m1 := Stored(Stored(Stored(m, f + 8, 1), f, 0), f + 4, l);
    FilledNode(m, f, 0, l, 1, f);
    FilledNode(m1, l, f, 0, 1, f);
    FilledNode(m1, l, f, 0, 1, l);
  }

  /** Three stores that fill a node change nothing else. */
  lemma FillChanges(m: seq<Byte>, n: nat, prev: Word, next: Word, dummy: Word)
    requires Fits(m, n)
    ensures OnlyChanged(m, Stored(Stored(Stored(m, n + 8, dummy), n, prev), n + 4, next), n, NODE_SIZE)
  {
    hide Stored, ByteOf;
    var m1 := Stored(m, n + 8, dummy);
    StoredBytes(m, n + 8, dummy);
    StoredBytes(m1, n, prev);
    StoredBytes(Stored(m1, n, prev), n + 4, next);
  }

  /** While ptr's node is filled, the node behind the sentinel stays the same. */
  lemma AppendReads(m: seq<Byte>, first: nat, p: nat)
    requires CanAppend(m, first, p)
    ensures var m2 := Stored(Stored(m, p + 8, 0), p, first);
            && WordAt(m2, first + 4) == Next(m, first)
            && WordAt(Stored(m2, p + 4, Next(m, first)), first + 4) == Next(m, first)
  {
    hide Stored, WordAt;
    var m1 := Stored(m, p + 8, 0);
    StoredAt(m, p + 8, 0, first + 4);
    StoredAt(m1, p, first, first + 4);
    StoredAt(Stored(m1, p, first), p + 4, Next(m, first), first + 4);
  }

  /** Each of the first bytes from q, up to the smaller of the sizes n and size, is
      what the byte in the same place from p was. */
  ghost predicate Carried(m: seq<Byte>, m': seq<Byte>, p: nat, q: nat, n: nat, size: nat) {
    forall x: nat | p <= x < p + n && x < p + size ::
      x < |m| && q + (x - p) < |m'| && m'[q + (x - p)] == m[x]
  }

  lemma CopiedBytes(m: seq<Byte>, m': seq<Byte>, h: Heap, q: nat, p: nat, size: nat)
    requires p in h.blocks && Copied(m, m', q, p, CopySize(h, p, size))
    ensures Carried(m, m', p, q, Pow2(h.blocks[p].log), size)
  {
    forall x: nat | p <= x < p + size && x < p + Pow2(h.blocks[p].log)
      ensures x < |m| && q + (x - p) < |m'| && m'[q + (x - p)] == m[x]
    {
      assert p + (q + (x - p) - q) == x;
    }
  }

  lemma SentinelsChanged(m: seq<Byte>, m': seq<Byte>, brk: nat)
    requires OnlyChanged(m, m', brk, 2 * NODE_SIZE * NUM_BINS)
    ensures Untouched(m, m', map[], brk, HeapStart(brk))
  {
  }

  lemma InitRepresents(t: seq<Byte>, m: seq<Byte>, brk: nat)
    requires |t| == TABLE_SLOTS && |m| == LIMIT && HeapStart(brk) <= LIMIT
    requires Reserved(t, HeapStart(brk)) && forall k | 0 <= k < NUM_BINS :: EmptyBin(m, brk, k)
    ensures Represents(t, m, brk, InitHeap(HeapStart(brk))) && Coalesced(InitHeap(HeapStart(brk)))
  {
    InitStart(brk);
    forall k | 0 <= k < NUM_BINS ensures BinOk(m, brk, [], k) {
      EmptyBinOk(m, brk, k);
    }
  }

  // ---------------------------------------------------------------------- whole runs

  /** Zeroing the new block is no concern of the others. */
  lemma ClearFrame(t0: seq<Byte>, m0: seq<Byte>, t1: seq<Byte>, m1: seq<Byte>, m2: seq<Byte>, h0: Heap, h1: Heap,
                   p: nat, n: nat, brk: nat)
    requires Inv(h1) && h1.lo == h0.lo == HeapStart(brk) && IsUsed(h1, p) && p !in Live(h0)
    requires Live(h1) == Live(h0)[p := h1.blocks[p].log] && n <= Pow2(h1.blocks[p].log)
    requires Frame(t0, m0, t1, m1, Live(h0), brk, h0.lo, h1.end) && OnlyChanged(m1, m2, p, n)
    ensures Frame(t0, m0, t1, m2, Live(h0), brk, h0.lo, h1.end)
  {
    hide Inv, Live, OnlyChanged;
    WriteUntouched(m1, m2, h1, p, n, brk);
    UntouchedLess(m1, m2, Live(h1) - {p}, Live(h0), brk, h1.end);
    UntouchedTwice(m0, m1, m2, Live(h0), brk, h1.end);
  }

  // ------------------------------------------------------- what the program can observe

  /** Memory holds these bytes. */
  ghost predicate Holds(m: seq<Byte>, bytes: map<nat, Byte>) {
    forall a | a in bytes :: a < |m| && m[a] == bytes[a]
  }

  lemma ShownKept(t: seq<Byte>, t': seq<Byte>, s: Program, end: nat)
    requires Sound(s) && Shown(t, s.regions, s.heap.lo) && SameOutside(t, t', s.heap.lo, end) && end <= LIMIT
    ensures Shown(t', s.regions, s.heap.lo)
  {
    hide Inv, Coalesced;
    assert forall c | c in s.regions :: ShowsRegion(t, c, s.regions[c], s.heap.lo);
  }

  /** Calls that keep the program's bytes keep what it can observe. */
  lemma Observed(s: Program, t: seq<Byte>, m: seq<Byte>, t': seq<Byte>, m': seq<Byte>, live: map<nat, nat>, end: nat,
                 bytes: map<nat, Byte>)
    requires Sound(s) && Holds(m, s.bytes) && Shown(t, s.regions, s.heap.lo) && end <= LIMIT
    requires Frame(t, m, t', m', live, s.brk, s.heap.lo, end)
    requires forall a | a in bytes :: a in s.bytes && bytes[a] == s.bytes[a] && (a < s.brk || InLive(live, a))
    ensures Holds(m', bytes) && Shown(t', s.regions, s.heap.lo)
  {
    ShownKept(t, t', s, end);
    hide Sound, InLive, Region;
  }

  /** malloc */
  lemma ObservedMalloc(s: Program, t: seq<Byte>, m: seq<Byte>, t': seq<Byte>, m': seq<Byte>, end: nat)
    requires Sound(s) && Holds(m, s.bytes) && Shown(t, s.regions, s.heap.lo) && end <= LIMIT
    requires Frame(t, m, t', m', Live(s.heap), s.brk, s.heap.lo, end)
    ensures Holds(m', s.bytes) && Shown(t', s.regions, s.heap.lo)
  {
    hide Frame, InLive, Inv, Coalesced, Shown, Holds;
    assert forall a | a in s.bytes :: Owned(s, a);
    Observed(s, t, m, t', m', Live(s.heap), end, s.bytes);
  }

  /** calloc */
  lemma ObservedCalloc(s: Program, t: seq<Byte>, m: seq<Byte>, t': seq<Byte>, m': seq<Byte>, end: nat, p: nat, n: nat)
    requires Sound(s) && Holds(m, s.bytes) && Shown(t, s.regions, s.heap.lo) && end <= LIMIT
    requires Frame(t, m, t', m', Live(s.heap), s.brk, s.heap.lo, end)
    requires p + n <= |m'| && forall x | p <= x < p + n :: m'[x] == 0
    ensures Holds(m', Fill(s.bytes, p, n, 0)) && Shown(t', s.regions, s.heap.lo)
  {
    hide Sound, Frame, Shown, Fill;
    ObservedMalloc(s, t, m, t', m', end);
  }

  /** What is left to the program of its bytes when block p is freed. */
  lemma KeptOwned(s: Program, p: nat)
    requires Sound(s) && IsUsed(s.heap, p)
    ensures var kept := Forgotten(s.bytes, p, Pow2(s.heap.blocks[p].log));
            forall a | a in kept ::
              a in s.bytes && kept[a] == s.bytes[a] && (a < s.brk || InLive(Live(s.heap) - {p}, a))
  {
    hide Inv, Coalesced, Pow2;
    var kept := Forgotten(s.bytes, p, Pow2(s.heap.blocks[p].log));
    forall a | a in kept ensures a < s.brk || InLive(Live(s.heap) - {p}, a) {
      assert Owned(s, a);
      if a >= s.brk {
        var b :| b in Live(s.heap) && b <= a < b + Pow2(Live(s.heap)[b]);
        assert b in Live(s.heap) - {p};
      }
    }
  }

  /** free */
  lemma ObservedFree(s: Program, t: seq<Byte>, m: seq<Byte>, t': seq<Byte>, m': seq<Byte>, p: nat)
    requires Sound(s) && Holds(m, s.bytes) && Shown(t, s.regions, s.heap.lo) && IsUsed(s.heap, p)
    requires Frame(t, m, t', m', Live(s.heap) - {p}, s.brk, s.heap.lo, s.heap.end) && s.heap.end <= LIMIT
    ensures Holds(m', Forgotten(s.bytes, p, Pow2(s.heap.blocks[p].log))) && Shown(t', s.regions, s.heap.lo)
  {
    hide Sound, Frame, InLive, Shown, Holds, Forgotten, Live;
    KeptOwned(s, p);
    Observed(s, t, m, t', m', Live(s.heap) - {p}, s.heap.end, Forgotten(s.bytes, p, Pow2(s.heap.blocks[p].log)));
  }

  /** realloc */
  lemma ObservedRealloc(s: Program, t: seq<Byte>, m: seq<Byte>, t': seq<Byte>, m': seq<Byte>, end: nat, p: nat, q: nat,
                        n: nat)
    requires Sound(s) && Holds(m, s.bytes) && Shown(t, s.regions, s.heap.lo) && IsUsed(s.heap, p) && end <= LIMIT
    requires Frame(t, m, t', m', Live(s.heap) - {p}, s.brk, s.heap.lo, end) && Copied(m, m', q, p, n)
    ensures var kept := Forgotten(s.bytes, p, Pow2(s.heap.blocks[p].log));
            Holds(m', CopyBytes(s.bytes, kept, p, q, n)) && Shown(t', s.regions, s.heap.lo)
  {
    hide Sound, Frame, InLive, Shown, Forgotten, Live, CopyBytes, Holds, Copied;
    var kept := Forgotten(s.bytes, p, Pow2(s.heap.blocks[p].log));
    KeptOwned(s, p);
    Observed(s, t, m, t', m', Live(s.heap) - {p}, end, kept);
    CopiedHolds(m, m', s.bytes, kept, p, q, n);
  }

  lemma CopiedHolds(m: seq<Byte>, m': seq<Byte>, source: map<nat, Byte>, bytes: map<nat, Byte>, p: nat, q: nat, n: nat)
    requires Holds(m, source) && Holds(m', bytes) && Copied(m, m', q, p, n)
    ensures Holds(m', CopyBytes(source, bytes, p, q, n))
  {
    hide CopyBytes;
    var all := CopyBytes(source, bytes, p, q, n);
    forall a | a in all ensures a < |m'| && m'[a] == all[a] {
      if q <= a < q + n {
        assert m'[a] == m[p + (a - q)];
      }
    }
  }

  /** Registering a region leaves the blocks' part of the table alone. */
  lemma RegisterRepresents(t: seq<Byte>, t': seq<Byte>, m: seq<Byte>, brk: nat, h: Heap, loc: nat, lg: nat)
    requires Represents(t, m, brk, h) && CanRegister(h, loc, lg)
    requires Filled(t, t', loc / 16, loc / 16 + Pow2(lg - 4), lg)
    ensures Represents(t', m, brk, h)
  {
    hide BinsOk, ListsOk, Reserved, Aligned, Harmless;
    RegionSlots(loc, lg);
    RegistrationReserved(t, t', loc, lg, h.lo);
    forall b | b in h.blocks ensures h.blocks[b].log < 128 && Marked(t', b, h.blocks[b]) {
      assert BlockOk(h, b);
      MarkElsewhere(t, t', loc / 16, loc / 16 + Pow2(lg - 4), lg, b, h.blocks[b]);
    }
  }

  lemma RegionSlots(c: nat, k: nat)
    requires Aligned(c, k) && 4 <= k
    ensures 16 * (c / 16) == c && 16 * (c / 16 + Pow2(k - 4)) == c + Pow2(k)
  {
    AlignedSlots(c, k);
    Pow2Sixteen(k);
  }

  lemma RegisterShown(t: seq<Byte>, t': seq<Byte>, regions: map<nat, nat>, loc: nat, lg: nat, lo: nat)
    requires Shown(t, regions, lo) && RegionPlace(loc, lg, lo)
    requires Filled(t, t', loc / 16, loc / 16 + Pow2(lg - 4), lg)
    ensures Shown(t', Registered(regions, loc, lg), lo)
  {
    hide Aligned, Pow2, Harmless;
    RegionSlots(loc, lg);
    forall c | c in Registered(regions, loc, lg) && c != loc ensures ShowsRegion(t', c, regions[c], lo) {
      assert ShowsRegion(t, c, regions[c], lo);
    }
  }

  lemma MallocSizes(h: Heap, size: nat)
    requires Inv(h) && CanMalloc(h, size)
    ensures var g := BuddyHeap.Malloc(h, size).0; g.end <= LIMIT && g.lo == h.lo
  {
    MallocOk(h, size);
  }

  /** free and realloc of the null pointer */
  lemma ObservedNull(s: Program, t: seq<Byte>, m: seq<Byte>, t': seq<Byte>, m': seq<Byte>, end: nat)
    requires Sound(s) && Holds(m, s.bytes) && Shown(t, s.regions, s.heap.lo) && end <= LIMIT
    requires Frame(t, m, t', m', Live(s.heap) - {0}, s.brk, s.heap.lo, end)
    ensures Holds(m', s.bytes) && Shown(t', s.regions, s.heap.lo)
  {
    assert 0 in s.heap.blocks ==> BlockOk(s.heap, 0);
    assert Live(s.heap) - {0} == Live(s.heap);
    ObservedMalloc(s, t, m, t', m', end);
  }

  lemma HoldsStored(m: seq<Byte>, bytes: map<nat, Byte>, a: nat, b: Byte)
    requires Holds(m, bytes) && a < |m|
    ensures Holds(m[a := b], bytes[a := b])
  {
  }

  lemma HoldsAt(m: seq<Byte>, bytes: map<nat, Byte>, a: nat)
    requires Holds(m, bytes) && a in bytes
    ensures a < |m| && m[a] == bytes[a]
  {
  }

  lemma RegionInTable(c: nat, k: nat, h: Heap)
    requires Inv(h) && RegionPlace(c, k, h.lo)
    ensures 4 <= k <= 30 && c / 16 + Pow2(k - 4) <= TABLE_SLOTS && Aligned(c, k)
  {
    RegionSlots(c, k);
    AlignedPow2(k, 31);
    Pow2Values();
    hide Pow2, Aligned, Harmless;
    AlignedGap(c, 16 * TABLE_SLOTS, k);
  }

  /** The slot of address x gives the log, the USED bit and the start of the
      block around x. */
  ghost predicate SlotRight(t: seq<Byte>, h: Heap, x: nat) {
    && x / 16 < |t|
    && var b := Floor(x, GetLogsize(t[x / 16]));
       Contains(h, b, x) && h.blocks[b] == Block(GetLogsize(t[x / 16]), IsUsedByte(t[x / 16]))
  }

  /** Bin k in memory, walked from either sentinel, visits each maximal vacant
      interval of size 2^k once and nothing else. */
  ghost predicate BinRight(m: seq<Byte>, brk: nat, h: Heap, k: nat) {
    k < |h.bins|
    && var c := ChainOf(brk, h.bins[k], k);
       && (forall i | 0 <= i < |c| :: Follow(m, First(brk, k), i) == c[i])
       && (forall i | 0 <= i < |c| :: FollowBack(m, Last(brk, k), i) == c[|c| - 1 - i])
       && NoDuplicates(h.bins[k])
       && forall a: nat :: a in h.bins[k] <==> MaximalVacant(h, a, k)
  }

  /** The three views of the heap: blocks, table and lists. */
  lemma ViewsAgree(t: seq<Byte>, m: seq<Byte>, brk: nat, h: Heap)
    requires Represents(t, m, brk, h) && Coalesced(h)
    ensures forall x: nat | h.lo <= x < h.end :: SlotRight(t, h, x)
    ensures forall k | 0 <= k < NUM_BINS :: BinRight(m, brk, h, k)
  {
    hide Coalesced, Tiled, TableOkBut, ListsOk, MaximalVacant, Follow, FollowBack;
    forall x: nat | h.lo <= x < h.end ensures SlotRight(t, h, x) {
      SlotShowsBlock(t, h, x);
    }
    forall k | 0 <= k < NUM_BINS ensures BinRight(m, brk, h, k) {
      forall i | 0 <= i < |h.bins[k]| + 2
        ensures var c := ChainOf(brk, h.bins[k], k);
                Follow(m, First(brk, k), i) == c[i] && FollowBack(m, Last(brk, k), i) == c[|c| - 1 - i]
      {
        WalkBin(m, brk, h.bins, k, i);
      }
      forall a: nat ensures a in h.bins[k] <==> MaximalVacant(h, a, k) {
        FreeIffMaximal(h, a, k);
      }
    }
  }

  class BuddyAllocator {
    const table: array<Byte>
    const mem: array<Byte>
    const brk: nat

    var heapEnd: nat
    var heapSize: nat
    var programBreak: nat

    ghost var heap: Heap

    ghost predicate Shape()
      reads this
    {
      table.Length == TABLE_SLOTS && mem.Length == LIMIT && table != mem
    }

    /** Everything between two calls inside an operation. */
    ghost predicate Consistent()
      reads this, table, mem
    {
      && Shape()
      && heapEnd == heapSize == programBreak == heap.end
      && Represents(table[..], mem[..], brk, heap)
    }

    /** Everything between two calls of the program. */
    ghost predicate Valid()
      reads this, table, mem
    {
      Consistent() && Coalesced(heap)
    }

    /** Sentinels in the first bytes above the program break, then the heap. */
    constructor (table: array<Byte>, mem: array<Byte>, brk: nat)
      requires table.Length == TABLE_SLOTS && mem.Length == LIMIT && table != mem
      requires HeapStart(brk) <= LIMIT
      modifies table, mem
      ensures this.table == table && this.mem == mem && this.brk == brk
      ensures Valid() && heap == InitHeap(HeapStart(brk))
      ensures forall s | 0 <= s < table.Length ::
                table[s] == if 16 * s < heap.lo then FormMetadata(4, true) else old(table[s])
      ensures Untouched(old(mem[..]), mem[..], map[], brk, heap.lo)
    {
      hide Represents, EmptyBin, Coalesced, First, Last;
      this.table, this.mem, this.brk := table, mem, brk;
      heapEnd, heapSize, programBreak := 0, 0, brk;
      new;
      ghost var m := mem[..];
      InitLists();
      AlignHeapEnd();
      MarkReserved();
      heap := InitHeap(heapEnd);
      InitRepresents(table[..], mem[..], brk);
      SentinelsChanged(m, mem[..], brk);
    }

    /** The heap starts at the next multiple of SLOT_SIZE; what is skipped is
        thrown away. */
    method AlignHeapEnd()
      modifies `heapEnd, `heapSize, `programBreak
      ensures heapEnd == heapSize == programBreak == (old(programBreak) + 15) / 16 * 16
    {
      heapEnd := programBreak;
      var reminder := SLOT_SIZE - heapEnd % SLOT_SIZE;
      if reminder < SLOT_SIZE {
        var discarded := Sbrk(reminder);
        heapEnd := programBreak;
      }
      heapSize := heapEnd;
      assert heapEnd % SLOT_SIZE == 0;
    }

    /** Allocate and link the sentinels of every bin. */
    method InitLists()
      requires Shape() && HeapStart(brk) <= LIMIT && programBreak == brk
      modifies `programBreak, mem
      ensures programBreak == brk + 2 * NODE_SIZE * NUM_BINS
      ensures forall k | 0 <= k < NUM_BINS :: EmptyBin(mem[..], brk, k)
      ensures OnlyChanged(old(mem[..]), mem[..], brk, 2 * NODE_SIZE * NUM_BINS)
    {
      hide EmptyBin;
      var binId := 0;
      while binId < NUM_BINS
        invariant binId <= NUM_BINS && programBreak == brk + 2 * NODE_SIZE * binId
        invariant forall k | 0 <= k < binId :: EmptyBin(mem[..], brk, k)
        invariant OnlyChanged(old(mem[..]), mem[..], brk, 2 * NODE_SIZE * binId)
      {
        ghost var m := mem[..];
        var first := Sbrk(NODE_SIZE);
        var last := Sbrk(NODE_SIZE);
        InitSentinels(first, last, binId);
        forall k | 0 <= k < binId ensures EmptyBin(mem[..], brk, k) {
          EmptyBinKept(m, mem[..], brk, k, binId);
        }
        binId := binId + 1;
      }
    }

    /** Everything below the heap is used, in blocks of one slot. */
    method MarkReserved()
      requires Shape() && heapEnd % 16 == 0 && heapEnd <= LIMIT
      modifies table
      ensures Filled(old(table[..]), table[..], 0, heapEnd / 16, FormMetadata(4, true))
    {
      var slotId := 0;
      while slotId * SLOT_SIZE < heapEnd
        invariant 16 * slotId <= heapEnd
        invariant Filled(old(table[..]), table[..], 0, slotId, FormMetadata(4, true))
      {
        table[slotId] := FormMetadata(4, true);
        slotId := slotId + 1;
      }
    }

    /** Link the two sentinels of bin k to each other. */
    method InitSentinels(first: nat, last: nat, ghost k: nat)
      requires Shape() && k < NUM_BINS && HeapStart(brk) <= LIMIT
      requires first == First(brk, k) && last == Last(brk, k)
      modifies mem
      ensures EmptyBin(mem[..], brk, k)
      ensures OnlyChanged(old(mem[..]), mem[..], first, 2 * NODE_SIZE)
    {
      hide EmptyBin, Stored;
      ghost var m := mem[..];
      StoreWord(first + 8, 1);
      StoreWord(first, 0);
      StoreWord(first + 4, last);
      ghost var m1 := mem[..];
      StoreWord(last + 8, 1);
      StoreWord(last, first);
      StoreWord(last + 4, 0);
      LinkedSentinels(m, brk, k);
      FillChanges(m, first, 0, last, 1);
      FillChanges(m1, last, first, 0, 1);
    }

    /** A store to memory. */
    method StoreWord(a: nat, w: Word)
      requires a + 4 <= mem.Length
      modifies mem
      ensures mem[..] == Stored(old(mem[..]), a, w)
    {
      mem[a] := ByteOf(w, 0);
      mem[a + 1] := ByteOf(w, 1);
      mem[a + 2] := ByteOf(w, 2);
      mem[a + 3] := ByteOf(w, 3);
    }

    function LoadWord(a: nat): (w: Word)
      requires a + 4 <= mem.Length
      reads mem
      ensures w == WordAt(mem[..], a)
    {
      WordAt(mem[a..a + 4], 0)
    }

    method Sbrk(n: nat) returns (p: nat)
      modifies `programBreak
      ensures p == old(programBreak) && programBreak == old(programBreak) + n
    {
      p := programBreak;
      programBreak := programBreak + n;
    }

    method TableMark(ptr: nat, size: nat, used: bool, ghost k: nat)
      requires Shape() && 4 <= k <= 30 && size == Pow2(k) && Aligned(ptr, k) && ptr + size <= LIMIT
      modifies table
      ensures Filled(old(table[..]), table[..], ptr / 16, (ptr + size) / 16, FormMetadata(k, used))
    {
      LogOfPow2(k);
      AlignedSlots(ptr, k);
      var log2Size := GetLog2(size);
      var firstSlotId := ptr / SLOT_SIZE;
      var slotId := firstSlotId;
      while slotId * SLOT_SIZE < ptr + size
        invariant firstSlotId <= slotId <= (ptr + size) / 16
        invariant Filled(old(table[..]), table[..], firstSlotId, slotId, FormMetadata(k, used))
      {
        table[slotId] := FormMetadata(log2Size, used);
        slotId := slotId + 1;
      }
      assert slotId - firstSlotId == size / SLOT_SIZE;
    }

    /** The dummy flag behind the first sentinel tells whether bin binId is empty. */
    method ListEmpty(binId: nat) returns (dummy: Word)
      requires Consistent() && binId < NUM_BINS
      ensures binId < |heap.bins| && dummy == if heap.bins[binId] == [] then 1 else 0
    {
      EmptyIffDummy(mem[..], brk, heap.bins, binId);
      var next := LoadWord(First(brk, binId) + 4);
      dummy := LoadWord(next + 8);
    }

    /** Block ptr of h becomes the first member of bin binId. */
    method ListAppend(ptr: nat, binId: nat, ghost h: Heap, ghost lists: seq<seq<nat>>, ghost live: map<nat, nat>)
      requires Shape() && Listing(mem[..], brk, h, lists, live) && binId < NUM_BINS
      requires Fresh(lists, ptr) && ptr in h.blocks && ptr !in live
      modifies mem
      ensures |lists| == NUM_BINS && Listing(mem[..], brk, h, Push(lists, binId, ptr), live)
      ensures Untouched(old(mem[..]), mem[..], live, brk, h.end)
    {
      hide Listing, Stored, Fresh, Untouched;
      ListStep(mem[..], brk, h, lists, binId, ptr, live);
      var first := First(brk, binId);
      StoreWord(ptr + 8, 0);
      StoreWord(ptr, first);
      AppendReads(old(mem[..]), first, ptr);
      StoreWord(ptr + 4, LoadWord(first + 4));
      StoreWord(LoadWord(first + 4), ptr);
      StoreWord(first + 4, ptr);
    }

    /** Block ptr leaves its bin. */
    method ListRemove(ptr: nat, ghost binId: nat, ghost h: Heap, ghost lists: seq<seq<nat>>,
                      ghost live: map<nat, nat>)
      requires Shape() && Listing(mem[..], brk, h, lists, live) && binId < NUM_BINS
      requires |lists| == NUM_BINS && ptr in lists[binId]
      modifies mem
      ensures Listing(mem[..], brk, h, Unlink(lists, binId, ptr), live)
      ensures Untouched(old(mem[..]), mem[..], live, brk, h.end)
    {
      hide Listing, Stored, Untouched;
      UnlistStep(mem[..], brk, h, lists, binId, ptr, live);
      var prev := LoadWord(ptr);
      var next := LoadWord(ptr + 4);
      StoreWord(next, prev);
      StoreWord(prev + 4, next);
    }

    /** The bin of the heap size's lowest set bit. */
    method LowestSetBit() returns (binId: nat)
      requires heapSize > 0
      ensures binId == LowLog(heapSize)
    {
      binId := 0;
      while Shr(heapSize, binId) % 2 == 0
        invariant Shr(heapSize, binId) > 0
        invariant LowLog(heapSize) == binId + LowLog(Shr(heapSize, binId))
        decreases LowLog(heapSize) - binId
      {
        ShrStep(heapSize, binId);
        binId := binId + 1;
      }
    }

    /** One round of the growth loop. */
    method GrowOnce(ghost live: map<nat, nat>) returns (ptr: nat, binId: nat, sizeAllocated: nat)
      requires Consistent() && heap.end > 0 && heap.end + LowBit(heap.end) <= LIMIT && Within(live, heap)
      modifies this, table, mem
      ensures LowLog(old(heap.end)) < |old(heap).bins|
      ensures Consistent() && heap == Grow(old(heap))
      ensures ptr == old(heap.end) && binId == LowLog(ptr) && sizeAllocated == LowBit(ptr)
      ensures Frame(old(table[..]), old(mem[..]), table[..], mem[..], live, brk, heap.lo, heap.end)
    {
      hide Represents, Inv, BoundsOk, Tiled, BinsOk, Listing, Untouched, SameOutside, Filled, Within, Pow2, LowLog,
        Aligned, Fresh, Live, Coalesced, First, Last, HeapStart;
      ghost var h, t, m := heap, table[..], mem[..];
      RepresentsInv(t, m, brk, h);
      GrowOk(h);
      GrowPlace(h);
      GrowLists(t, m, brk, h, live);
      binId := LowestSetBit();
      sizeAllocated := Pow2(binId);
      ptr := Sbrk(sizeAllocated);
      TableMark(ptr, sizeAllocated, false, binId);
      ListAppend(ptr, binId, Grow(h), h.bins, live);
      heapEnd := heapEnd + sizeAllocated;
      heapSize := heapSize + sizeAllocated;
      assert heapEnd == programBreak;
      GrowStep(t, table[..], m, mem[..], brk, h, live);
      heap := Grow(h);
    }

    /** Grow the heap by its lowest set bit until that is large enough. */
    method IncreaseHeap(sizeToAllocate: nat) returns (ptr: nat, binId: nat)
      requires Consistent() && heap.end > 0 && |heap.bins| == NUM_BINS && GrowEnd(heap.end, sizeToAllocate) <= LIMIT
      modifies this, table, mem
      ensures Consistent() && (heap, ptr, binId) == GrowFor(old(heap), sizeToAllocate)
      ensures Frame(old(table[..]), old(mem[..]), table[..], mem[..], Live(old(heap)), brk, heap.lo, heap.end)
    {
      hide Represents, Frame, BoundsOk, Tiled, BinsOk, Live, Pow2, LowLog, Coalesced;
      ghost var live := Live(heap);
      RepresentsInv(table[..], mem[..], brk, heap);
      FrameRefl(table[..], mem[..], live, brk, heap.lo, heap.end);
      while true
        invariant Consistent() && Inv(heap) && heap.end > 0 && |heap.bins| == NUM_BINS
        invariant GrowEnd(heap.end, sizeToAllocate) <= LIMIT
        invariant GrowFor(heap, sizeToAllocate) == GrowFor(old(heap), sizeToAllocate)
        invariant Live(heap) == live && heap.lo == old(heap.lo)
        invariant Frame(old(table[..]), old(mem[..]), table[..], mem[..], live, brk, heap.lo, heap.end)
        decreases sizeToAllocate - LowBit(heap.end)
      {
        ghost var h, t, m := heap, table[..], mem[..];
        LowBitCarry(h.end);
        GrowOk(h);
        var sizeAllocated;
        ptr, binId, sizeAllocated := GrowOnce(live);
        RepresentsInv(table[..], mem[..], brk, heap);
        FrameTrans(old(table[..]), old(mem[..]), t, m, table[..], mem[..], live, brk, h.lo, h.end, heap.end);
        if !(sizeToAllocate > sizeAllocated) {
          break;
        }
      }
    }

    /** Search the bins upwards for a block. */
    method FindBin(log2: nat) returns (binId: nat)
      requires Consistent() && |heap.bins| == NUM_BINS && log2 <= NUM_BINS
      ensures binId == FirstFit(heap.bins, log2)
    {
      binId := log2;
      while binId < NUM_BINS
        invariant log2 <= binId <= NUM_BINS
        invariant FirstFit(heap.bins, binId) == FirstFit(heap.bins, log2)
      {
        var dummy := ListEmpty(binId);
        if dummy == 0 {
          break;
        }
        binId := binId + 1;
      }
    }

    /** Give the right half of block ptr, of size 2^(k + 1), back to bin k. */
    method SplitHalf(ptr: nat, j: nat, k: nat, ghost h: Heap, ghost lists: seq<seq<nat>>, ghost live: map<nat, nat>)
      requires Shape() && Splitting(table[..], mem[..], brk, h, lists, ptr, j)
      requires 4 <= k < j && h.blocks[ptr] == Block(k + 1, true) && Within(live, h) && ptr !in live
      modifies table, mem
      ensures Splitting(table[..], mem[..], brk, SplitOnce(h, ptr, k), Push(lists, k, ptr + Pow2(k)), ptr, j)
      ensures Frame(old(table[..]), old(mem[..]), table[..], mem[..], live, brk, h.lo, h.end)
    {
      hide Splitting, Inv, Within, Untouched, SameOutside, Filled, Listing, Fresh, Aligned, Pow2, SplitOnce;
      ghost var t, m := table[..], mem[..];
      SplittingFacts(t, m, brk, h, lists, ptr, j);
      SplitPlace(h, ptr, k);
      SplitLists(t, m, brk, h, lists, ptr, j, k, live);
      var rightHalfPtr := ptr + Pow2(k);
      TableMark(rightHalfPtr, Pow2(k), false, k);
      ListAppend(rightHalfPtr, k, SplitOnce(h, ptr, k), lists, live);
      SplitTable(t, table[..], h, ptr, k);
      SplittingStep(t, table[..], m, mem[..], brk, h, lists, ptr, j, k, live);
    }

    /** Cut block ptr, listed in bin j, down to sizeToAllocate. */
    method SplitBlock(ptr: nat, j: nat, sizeToAllocate: nat, ghost log2: nat, ghost h: Heap,
                      ghost lists: seq<seq<nat>>, ghost live: map<nat, nat>)
      returns (binId: nat, ghost lists': seq<seq<nat>>)
      requires Shape() && 4 <= log2 <= j < NUM_BINS && sizeToAllocate == Pow2(log2)
      requires Splitting(table[..], mem[..], brk, h, lists, ptr, j)
      requires h.blocks[ptr] == Block(j, true) && Within(live, h) && ptr !in live
      modifies table, mem
      ensures binId == log2
      ensures Splitting(table[..], mem[..], brk, Split(h, ptr, j, log2), lists', ptr, j)
      ensures Frame(old(table[..]), old(mem[..]), table[..], mem[..], live, brk, h.lo, h.end)
    {
      hide Splitting, Frame, BoundsOk, Tiled, BinsOk, TableOkBut, Reserved, Pow2, Live;
      binId := j;
      ghost var g := h;
      lists' := lists;
      SplittingFacts(table[..], mem[..], brk, g, lists', ptr, j);
      FrameRefl(table[..], mem[..], live, brk, h.lo, h.end);
      while Pow2(binId - 1) >= sizeToAllocate
        invariant log2 <= binId <= j && Inv(g) && |g.bins| == |lists'| == NUM_BINS
        invariant Splitting(table[..], mem[..], brk, g, lists', ptr, j)
        invariant ptr in g.blocks && g.blocks[ptr] == Block(binId, true)
        invariant Split(g, ptr, binId, log2) == Split(h, ptr, j, log2)
        invariant Within(live, g) && g.lo == h.lo && g.end == h.end
        invariant Frame(old(table[..]), old(mem[..]), table[..], mem[..], live, brk, h.lo, h.end)
        decreases binId
      {
        SplitGuard(binId, log2);
        ghost var t, m := table[..], mem[..];
        SplitOnceOk(g, ptr, binId - 1);
        SplitHalf(ptr, j, binId - 1, g, lists', live);
        FrameTrans(old(table[..]), old(mem[..]), t, m, table[..], mem[..], live, brk, h.lo, h.end, h.end);
        g, lists' := SplitOnce(g, ptr, binId - 1), Push(lists', binId - 1, ptr + Pow2(binId - 1));
        binId := binId - 1;
        SplittingFacts(table[..], mem[..], brk, g, lists', ptr, j);
      }
      SplitGuard(binId, log2);
    }

    /** The first block that is large enough, from the bins or by growing. */
    method ChooseBlock(sizeToAllocate: nat, log2: nat, ghost size: nat) returns (ptr: nat, binId: nat)
      requires Consistent() && CanMalloc(heap, size)
      requires log2 == BlockLog(size) && sizeToAllocate == Pow2(log2)
      modifies this, table, mem
      ensures Consistent() && (heap, ptr, binId) == Choose(old(heap), size)
      ensures Frame(old(table[..]), old(mem[..]), table[..], mem[..], Live(old(heap)), brk, heap.lo, heap.end)
    {
      hide Represents, Frame, BoundsOk, Tiled, BinsOk;
      BlockLogRange(size);
      binId := FindBin(log2);
      if binId < NUM_BINS {
        HeadOfBin(table[..], mem[..], brk, heap, binId);
        ptr := LoadWord(First(brk, binId) + 4);
        FrameRefl(table[..], mem[..], Live(heap), brk, heap.lo, heap.end);
      } else {
        ptr, binId := IncreaseHeap(sizeToAllocate);
      }
    }

    /** Cut the free block ptr of bin j to size and hand it out. */
    method CutBlock(ptr: nat, j: nat, sizeToAllocate: nat, ghost log2: nat)
      requires Consistent() && j < NUM_BINS && IsFree(heap, ptr, j)
      requires 4 <= log2 <= j && sizeToAllocate == Pow2(log2)
      modifies this, table, mem
      ensures Consistent() && j < |old(heap).bins| && heap == Split(Take(old(heap), ptr, j), ptr, j, log2)
      ensures Frame(old(table[..]), old(mem[..]), table[..], mem[..], Live(old(heap)), brk, heap.lo, heap.end)
    {
      hide Represents, Frame, BoundsOk, Tiled, BinsOk, Coalesced, Splitting, Within, Listing, Untouched, Filled, Live;
      ghost var h, t, m := heap, table[..], mem[..];
      ghost var live := Live(h);
      RepresentsInv(t, m, brk, h);
      CutOk(t, m, brk, h, ptr, j, log2);
      ghost var g := Split(Take(h, ptr, j), ptr, j, log2);
      ghost var lists;
      var binId;
      binId, lists := SplitBlock(ptr, j, sizeToAllocate, log2, Take(h, ptr, j), h.bins, live);
      ghost var t1, m1 := table[..], mem[..];
      SplittingFacts(t1, m1, brk, g, lists, ptr, j);
      SplittingLists(t1, m1, brk, g, lists, ptr, j, live);
      // mark as not free
      TableMark(ptr, Pow2(binId), true, binId);
      ListRemove(ptr, j, g, lists, live);
      SplittingEnd(t1, table[..], m1, mem[..], brk, g, lists, ptr, j, live);
      heap := g;
      CutFrame(t, m, t1, m1, table[..], mem[..], live, brk, h.lo, h.end);
    }

    method Malloc(size: nat) returns (ptr: nat)
      requires Valid() && CanMalloc(heap, size)
      modifies this, table, mem
      ensures Inv(old(heap)) && Valid() && (heap, ptr) == BuddyHeap.Malloc(old(heap), size)
      ensures Frame(old(table[..]), old(mem[..]), table[..], mem[..], Live(old(heap)), brk, heap.lo, heap.end)
    {
      hide Represents, Frame, BoundsOk, Tiled, BinsOk, Coalesced, Live, InLive, Aligned;
      ghost var h0, t0, m0 := heap, table[..], mem[..];
      RepresentsInv(t0, m0, brk, h0);
      ChooseOk(h0, size);
      MallocOk(h0, size);
      SizeClass(size);
      var lg := GetLog2(if size == 0 then 16 else size);
      var sizeToAllocate := Pow2(lg % 32);
      if sizeToAllocate < SLOT_SIZE {
        sizeToAllocate := SLOT_SIZE;
      }
      var log2 := GetLog2(sizeToAllocate);
      var binId;
      ptr, binId := ChooseBlock(sizeToAllocate, log2, size);
      ghost var h, t, m := heap, table[..], mem[..];
      FreeSlot(t, m, brk, h, ptr, binId);
      assert ptr != 0;
      assert !IsUsedByte(table[ptr / SLOT_SIZE]) && GetLogsize(table[ptr / SLOT_SIZE]) == binId;
      CutBlock(ptr, binId, sizeToAllocate, log2);
      FrameTrans(t0, m0, t, m, table[..], mem[..], Live(h0), brk, h0.lo, h.end, h.end);
    }

    /** Both buddies leave bin k. */
    method UnlistBuddies(ptr: nat, buddyPtr: nat, ghost k: nat, ghost live: map<nat, nat>)
      requires Consistent() && Inv(heap) && IsFree(heap, ptr, k) && buddyPtr == Buddy(ptr, k)
      requires IsFree(heap, buddyPtr, k) && Within(live, heap)
      modifies mem
      ensures k < 30 && |heap.bins| == NUM_BINS
      ensures Listing(mem[..], brk, heap, Unlink(Unlink(heap.bins, k, ptr), k, buddyPtr), live)
      ensures Untouched(old(mem[..]), mem[..], live, brk, heap.end)
    {
      hide Represents, Inv, Listing, Untouched, Within, Remove, Buddy;
      ghost var m := mem[..];
      BuddyMembers(heap, ptr, k);
      ListingStart(table[..], m, brk, heap, live);
      ListRemove(ptr, k, heap, heap.bins, live);
      ghost var m1 := mem[..];
      ListRemove(buddyPtr, k, heap, Unlink(heap.bins, k, ptr), live);
      UntouchedTwice(m, m1, mem[..], live, brk, heap.end);
    }

    /** Replace the free block ptr of bin k and its free buddy by their union. */
    method MergeOnce(ptr: nat, buddyPtr: nat, k: nat, ghost live: map<nat, nat>) returns (newptr: nat)
      requires Consistent() && Inv(heap) && IsFree(heap, ptr, k) && buddyPtr == Buddy(ptr, k)
      requires IsFree(heap, buddyPtr, k) && Within(live, heap)
      modifies `heap, table, mem
      ensures k + 1 < |old(heap).bins| && Consistent() && heap == Merge(old(heap), ptr, k)
      ensures newptr == Lower(ptr, k) && IsFree(heap, newptr, k + 1)
      ensures Within(live, heap)
      ensures Frame(old(table[..]), old(mem[..]), table[..], mem[..], live, brk, heap.lo, heap.end)
    {
      hide Represents, Inv, Listing, Untouched, SameOutside, Filled, Merge, Pow2, Aligned, Buddy, Remove, Fresh, IsFree;
      ghost var h, t, m := heap, table[..], mem[..];
      if ptr < buddyPtr {
        newptr := ptr;
      } else {
        newptr := buddyPtr;
      }
      UnlistBuddies(ptr, buddyPtr, k, live);
      ghost var m2 := mem[..];
      ghost var lists := Unlink(Unlink(h.bins, k, ptr), k, buddyPtr);
      UnionLists(m2, brk, h, ptr, k, live);
      UnionInside(h, ptr, k);
      MergeFields(h, ptr, k);
      TableMark(newptr, Pow2(k) * 2, false, k + 1);
      ListAppend(newptr, k + 1, Merge(h, ptr, k), lists, live);
      MergeStep(t, table[..], m, mem[..], brk, h, ptr, k, live);
      heap := Merge(h, ptr, k);
      UntouchedTwice(m, m2, mem[..], live, brk, h.end);
    }

    /** Mark the used block ptr as free and list it. */
    method ReleaseBlock(ptr: nat) returns (binId: nat)
      requires Consistent() && IsUsed(heap, ptr)
      modifies `heap, table, mem
      ensures binId == old(heap).blocks[ptr].log < |old(heap).bins|
      ensures Consistent() && heap == Release(old(heap), ptr)
      ensures Frame(old(table[..]), old(mem[..]), table[..], mem[..], Live(old(heap)) - {ptr}, brk, heap.lo, heap.end)
    {
      hide Represents, Untouched, SameOutside, Filled, Listing, Release, Live, Pow2, BitLength, Aligned, Fresh;
      ghost var h, t, m := heap, table[..], mem[..];
      ghost var live := Live(h) - {ptr};
      UsedSlot(t, m, brk, h, ptr);
      var size := Pow2(GetLogsize(table[ptr / SLOT_SIZE]) % 32);
      binId := GetLog2(size);
      ReleaseLists(t, m, brk, h, ptr, live);
      TableMark(ptr, size, false, binId);
      ListAppend(ptr, binId, h, h.bins, live);
      ReleaseStep(t, table[..], m, mem[..], brk, h, ptr, live);
      heap := Release(h, ptr);
    }

    /** Merge the free block ptr0 with its buddy as long as that is free. */
    method CoalesceBlock(ptr0: nat, k0: nat, ghost live: map<nat, nat>)
      requires Consistent() && Inv(heap) && IsFree(heap, ptr0, k0) && Within(live, heap)
      modifies `heap, table, mem
      ensures Consistent() && heap == Coalesce(old(heap), ptr0, k0)
      ensures Frame(old(table[..]), old(mem[..]), table[..], mem[..], live, brk, heap.lo, heap.end)
    {
      hide Represents, BoundsOk, Tiled, BinsOk, Frame, Within;
      ghost var h0, t0, m0 := heap, table[..], mem[..];
      FrameRefl(t0, m0, live, brk, h0.lo, h0.end);
      var ptr: nat, binId: nat, tryCoalescing := ptr0, k0, true;
      while tryCoalescing
        invariant Consistent() && Inv(heap) && heap.lo == h0.lo && heap.end == h0.end
        invariant IsFree(heap, ptr, binId) && Within(live, heap)
        invariant Coalesce(heap, ptr, binId) == Coalesce(h0, ptr0, k0)
        invariant !tryCoalescing ==> heap == Coalesce(h0, ptr0, k0)
        invariant Frame(t0, m0, table[..], mem[..], live, brk, h0.lo, h0.end)
        decreases tryCoalescing, NUM_BINS - binId
      {
        ghost var h, t, m := heap, table[..], mem[..];
        FreeSlot(t, m, brk, h, ptr, binId);
        BuddySlot(t, m, brk, h, ptr, binId);
        var logsize := GetLogsize(table[ptr / SLOT_SIZE]);
        var buddyPtr := Shl(Xor(Shr(ptr, logsize), 1), logsize);
        if GetLogsize(table[buddyPtr / SLOT_SIZE]) == logsize && !IsUsedByte(table[buddyPtr / SLOT_SIZE]) {
          MergeOk(h, ptr, binId);
          ptr := MergeOnce(ptr, buddyPtr, binId, live);
          binId := binId + 1;
          FrameTrans(t0, m0, t, m, table[..], mem[..], live, brk, h0.lo, h0.end, h0.end);
        } else {
          tryCoalescing := false;
        }
      }
    }

    method Free(ptr: nat)
      requires Valid() && (ptr == 0 || IsUsed(heap, ptr))
      modifies `heap, table, mem
      ensures Inv(old(heap)) && Valid()
      ensures heap == if ptr == 0 then old(heap) else BuddyHeap.Free(old(heap), ptr)
      ensures Frame(old(table[..]), old(mem[..]), table[..], mem[..], Live(old(heap)) - {ptr}, brk, heap.lo, heap.end)
    {
      hide Represents, BoundsOk, Tiled, BinsOk, Coalesced, Frame;
      ghost var h, t, m := heap, table[..], mem[..];
      ghost var live := Live(h) - {ptr};
      RepresentsInv(t, m, brk, h);
      FrameRefl(t, m, live, brk, h.lo, h.end);
      if ptr == 0 {
        return;
      }
      FreeOk(h, ptr);
      ReleaseOk(h, ptr);
      var binId := ReleaseBlock(ptr);
      ghost var h1, t1, m1 := heap, table[..], mem[..];
      RepresentsInv(t1, m1, brk, h1);
      CoalesceBlock(ptr, binId, live);
      FrameTrans(t, m, t1, m1, table[..], mem[..], live, brk, h.lo, h.end, h.end);
    }

    /** A store of the program to a byte of its own. */
    method StoreByte(a: nat, b: Byte)
      requires Valid() && (a < brk || InLive(Live(heap), a))
      modifies mem
      ensures Valid() && a < mem.Length && mem[..] == old(mem[..])[a := b]
    {
      hide Represents, Coalesced, Tiled, BinsOk, BoundsOk, InLive, Live;
      ghost var m := mem[..];
      RepresentsInv(table[..], m, brk, heap);
      RepresentsSizes(table[..], m, brk, heap);
      OwnedInMemory(heap, a, brk);
      mem[a] := b;
      ProgramWrites(table[..], m, mem[..], brk, heap, a);
    }

    /** memcpy from one live block to the start of another. */
    method MemCopy(dst: nat, src: nat, n: nat)
      requires Valid() && IsUsed(heap, dst) && IsUsed(heap, src) && dst != src
      requires n <= Pow2(heap.blocks[dst].log) && n <= Pow2(heap.blocks[src].log)
      modifies mem
      ensures Valid()
      ensures Copied(old(mem[..]), mem[..], dst, src, n) && OnlyChanged(old(mem[..]), mem[..], dst, n)
    {
      hide Represents, Coalesced, Tiled, BinsOk, BoundsOk;
      RepresentsInv(table[..], mem[..], brk, heap);
      BlockInside(heap, src);
      BlockInside(heap, dst);
      LiveApart(heap, dst, src);
      var i: nat := 0;
      while i < n
        invariant i <= n && Valid()
        invariant Copied(old(mem[..]), mem[..], dst, src, i) && OnlyChanged(old(mem[..]), mem[..], dst, i)
      {
        BlockBytes(heap, dst, dst + i);
        StoreByte(dst + i, mem[src + i]);
        i := i + 1;
      }
    }

    /** The second half of a reallocation: the contents move, the old block goes. */
    method CopyAndFree(ptr: nat, newptr: nat, size: nat)
      requires Valid() && IsUsed(heap, ptr) && IsUsed(heap, newptr) && ptr != newptr
      requires CopySize(heap, ptr, size) <= Pow2(heap.blocks[newptr].log)
      modifies `heap, table, mem
      ensures Inv(old(heap)) && Valid() && heap == BuddyHeap.Free(old(heap), ptr)
      ensures Copied(old(mem[..]), mem[..], newptr, ptr, CopySize(old(heap), ptr, size))
      ensures Frame(old(table[..]), old(mem[..]), table[..], mem[..], Live(old(heap)) - {ptr} - {newptr}, brk,
                    heap.lo, heap.end)
    {
      hide Represents, Inv, Coalesced, Frame, Copied, OnlyChanged, BuddyHeap.Free, Live, Pow2, CanMalloc, Tiled,
        TableOkBut, Filled, Aligned, Contains, InLive, IsUsedByte, HeapStart;
      ghost var h, t, m := heap, table[..], mem[..];
      RepresentsInv(t, m, brk, h);
      RepresentsSizes(t, m, brk, h);
      UsedSlot(t, m, brk, h, ptr);
      FreeOk(h, ptr);
      var copySize := Pow2(GetLogsize(table[ptr / SLOT_SIZE]) % 32);
      if size < copySize {
        copySize := size;
      }
      MemCopy(newptr, ptr, copySize);
      ghost var m1 := mem[..];
      Free(ptr);
      MoveOk(t, m, m1, table[..], mem[..], h, ptr, newptr, copySize, brk);
    }

    /** The result starts with the old contents, as far as both sizes go: byte by
        byte, up to the size requested and the size of the old block. */
    method Realloc(ptr: nat, size: nat) returns (newptr: nat)
      requires Valid() && CanMalloc(heap, size)
      requires ptr == 0 || (IsUsed(heap, ptr) && CanCopy(heap, ptr, size))
      modifies this, table, mem
      ensures Inv(old(heap)) && Valid() && newptr == BuddyHeap.Malloc(old(heap), size).1
      ensures var h := BuddyHeap.Malloc(old(heap), size).0;
              Inv(h) && (ptr != 0 ==> IsUsed(h, ptr)) && heap == if ptr == 0 then h else BuddyHeap.Free(h, ptr)
      ensures ptr != 0 ==> Copied(old(mem[..]), mem[..], newptr, ptr, CopySize(old(heap), ptr, size))
      ensures ptr != 0 ==>
                Carried(old(mem[..]), mem[..], ptr, newptr, Pow2(old(heap).blocks[ptr].log), size)
      ensures Frame(old(table[..]), old(mem[..]), table[..], mem[..], Live(old(heap)) - {ptr}, brk, heap.lo, heap.end)
    {
      hide Represents, Coalesced, Tiled, BinsOk, BoundsOk, Frame, Copied, BuddyHeap.Malloc, BuddyHeap.Free,
        CanMalloc, CanCopy, Coalesce, Live, Pow2, BlockLog, Carried;
      ghost var h0, t0, m0 := heap, table[..], mem[..];
      RepresentsInv(t0, m0, brk, h0);
      RepresentsSizes(t0, m0, brk, h0);
      MallocOk(h0, size);
      newptr := Malloc(size);
      ghost var h1, t1, m1 := heap, table[..], mem[..];
      if ptr == 0 {
        FrameLess(t0, m0, t1, m1, Live(h0), Live(h0) - {ptr}, brk, h0.lo, h1.end);
        return;
      }
      ReallocHeap(h0, size, ptr);
      CopyAndFree(ptr, newptr, size);
      ReallocBytes(t0, m0, t1, m1, table[..], mem[..], h0, h1, ptr, newptr, CopySize(h0, ptr, size), BlockLog(size),
                   brk);
      CopiedBytes(m0, mem[..], h0, newptr, ptr, size);
    }

    /** The loop of calloc. */
    method ClearBytes(ptr: nat, n: nat)
      requires Valid() && IsUsed(heap, ptr) && n <= Pow2(heap.blocks[ptr].log)
      modifies mem
      ensures Valid() && ptr + n <= mem.Length && OnlyChanged(old(mem[..]), mem[..], ptr, n)
      ensures forall x: nat | ptr <= x < ptr + n :: mem[x] == 0
    {
      hide Represents, Coalesced, Tiled, BinsOk, BoundsOk;
      RepresentsInv(table[..], mem[..], brk, heap);
      BlockInside(heap, ptr);
      var i: nat := 0;
      while i < n
        invariant i <= n && Valid() && OnlyChanged(old(mem[..]), mem[..], ptr, i)
        invariant forall x: nat | ptr <= x < ptr + i :: mem[x] == 0
      {
        BlockBytes(heap, ptr, ptr + i);
        StoreByte(ptr + i, 0);
        i := i + 1;
      }
    }

    /** A block whose first bytes, as many as the product has modulo 2^32, are zero. */
    method Calloc(num: nat, size: nat) returns (ptr: nat)
      requires Valid() && CanMalloc(heap, Total(num, size)) && Total(num, size) <= MAX_REQUEST
      modifies this, table, mem
      ensures Inv(old(heap)) && Valid() && (heap, ptr) == BuddyHeap.Malloc(old(heap), Total(num, size))
      ensures ptr + Total(num, size) <= mem.Length
      ensures forall x: nat | ptr <= x < ptr + Total(num, size) :: mem[x] == 0
      ensures num * size <= MAX_REQUEST ==>
                forall x: nat | ptr <= x < ptr + num * size :: x < mem.Length && mem[x] == 0
      ensures Frame(old(table[..]), old(mem[..]), table[..], mem[..], Live(old(heap)), brk, heap.lo, heap.end)
    {
      hide Represents, Inv, Coalesced, Frame, CanMalloc, BuddyHeap.Malloc, BlockLog, Total, OnlyChanged;
      ghost var h0, t0, m0 := heap, table[..], mem[..];
      var total := Total(num, size);
      TotalOfSmall(num, size);
      RepresentsInv(t0, m0, brk, h0);
      RepresentsSizes(t0, m0, brk, h0);
      MallocOk(h0, total);
      BlockHoldsRequest(total);
      ptr := Malloc(total);
      ghost var h1, t1, m1 := heap, table[..], mem[..];
      assert ptr in Live(h1);
      ClearBytes(ptr, total);
      ClearFrame(t0, m0, t1, m1, mem[..], h0, h1, ptr, total, brk);
    }

    /** baggy_save_in_table, while the allocator is in use. */
    method Register(loc: nat, lg: nat)
      requires Valid() && CanRegister(heap, loc, lg)
      modifies table
      ensures Valid() && 4 <= lg && Filled(old(table[..]), table[..], loc / 16, loc / 16 + Pow2(lg - 4), lg)
    {
      hide Represents, Coalesced, Filled, Aligned, Inv, Pow2;
      ghost var t := table[..];
      RepresentsInv(t, mem[..], brk, heap);
      RegionInTable(loc, lg, heap);
      BaggySaveInTable(table, loc, lg);
      RegisterRepresents(t, table[..], mem[..], brk, heap, loc, lg);
    }

    /** What a program sees of the allocator: its heap, the bytes it has written,
        and its regions. */
    ghost predicate Matches(s: Program)
      reads this, table, mem
    {
      heap == s.heap && brk == s.brk && Holds(mem[..], s.bytes) && Shown(table[..], s.regions, s.heap.lo)
    }

    /** One call, load or store of the program. */
    method PerformOne(op: Op, ghost s: Program) returns (answer: nat)
      requires Valid() && Matches(s) && Sound(s) && Legal(s, op)
      modifies this, table, mem
      ensures Valid() && Matches(Apply(s, op)) && answer == Answer(s, op)
    {
      hide Represents, Coalesced, Tiled, BinsOk, BoundsOk, Frame, BuddyHeap.Malloc, BuddyHeap.Free, CanMalloc,
        CanCopy, Live, InLive, Holds, Shown, Forgotten, CopyBytes, Fill, Filled, RegionPlace, Copied, Total, CopySize,
        Registered;
      ghost var h, t, m := heap, table[..], mem[..];
      SoundSizes(s);
      answer := 0;
      match op
      case MallocOp(size) =>
        MallocSizes(s.heap, size);
        answer := Malloc(size);
        ObservedMalloc(s, t, m, table[..], mem[..], heap.end);
      case CallocOp(num, size) =>
        MallocSizes(s.heap, Total(num, size));
        answer := Calloc(num, size);
        ObservedCalloc(s, t, m, table[..], mem[..], heap.end, answer, Total(num, size));
      case FreeOp(p) =>
        Free(p);
        if p == 0 {
          ObservedNull(s, t, m, table[..], mem[..], heap.end);
        } else {
          FreeOk(h, p);
          ObservedFree(s, t, m, table[..], mem[..], p);
        }
      case ReallocOp(p, size) =>
        MallocSizes(s.heap, size);
        answer := Realloc(p, size);
        if p == 0 {
          ObservedNull(s, t, m, table[..], mem[..], heap.end);
        } else {
          ReallocHeap(h, size, p);
          ObservedRealloc(s, t, m, table[..], mem[..], heap.end, p, answer, CopySize(h, p, size));
        }
      case StoreOp(a, b) =>
        StoreByte(a, b);
        HoldsStored(m, s.bytes, a, b);
      case LoadOp(a) =>
        HoldsAt(m, s.bytes, a);
        answer := mem[a];
      case RegisterOp(loc, lg) =>
        Register(loc, lg);
        RegisterShown(t, table[..], s.regions, loc, lg, h.lo);
    }

    /** Any sequence of calls, loads and stores: table and memory go on representing
        the heap that the calls make, every load reads what the program last stored,
        and every region stays recoverable. */
    method Perform(ops: seq<Op>, ghost s: Program) returns (answers: seq<nat>)
      requires Valid() && Matches(s) && Sound(s) && LegalRun(s, ops)
      modifies this, table, mem
      ensures Valid() && Matches(Run(s, ops)) && answers == Answers(s, ops)
    {
      hide Represents, Coalesced, Apply, Answer, Legal, Sound, Matches;
      answers := [];
      var i := 0;
      ghost var now := s;
      assert ops[0..] == ops;
      while i < |ops|
        invariant i <= |ops| && Valid() && Matches(now) && Sound(now) && LegalRun(now, ops[i..])
        invariant Run(now, ops[i..]) == Run(s, ops)
        invariant answers + Answers(now, ops[i..]) == Answers(s, ops)
      {
        assert ops[i..][0] == ops[i] && ops[i..][1..] == ops[i + 1..];
        ApplyOk(now, ops[i]);
        var answer := PerformOne(ops[i], now);
        answers := answers + [answer];
        now := Apply(now, ops[i]);
        i := i + 1;
      }
    }
  }

  /** The program from start to end.  In every state it reaches the table's slots
      show the blocks, the lists in memory hold exactly the free blocks, these are
      the maximal vacant intervals, and memory holds what the program has stored. */
  method Session(table: array<Byte>, mem: array<Byte>, brk: nat, ops: seq<Op>)
    returns (a: BuddyAllocator, answers: seq<nat>)
    requires table.Length == TABLE_SLOTS && mem.Length == LIMIT && table != mem && HeapStart(brk) <= LIMIT
    requires brk <= mem.Length && (StartSound(brk, mem[..brk]); LegalRun(Start(brk, mem[..brk]), ops))
    modifies table, mem
    ensures fresh(a) && a.table == table && a.mem == mem && a.Valid()
    ensures Sound(Start(brk, old(mem[..brk]))) && LegalRun(Start(brk, old(mem[..brk])), ops)
    ensures a.Matches(Run(Start(brk, old(mem[..brk])), ops)) && answers == Answers(Start(brk, old(mem[..brk])), ops)
    ensures forall x: nat | a.heap.lo <= x < a.heap.end :: SlotRight(table[..], a.heap, x)
    ensures forall k | 0 <= k < NUM_BINS :: BinRight(mem[..], brk, a.heap, k)
  {
    hide Represents, Coalesced, SlotRight, BinRight, Sound, InitHeap;
    ghost var s := Start(brk, mem[..brk]);
    StartSound(brk, mem[..brk]);
    a := new BuddyAllocator(table, mem, brk);
    answers := a.Perform(ops, s);
    EveryRunSafe(s, ops);
    ViewsAgree(table[..], mem[..], brk, a.heap);
  }
}
