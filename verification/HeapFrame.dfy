/** Which bytes of memory and of the table the allocator leaves alone: it writes
    only list nodes, and these lie in free blocks or are the sentinels. */
module HeapFrame {
  import opened Bits
  import opened BuddyHeap
  import opened FreeLists
  import opened SizeTable
  import opened Words

  // ----------------------------------------------------------- what is not written

  /** Byte a lies in one of these blocks. */
  ghost predicate InLive(live: map<nat, nat>, a: nat) {
    exists b | b in live :: b <= a < b + Pow2(live[b])
  }

  /** Nothing changes in the live blocks, below the allocator's sentinels, where
      the program keeps its globals, nor above the heap. */
  ghost predicate Untouched(m: seq<Byte>, m': seq<Byte>, live: map<nat, nat>, brk: nat, end: nat) {
    && |m'| == |m|
    && forall a | 0 <= a < |m| && (a < brk || end <= a || InLive(live, a)) :: m'[a] == m[a]
  }

  /** The table changes inside the heap only. */
  ghost predicate SameOutside(t: seq<Byte>, t': seq<Byte>, lo: nat, end: nat) {
    && |t'| == |t|
    && forall s | 0 <= s < |t| && (16 * s < lo || end <= 16 * s) :: t'[s] == t[s]
  }

  /** Marking a block of the heap changes nothing outside the heap. */
  lemma FillInside(t: seq<Byte>, t': seq<Byte>, b: nat, k: nat, v: Byte, lo: nat, end: nat)
    requires Aligned(b, k) && 4 <= k && lo <= b && b + Pow2(k) <= end && Reserved(t, lo)
    requires Filled(t, t', b / 16, (b + Pow2(k)) / 16, v)
    ensures Reserved(t', lo) && SameOutside(t, t', lo, end)
  {
    AlignedSlots(b, k);
    var i, j := b / 16, (b + Pow2(k)) / 16;
    assert 16 * i == b && 16 * j == b + Pow2(k);
    FillBetween(t, t', i, j, v, lo, end);
  }

  lemma FillBetween(t: seq<Byte>, t': seq<Byte>, i: nat, j: nat, v: Byte, lo: nat, end: nat)
    requires lo <= 16 * i && 16 * j <= end && Reserved(t, lo) && Filled(t, t', i, j, v)
    ensures Reserved(t', lo) && SameOutside(t, t', lo, end)
  {
  }

  /** Memory and table change only in the sentinels, in free blocks, and below
      end in blocks that are new. */
  ghost predicate Frame(t: seq<Byte>, m: seq<Byte>, t': seq<Byte>, m': seq<Byte>,
                        live: map<nat, nat>, brk: nat, lo: nat, end: nat) {
    Untouched(m, m', live, brk, end) && SameOutside(t, t', lo, end)
  }

  lemma FrameRefl(t: seq<Byte>, m: seq<Byte>, live: map<nat, nat>, brk: nat, lo: nat, end: nat)
    ensures Frame(t, m, t, m, live, brk, lo, end)
  {
  }

  lemma FrameTrans(t: seq<Byte>, m: seq<Byte>, t1: seq<Byte>, m1: seq<Byte>, t2: seq<Byte>, m2: seq<Byte>,
                   live: map<nat, nat>, brk: nat, lo: nat, e1: nat, e2: nat)
    requires Frame(t, m, t1, m1, live, brk, lo, e1) && Frame(t1, m1, t2, m2, live, brk, lo, e2) && e1 <= e2
    ensures Frame(t, m, t2, m2, live, brk, lo, e2)
  {
  }

  /** Node n may be written without touching a block of live: it is a sentinel
      or lies at the start of another block. */
  ghost predicate Writable(h: Heap, live: map<nat, nat>, brk: nat, n: nat) {
    (brk <= n && n + NODE_SIZE <= h.lo) || (n in h.blocks && n !in live)
  }

  ghost predicate Within(live: map<nat, nat>, h: Heap) {
    forall b | b in live :: b in Live(h) && Live(h)[b] == live[b]
  }

  lemma WritableByte(h: Heap, live: map<nat, nat>, brk: nat, n: nat, a: nat)
    requires BoundsOk(h) && Tiled(h) && Within(live, h) && brk <= h.lo && Writable(h, live, brk, n)
    requires n <= a < n + NODE_SIZE
    ensures brk <= a < h.end && !InLive(live, a)
  {
    if n in h.blocks {
      assert BlockOk(h, n);
      Pow2Mono(4, h.blocks[n].log);
      Pow2Values();
    }
    forall b | b in live ensures !(b <= a < b + Pow2(live[b])) {
      assert b in Live(h);
      assert BlockOk(h, b);
      if n in h.blocks {
        assert Apart(h, b, n) && Apart(h, n, b);
      }
    }
  }

  /** A store into a writable node. */
  lemma StoreUntouched(m: seq<Byte>, h: Heap, live: map<nat, nat>, brk: nat, n: nat, o: nat, w: Word)
    requires BoundsOk(h) && Tiled(h) && Within(live, h) && brk <= h.lo && Writable(h, live, brk, n)
    requires Fits(m, n) && o <= 8
    ensures Untouched(m, Stored(m, n + o, w), live, brk, h.end)
  {
    hide BoundsOk, Tiled, Within, Writable, InLive, Stored, ByteOf;
    var m' := Stored(m, n + o, w);
    StoredBytes(m, n + o, w);
    forall a | 0 <= a < |m| && (a < brk || h.end <= a || InLive(live, a)) ensures m'[a] == m[a] {
      if n <= a < n + NODE_SIZE {
        WritableByte(h, live, brk, n, a);
      }
    }
  }

  lemma UntouchedTwice(m: seq<Byte>, m1: seq<Byte>, m2: seq<Byte>, live: map<nat, nat>, brk: nat, end: nat)
    requires Untouched(m, m1, live, brk, end) && Untouched(m1, m2, live, brk, end)
    ensures Untouched(m, m2, live, brk, end)
  {
    hide InLive;
  }

  lemma AppendUntouched(m: seq<Byte>, h: Heap, live: map<nat, nat>, brk: nat, first: nat, p: nat)
    requires BoundsOk(h) && Tiled(h) && Within(live, h) && brk <= h.lo && CanAppend(m, first, p)
    requires Writable(h, live, brk, first) && Writable(h, live, brk, p) && Writable(h, live, brk, Next(m, first))
    ensures Untouched(m, Appended(m, first, p), live, brk, h.end)
  {
    hide BoundsOk, Tiled, Within, Writable, Untouched, Next, Stored;
    var next := Next(m, first);
    var m1 := Stored(m, p + 8, 0);
    var m2 := Stored(m1, p, first);
    var m3 := Stored(m2, p + 4, next);
    var m4 := Stored(m3, next, p);
    StoreUntouched(m, h, live, brk, p, 8, 0);
    StoreUntouched(m1, h, live, brk, p, 0, first);
    StoreUntouched(m2, h, live, brk, p, 4, next);
    StoreUntouched(m3, h, live, brk, next, 0, p);
    var m5 := Stored(m4, first + 4, p);
    StoreUntouched(m4, h, live, brk, first, 4, p);
    UntouchedTwice(m, m1, m2, live, brk, h.end);
    UntouchedTwice(m, m2, m3, live, brk, h.end);
    UntouchedTwice(m, m3, m4, live, brk, h.end);
    UntouchedTwice(m, m4, m5, live, brk, h.end);
  }

  lemma RemoveUntouched(m: seq<Byte>, h: Heap, live: map<nat, nat>, brk: nat, p: nat)
    requires BoundsOk(h) && Tiled(h) && Within(live, h) && brk <= h.lo && CanRemove(m, p)
    requires Writable(h, live, brk, Prev(m, p)) && Writable(h, live, brk, Next(m, p))
    ensures Untouched(m, Removed(m, p), live, brk, h.end)
  {
    hide BoundsOk, Tiled, Within, Writable, Untouched, Next, Prev, Stored;
    var m1 := Stored(m, Next(m, p), Prev(m, p));
    StoreUntouched(m, h, live, brk, Next(m, p), 0, Prev(m, p));
    StoreUntouched(m1, h, live, brk, Prev(m, p), 4, Next(m, p));
    UntouchedTwice(m, m1, Stored(m1, Prev(m, p) + 4, Next(m, p)), live, brk, h.end);
  }

  /** Every list member may be written. */
  ghost predicate MembersWritable(h: Heap, live: map<nat, nat>, bins: seq<seq<nat>>) {
    forall k, b | 0 <= k < |bins| && b in bins[k] :: b in h.blocks && b !in live
  }

  lemma FreeMembersWritable(h: Heap, live: map<nat, nat>)
    requires BinsOk(h) && Within(live, h)
    ensures MembersWritable(h, live, h.bins)
  {
  }

  /** The stores of list_append to bin k are harmless. */
  lemma HeadWritable(m: seq<Byte>, brk: nat, h: Heap, live: map<nat, nat>, bins: seq<seq<nat>>, k: nat)
    requires ListsOk(m, brk, bins) && h.lo == HeapStart(brk) && k < NUM_BINS
    requires MembersWritable(h, live, bins)
    ensures var f := First(brk, k);
            Fits(m, f) && f < WORDS && Fits(m, Next(m, f))
            && Writable(h, live, brk, f) && Writable(h, live, brk, Next(m, f))
  {
    assert BinOk(m, brk, bins[k], k);
    hide BinOk, First, Last, HeapStart, Next;
    ChainEnds(m, brk, bins[k], k);
    SentinelsInside(brk, k);
    assert bins[k] != [] ==> bins[k][0] in bins[k];
  }

  /** The stores of list_remove of p are harmless. */
  lemma LinksWritable(m: seq<Byte>, brk: nat, h: Heap, live: map<nat, nat>, bins: seq<seq<nat>>, k: nat, p: nat)
    requires ListsOk(m, brk, bins) && h.lo == HeapStart(brk) && k < NUM_BINS && p in bins[k]
    requires MembersWritable(h, live, bins)
    ensures CanRemove(m, p)
    ensures Writable(h, live, brk, Prev(m, p)) && Writable(h, live, brk, Next(m, p))
  {
    assert BinOk(m, brk, bins[k], k);
    hide BinOk, ListsOk, NodeAddr;
    var i :| 0 <= i < |bins[k]| && bins[k][i] == p;
    MemberLinks(m, brk, bins[k], k, i);
    assert i > 0 ==> bins[k][i - 1] in bins[k];
    assert i + 1 < |bins[k]| ==> bins[k][i + 1] in bins[k];
  }
}
