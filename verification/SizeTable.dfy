/** The size table: one byte for every 16-byte slot of the address space, the
    log of the block around the slot in the low bits and USED in the top bit. */
module SizeTable {
  import opened Bits
  import opened BuddyHeap
  import opened Words

  /** The writable half of the table covers the addresses below 2^31. */
  const TABLE_SLOTS: nat := 0x800_0000

  function FormMetadata(logsize: nat, used: bool): (m: Byte)
    requires logsize < 128
    ensures GetLogsize(m) == logsize && IsUsedByte(m) == used
  {
    logsize + if used then 128 else 0
  }

  predicate IsUsedByte(metadata: Byte) {
    metadata / 128 == 1
  }

  function GetLogsize(metadata: Byte): nat {
    metadata % 128
  }

  /** t' is t with the slots from i up to j set to v. */
  ghost predicate Filled(t: seq<Byte>, t': seq<Byte>, i: nat, j: nat, v: Byte) {
    && |t'| == |t|
    && forall s | 0 <= s < |t| :: t'[s] == if i <= s < j then v else t[s]
  }

  /** Every slot of the block at b carries the block's byte. */
  ghost predicate Marked(t: seq<Byte>, b: nat, block: Block)
    requires block.log < 128
  {
    forall s | 0 <= s < |t| && b <= 16 * s < b + Pow2(block.log) :: t[s] == FormMetadata(block.log, block.used)
  }

  /** The table agrees with every block, except possibly those in ex. */
  ghost predicate TableOkBut(t: seq<Byte>, h: Heap, ex: set<nat>) {
    forall b | b in h.blocks && b !in ex :: h.blocks[b].log < 128 && Marked(t, b, h.blocks[b])
  }

  ghost predicate TableOk(t: seq<Byte>, h: Heap) {
    TableOkBut(t, h, {})
  }

  /** An aligned region that is not the buddy of a place in the heap. */
  predicate Harmless(c: nat, k: nat, lo: nat) {
    Aligned(c, k) && Buddy(c, k) < lo
  }

  /** A slot below the heap is used, or it belongs to a registered region that is
      harmless. */
  predicate SlotReserved(v: Byte, s: nat, lo: nat) {
    IsUsedByte(v) || Harmless(Floor(16 * s, v), v, lo)
  }

  ghost predicate Reserved(t: seq<Byte>, lo: nat) {
    forall s | 0 <= s < |t| && 16 * s < lo :: SlotReserved(t[s], s, lo)
  }

  lemma AlignedSlots(b: nat, k: nat)
    requires Aligned(b, k) && 4 <= k
    ensures b == 16 * (b / 16) && b % 16 == 0
    ensures Pow2(k) == 16 * (Pow2(k) / 16) && (b + Pow2(k)) / 16 == b / 16 + Pow2(k) / 16
  {
    AlignedWeaken(b, 4, k);
    AlignedSixteen(b);
    Pow2Sixteen(k);
    SlotSum(b / 16, Pow2(k - 4));
  }

  lemma SlotSum(q: nat, r: nat)
    ensures (16 * q) / 16 == q && (16 * r) / 16 == r && (16 * q + 16 * r) / 16 == q + r
  {
    assert 16 * q + 16 * r == 16 * (q + r);
  }

  lemma MarkElsewhere(t: seq<Byte>, t': seq<Byte>, i: nat, j: nat, v: Byte, b: nat, block: Block)
    requires block.log < 128 && Marked(t, b, block) && Filled(t, t', i, j, v)
    requires b + Pow2(block.log) <= 16 * i || 16 * j <= b
    ensures Marked(t', b, block)
  {
  }

  lemma MarkHere(t: seq<Byte>, t': seq<Byte>, q: nat, block: Block)
    requires block.log < 128 && Aligned(q, block.log) && 4 <= block.log
    requires Filled(t, t', q / 16, (q + Pow2(block.log)) / 16, FormMetadata(block.log, block.used))
    ensures Marked(t', q, block)
  {
    AlignedSlots(q, block.log);
  }

  /** Marking block q leaves the bytes of every other block of the tiling. */
  lemma MarkOther(t: seq<Byte>, t': seq<Byte>, g: Heap, q: nat, b: nat)
    requires q in g.blocks && b in g.blocks && b != q && BlockOk(g, q) && BlockOk(g, b)
    requires Apart(g, b, q) && Apart(g, q, b) && Marked(t, b, g.blocks[b])
    requires Filled(t, t', q / 16, (q + Pow2(g.blocks[q].log)) / 16,
                    FormMetadata(g.blocks[q].log, g.blocks[q].used))
    ensures Marked(t', b, g.blocks[b])
  {
    AlignedSlots(q, g.blocks[q].log);
    var i, j := q / 16, (q + Pow2(g.blocks[q].log)) / 16;
    assert 16 * i == q && 16 * j == q + Pow2(g.blocks[q].log);
    MarkElsewhere(t, t', i, j, FormMetadata(g.blocks[q].log, g.blocks[q].used), b, g.blocks[b]);
  }

  /** Marking block q, when the other blocks of g are blocks of h already. */
  lemma MarkStep(t: seq<Byte>, t': seq<Byte>, h: Heap, g: Heap, q: nat, exH: set<nat>, exG: set<nat>)
    requires Tiled(g) && TableOkBut(t, h, exH) && q in g.blocks && g.blocks[q].log < 128
    requires forall b | b in g.blocks && b !in exG && b != q ::
               b in h.blocks && b !in exH && g.blocks[b] == h.blocks[b]
    requires Filled(t, t', q / 16, (q + Pow2(g.blocks[q].log)) / 16,
                    FormMetadata(g.blocks[q].log, g.blocks[q].used))
    ensures TableOkBut(t', g, exG)
  {
    assert BlockOk(g, q);
    MarkHere(t, t', q, g.blocks[q]);
    forall b | b in g.blocks && b !in exG && b != q
      ensures g.blocks[b].log < 128 && Marked(t', b, g.blocks[b])
    {
      assert Apart(g, b, q) && Apart(g, q, b);
      MarkOther(t, t', g, q, b);
    }
  }

  /** A block's first slot shows the block. */
  lemma StartSlot(t: seq<Byte>, h: Heap, b: nat)
    requires Tiled(h) && TableOk(t, h) && b in h.blocks && |t| == TABLE_SLOTS && h.end <= LIMIT
    ensures b / 16 < |t| && h.blocks[b].log < 128
    ensures t[b / 16] == FormMetadata(h.blocks[b].log, h.blocks[b].used)
  {
    assert BlockOk(h, b);
    AlignedSlots(b, h.blocks[b].log);
    assert Marked(t, b, h.blocks[b]);
  }

  /** Every slot of the heap shows the block it lies in: the block's start is
      the slot's address rounded down to the size the slot gives, and its USED
      bit tells whether the block is in use. */
  lemma SlotShowsBlock(t: seq<Byte>, h: Heap, x: nat)
    requires Inv(h) && TableOk(t, h) && |t| == TABLE_SLOTS && h.lo <= x < h.end
    ensures x / 16 < |t|
    ensures var b := Floor(x, GetLogsize(t[x / 16]));
            Contains(h, b, x) && h.blocks[b] == Block(GetLogsize(t[x / 16]), IsUsedByte(t[x / 16]))
  {
    var b := BlockAt(h, x);
    var k := h.blocks[b].log;
    assert Marked(t, b, h.blocks[b]);
    AlignedSlots(b, k);
    SlotIn(b / 16, Pow2(k) / 16, x);
    FloorUnique(b, x, k);
  }

  lemma SlotIn(q: nat, r: nat, x: nat)
    requires 16 * q <= x < 16 * q + 16 * r
    ensures 16 * q <= 16 * (x / 16) < 16 * q + 16 * r
  {
  }

  // ------------------------------------------------------------- the buddy lookup

  /** The test of the coalescing loop, on the byte at the buddy's address. */
  predicate LooksFree(t: seq<Byte>, b: nat, k: nat)
    requires b / 16 < |t|
  {
    GetLogsize(t[b / 16]) == k && !IsUsedByte(t[b / 16])
  }

  /** The lookup never leaves the heap and its reserved prefix. */
  lemma BuddyInRange(h: Heap, p: nat, k: nat)
    requires Inv(h) && p in h.blocks && h.blocks[p].log == k
    ensures Buddy(p, k) < h.end
    ensures h.lo <= Buddy(p, k) ==> Buddy(p, k) + Pow2(k) <= h.end
  {
    assert BlockOk(h, p);
    BuddyHalves(p, k);
    if p < Buddy(p, k) {
      EndAboveBuddy(h, p, k);
    }
  }

  /** When what is left of e without its lowest set bit is below p, an aligned p
      below e is no finer than that bit. */
  lemma AboveLowBit(e: nat, p: nat, k: nat)
    requires e > 0 && e - LowBit(e) < p < e && Aligned(p, k)
    ensures k < LowLog(e)
  {
    var j := LowLog(e);
    hide Aligned, Pow2, LowLog;
    LowLogGreatest(e, j);
    AlignedAdd(e, j);
    if j <= k {
      AlignedWeaken(p, j, k);
      AlignedGap(e - Pow2(j), p, j);
    }
  }

  /** A block that is a left half ends below the heap's end: the end has its
      lowest set bit above the block's size. */
  lemma EndAboveBuddy(h: Heap, p: nat, k: nat)
    requires BoundsOk(h) && h.lo <= p && Aligned(p, k + 1) && p + Pow2(k) <= h.end
    ensures p + Pow2(k + 1) <= h.end
  {
    hide Aligned, LowLog, LowBit;
    AboveLowBit(h.end, p, k + 1);
    LowLogGreatest(h.end, k + 1);
    AlignedGap(p, h.end, k + 1);
  }

  /** Coalescing is exact: the byte at the buddy's address reads "same log and
      free" iff the buddy is one whole free block of that size, unless the buddy
      would lie below the heap and the slot there carries the bare log. */
  lemma LooksFreeExact(t: seq<Byte>, h: Heap, p: nat, k: nat)
    requires Inv(h) && TableOk(t, h) && |t| == TABLE_SLOTS
    requires p in h.blocks && h.blocks[p].log == k
    ensures var b := Buddy(p, k);
            && b / 16 < |t|
            && ((LooksFree(t, b, k) <==> IsFree(h, b, k)) <==> !(b < h.lo && t[b / 16] == k))
  {
    var b := Buddy(p, k);
    BuddyInRange(h, p, k);
    assert BlockOk(h, p);
    BuddyHalves(p, k);
    assert IsFree(h, b, k) ==> BlockOk(h, b);
    hide Aligned, Buddy, Floor, BinsOk, LowBit;
    if h.lo <= b {
      var c := BlockAt(h, b);
      AlignedSlots(b, k);
      assert Marked(t, c, h.blocks[c]);
      FloorUnique(b, b, k);
      FloorUnique(c, b, h.blocks[c].log);
      if IsFree(h, b, k) {
        StartSlot(t, h, b);
      }
    }
  }

  /** No harmless region is the buddy of a block of the heap. */
  lemma HarmlessNoBuddy(p: nat, k: nat, lo: nat)
    requires Aligned(p, k) && lo <= p && Buddy(p, k) < lo
    ensures !Harmless(Floor(Buddy(p, k), k), k, lo)
  {
    var b := Buddy(p, k);
    BuddyHalves(p, k);
    hide Aligned, Buddy, Pow2;
    FloorUnique(b, b, k);
  }

  /** With every slot below the heap reserved, the test is exact without
      exception. */
  lemma LooksFreeReserved(t: seq<Byte>, h: Heap, p: nat, k: nat)
    requires Inv(h) && TableOk(t, h) && |t| == TABLE_SLOTS && Reserved(t, h.lo)
    requires p in h.blocks && h.blocks[p].log == k
    ensures Buddy(p, k) / 16 < |t|
    ensures LooksFree(t, Buddy(p, k), k) <==> IsFree(h, Buddy(p, k), k)
  {
    LooksFreeExact(t, h, p, k);
    assert BlockOk(h, p);
    hide Inv, TableOkBut, Pow2, Aligned, LooksFree, Harmless;
    var b := Buddy(p, k);
    BuddyHalves(p, k);
    AlignedSlots(b, k);
    if b < h.lo {
      HarmlessNoBuddy(p, k, h.lo);
      assert SlotReserved(t[b / 16], b / 16, h.lo);
    }
  }

  /** Registering a harmless region, or one above the heap, keeps the slots below
      the heap reserved. */
  lemma RegistrationReserved(t: seq<Byte>, t': seq<Byte>, c: nat, k: nat, lo: nat)
    requires Reserved(t, lo) && 4 <= k < 128 && Aligned(c, k) && (Harmless(c, k, lo) || lo <= c)
    requires Filled(t, t', c / 16, c / 16 + Pow2(k - 4), k)
    ensures Reserved(t', lo)
  {
    AlignedSlots(c, k);
    Pow2Sixteen(k);
    hide Pow2, Aligned, Harmless;
    forall s | 0 <= s < |t'| && 16 * s < lo ensures SlotReserved(t'[s], s, lo) {
      if c / 16 <= s < c / 16 + Pow2(k - 4) {
        FloorUnique(c, 16 * s, k);
      } else {
        assert SlotReserved(t[s], s, lo);
      }
    }
  }

  lemma NextUnaligned(c: nat, k: nat)
    requires Aligned(c, k + 1)
    ensures !Aligned(c + Pow2(k), k + 1)
  {
    hide Aligned;
    if Aligned(c + Pow2(k), k + 1) {
      AlignedGap(c, c + Pow2(k), k + 1);
    }
  }

  /** Growth for a block of size 2^k stops at the first odd multiple of 2^k. */
  lemma {:induction false} GrowsTo(h: Heap, c: nat, k: nat)
    requires Inv(h) && Aligned(c, k + 1) && c < h.end <= c + Pow2(k) && GrowEnd(h.end, Pow2(k)) <= LIMIT
    ensures var (_, p, j) := GrowFor(h, Pow2(k)); p == c + Pow2(k) && j == k
    decreases Pow2(k) - LowBit(h.end)
  {
    hide Inv, Aligned, Pow2, LowLog;
    var e := h.end;
    LowBitCarry(e);
    LowLogGreatest(e, k);
    if e == c + Pow2(k) {
      AlignedWeaken(c, k, k + 1);
      AlignedAdd(c, k);
      NextUnaligned(c, k);
      LowLogGreatest(e, k + 1);
    } else {
      ShortOf(c, e, k);
      GrowOk(h);
      GrowsTo(Grow(h), c, k);
    }
  }

  /** Between c and c + 2^k, adding the lowest set bit does not pass c + 2^k. */
  lemma ShortOf(c: nat, e: nat, k: nat)
    requires Aligned(c, k + 1) && c < e < c + Pow2(k)
    ensures LowLog(e) < k && LowBit(e) < Pow2(k) && e + LowBit(e) <= c + Pow2(k)
  {
    hide Aligned, Pow2, LowLog;
    var j := LowLog(e);
    AlignedWeaken(c, k, k + 1);
    LowLogGreatest(e, k);
    LowLogGreatest(e, j);
    if j >= k {
      AlignedGap(c, e, k);
    }
    AlignedAdd(c, k);
    AlignedWeaken(c + Pow2(k), j, k);
    AlignedGap(e, c + Pow2(k), j);
    Pow2Mono(j, k);
  }

  lemma OutsideHeap(h: Heap, c: nat)
    requires Inv(h) && c < h.lo
    ensures c !in h.blocks
  {
    assert c in h.blocks ==> BlockOk(h, c);
  }

  /** Every region below the heap that is not harmless makes the test fail: the
      first block of its size is its buddy, for which it passes as a free one. */
  lemma HarmfulRegion(t: seq<Byte>, lo: nat, c: nat, k: nat)
    requires Aligned(lo, 4) && c < lo && GrowEnd(lo, Pow2(k)) <= LIMIT && |t| == TABLE_SLOTS
    requires 4 <= k < 128 && Aligned(c, k) && !Harmless(c, k, lo) && t[c / 16] == k
    ensures var (h, p, j) := GrowFor(InitHeap(lo), Pow2(k));
            Inv(h) && j == k && IsFree(h, p, k) && Buddy(p, k) == c && LooksFree(t, c, k) && !IsFree(h, c, k)
  {
    hide Inv, Pow2, Buddy, Aligned, LowBit;
    BuddyHalves(c, k);
    InitOk(lo);
    var h := InitHeap(lo);
    GrowForOk(h, Pow2(k));
    GrowsTo(h, c, k);
    OutsideHeap(GrowFor(h, Pow2(k)).0, c);
  }
}
