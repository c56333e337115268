/** The sizes the compiler side computes for stack and global allocations, on
    32-bit unsigned integers, and their agreement with the allocator's. */
module Sizes {
  import opened Bits
  import opened BuddyHeap
  import opened Words

  lemma WrapCases(x: nat)
    ensures x < WORDS ==> ToWord(x) == x
    ensures ToWord(WORDS) == 0
  {
  }

  /** sz & -sz */
  function LowestBit(sz: Word): Word {
    if sz == 0 then 0
    else
      LowLogGreatest(sz, 0);
      LowBit(sz)
  }

  /** A power of two is its own lowest bit. */
  lemma OwnLowBit(n: nat)
    requires n > 0 && LowBit(n) == n
    ensures BitLength(n - 1) == LowLog(n)
  {
    BitLengthLeast(n - 1, LowLog(n));
    if LowLog(n) > 0 {
      BitLengthLeast(n - 1, LowLog(n) - 1);
    }
  }

  /** Adding the lowest bit to any other number does not pass the next power
      of two. */
  lemma CarryBelowNext(n: nat)
    requires n > 0 && LowBit(n) != n
    ensures var n' := n + LowBit(n);
            BitLength(n' - 1) == BitLength(n - 1) && LowLog(n') <= BitLength(n - 1)
  {
    hide BitLength, Aligned, LowLog, Pow2;
    var j, k := LowLog(n), BitLength(n - 1);
    LowLogGreatest(n, j);
    BitLengthLeast(n - 1, k);
    if k <= j {
      Pow2Mono(k, j);
    }
    if n == Pow2(k) {
      Pow2LowLog(k);
    }
    AlignedPow2(j, k);
    AlignedGap(n, Pow2(k), j);
    BitLengthLeast(n + LowBit(n) - 1, k);
    BitLengthMono(n - 1, n + LowBit(n) - 1);
    LowBitBound(n + LowBit(n), k);
  }

  lemma {:induction false} Pow2LowLog(k: nat)
    ensures LowLog(Pow2(k)) == k
  {
    if k != 0 {
      Pow2LowLog(k - 1);
    }
  }

  lemma {:induction false} BitLengthMono(m: nat, n: nat)
    requires m <= n
    ensures BitLength(m) <= BitLength(n)
  {
    if m != 0 {
      BitLengthMono(m / 2, n / 2);
    }
  }

  lemma LowBitBound(n: nat, k: nat)
    requires 0 < n <= Pow2(k)
    ensures LowLog(n) <= k
  {
    LowLogGreatest(n, 0);
    if k < LowLog(n) {
      Pow2Mono(k, LowLog(n));
    }
  }

  /** What adding lowest bits keeps: the number of bits of sz - 1, until the sum
      leaves 32 bits. */
  ghost predicate SameClass(sz0: Word, sz: Word) {
    if sz == 0 then sz0 == 0 || BitLength(sz0 - 1) == 32
    else sz0 > 0 && BitLength(sz - 1) == BitLength(sz0 - 1)
  }

  lemma AddLowestBit(sz0: Word, sz: Word)
    requires LowestBit(sz) != sz && SameClass(sz0, sz)
    ensures var sz' := ToWord(sz + LowestBit(sz));
            SameClass(sz0, sz') && (sz' != 0 ==> LowLog(sz') > LowLog(sz) && BitLength(sz' - 1) == BitLength(sz - 1))
    ensures LowLog(sz) <= BitLength(sz - 1)
  {
    hide BitLength, LowLog, LowBit, ToWord;
    CarryBelowNext(sz);
    LowBitCarry(sz);
    CarryInRange(sz);
    WrapCases(sz + LowestBit(sz));
  }

  /** The least power of two that is at least 16 and at least sz, by adding the
      lowest set bit until nothing else is left.  The result is the size class
      of the allocator for every 32-bit sz; above 2^31 both wrap to 16. */
  method GetAlignment(sz0: Word) returns (r: Word)
    ensures r == Pow2(BlockLog(sz0))
    ensures r >= sz0 <==> sz0 <= 0x8000_0000
  {
    hide LowestBit, BitLength, LowLog, BlockLog, Pow2;
    var sz: Word := sz0;
    while LowestBit(sz) != sz
      invariant SameClass(sz0, sz)
      decreases if sz == 0 then 0 else 1 + BitLength(sz - 1) - LowLog(sz)
    {
      LowestOfZero();
      AddLowestBit(sz0, sz);
      sz := ToWord(sz + LowestBit(sz));
    }
    AlignmentOk(sz0, sz);
    r := if sz < 16 then 16 else sz;
  }

  lemma LowestOfZero()
    ensures LowestBit(0) == 0
  {
  }

  lemma WordPowers()
    ensures Pow2(31) == 0x8000_0000 && Pow2(32) == WORDS
  {
    Pow2Values();
  }

  /** A sum that leaves 32 bits is exactly 2^32. */
  lemma CarryInRange(sz: Word)
    requires sz > 0 && LowBit(sz) != sz
    ensures sz + LowBit(sz) <= WORDS
    ensures sz + LowBit(sz) == WORDS ==> BitLength(sz - 1) == 32
  {
    hide BitLength, Pow2, LowLog;
    WordPowers();
    CarryBelowNext(sz);
    BitLengthLeast(sz - 1, 32);
    BitLengthLeast(sz + LowBit(sz) - 1, BitLength(sz - 1));
    Pow2Mono(BitLength(sz - 1), 32);
    if BitLength(sz - 1) < 32 {
      Pow2Mono(BitLength(sz - 1), 31);
    }
  }

  lemma BlockLogCases(size: nat)
    ensures size == 0 ==> BlockLog(size) == 4
    ensures size > 0 && BitLength(size - 1) < 32 ==>
              BlockLog(size) == if BitLength(size - 1) < 4 then 4 else BitLength(size - 1)
    ensures size > 0 && BitLength(size - 1) == 32 ==> BlockLog(size) == 4
  {
    hide BitLength, Pow2;
    BitLengthLeast(15, 4);
    BitLengthLeast(15, 3);
    Pow2Values();
    assert forall n: nat | n < 32 :: n % 32 == n;
  }

  lemma AlignmentOk(sz0: Word, sz: Word)
    requires LowestBit(sz) == sz && SameClass(sz0, sz)
    ensures (if sz < 16 then 16 else sz) == Pow2(BlockLog(sz0))
    ensures Pow2(BlockLog(sz0)) >= sz0 <==> sz0 <= 0x8000_0000
  {
    BlockHoldsRequest(sz0);
    Pow2Values();
    BlockLogCases(sz0);
    hide Pow2, BitLength, LowLog, BlockLog;
    if sz != 0 {
      OwnLowBit(sz);
      PowerOfTwoWord(sz);
    }
  }

  lemma PowerOfTwoWord(sz: Word)
    requires sz > 0 && LowBit(sz) == sz
    ensures LowLog(sz) < 32
    ensures (if sz < 16 then 16 else sz) == Pow2(if LowLog(sz) < 4 then 4 else LowLog(sz))
  {
    var k := LowLog(sz);
    Pow2Values();
    if k >= 32 {
      Pow2Mono(32, k);
    }
    if k < 4 {
      Pow2Mono(k, 4);
    } else {
      Pow2Mono(4, k);
    }
  }

  /** The log of a power of two; 0 has none and wraps. */
  method GetLg(sz0: Word) returns (r: Word)
    ensures r == if sz0 == 0 then 0xffff_ffff else BitLength(sz0) - 1
  {
    BitLengthLeast(sz0, 32);
    Pow2Values();
    var sz: nat, c: nat := sz0, 0;
    while sz != 0
      invariant c + BitLength(sz) == BitLength(sz0)
    {
      c := c + 1;
      sz := sz / 2;
    }
    r := (c - 1) % WORDS;
  }

  /** Both sides register the same log for a request. */
  method RegisteredLog(sz: Word) returns (lg: Word)
    ensures lg == BlockLog(sz)
  {
    var r := GetAlignment(sz);
    lg := GetLg(r);
    BlockLogRange(sz);
    Pow2BitLength(BlockLog(sz));
  }

  lemma {:induction false} Pow2BitLength(k: nat)
    ensures BitLength(Pow2(k)) == k + 1
  {
    if k != 0 {
      Pow2BitLength(k - 1);
      assert Pow2(k) / 2 == Pow2(k - 1);
    }
  }
}
