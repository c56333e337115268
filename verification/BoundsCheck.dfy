/** The bounds check on pointer arithmetic: the slow path of the library, the
    inlined fast path of the compiler pass, and what sequences of pointer steps
    give.  Pointers are 32-bit words; bit 31 marks a pointer out of its block. */
module BoundsCheck {
  import opened Bits
  import opened BuddyHeap
  import opened SizeTable
  import opened Words

  /** Bit 31. */
  const MARK: int := 0x8000_0000

  const HALF_SLOT: nat := 8

  datatype Checked = Ptr(p: Word) | Abort

  // ------------------------------------------------------------- machine integers

  /** The value of x as a 32-bit signed integer. */
  function ToSigned(x: int): int {
    var w := x % WORDS;
    if w < MARK then w else w - WORDS
  }

  predicate HasMark(p: Word) {
    p >= MARK
  }

  function ClearMark(p: Word): Word {
    p % MARK
  }

  function SetMark(p: Word): Word {
    p % MARK + MARK
  }

  /** Arithmetic shift right of the 32-bit signed value x; the result as an
      integer. */
  function AShr(x: Word, k: nat): int {
    if x < MARK then Shr(x, k) else -1 - (Shr(WORDS - 1 - x, k) as int)
  }

  /** (x >> k) << k for a signed x. */
  function FloorSigned(x: int, k: nat): int {
    if x >= 0 then Floor(x, k) else -(Floor(-x + Pow2(k) - 1, k) as int)
  }

  /** The table's lower half is memory, its upper half reads as zero. */
  function ReadTable(t: seq<Byte>, i: int): Byte {
    if 0 <= i < |t| then t[i] else 0
  }

  // --------------------------------------------------------------- the two checks

  function SlowPath(t: seq<Byte>, buf: Word, p: Word): Checked {
    var orig := Lookup(buf);
    // shift counts are taken modulo 32
    var size := ReadTable(t, orig / 16) % 32;
    Decide(FloorSigned(orig, size), size, if HasMark(buf) then ClearMark(p) else p)
  }

  /** The address the slow path looks up: a pointer in the bottom half of a slot
      has run over the end of its block, one in the top half under its start. */
  function Lookup(p: Word): int {
    if !HasMark(p) then p
    else if ClearMark(p) / HALF_SLOT % 2 == 0 then ClearMark(p) - SLOT_SIZE
    else ToSigned(ClearMark(p) + SLOT_SIZE)
  }

  /** Target p against an allocation of 2^size bytes at start. */
  function Decide(start: int, size: nat, p: Word): Checked {
    var newptr := ToSigned(p);
    var allocSize := ToSigned(Pow2(size));
    var diff := ToSigned(newptr - start);
    if 0 <= diff < allocSize then
      Ptr(ToWord(newptr))
    else if diff < allocSize + HALF_SLOT && newptr >= start - HALF_SLOT then
      Ptr(SetMark(ToWord(newptr)))
    else
      Abort
  }

  /** The test the pass puts in front of the slow path. */
  predicate FastTest(t: seq<Byte>, base: Word, q: Word) {
    var size := ReadTable(t, base / 16) % 32;
    AShr(XorWord(base, q), size) == 0
  }

  function XorWord(a: Word, b: Word): Word {
    Pow2Values();
    XorBound(a, b, 32);
    Xor(a, b)
  }

  /** Instrumented pointer arithmetic from base to q. */
  function CheckedStep(t: seq<Byte>, base: Word, q: Word): Checked {
    if FastTest(t, base, q) then Ptr(q) else SlowPath(t, base, q)
  }

  // ------------------------------------------------------- regions and their pointers

  /** The table shows an aligned region of 2^k bytes at b. */
  ghost predicate Region(t: seq<Byte>, b: nat, k: nat) {
    && 4 <= k <= 30 && Aligned(b, k) && 16 <= b && b + Pow2(k) + 16 <= MARK && |t| == TABLE_SLOTS
    && forall s | 0 <= s < |t| && b <= 16 * s < b + Pow2(k) :: t[s] % 32 == k
  }

  lemma RegionFacts(t: seq<Byte>, b: nat, k: nat)
    requires Region(t, b, k)
    ensures 4 <= k <= 30 && Aligned(b, k) && 16 <= b && b + Pow2(k) + 16 <= MARK && |t| == TABLE_SLOTS
  {
  }

  predicate InBlock(b: nat, k: nat, a: int) {
    b <= a < b + Pow2(k)
  }

  /** The addresses a pointer into the block may take. */
  predicate InWindow(b: nat, k: nat, a: int) {
    b - HALF_SLOT <= a < b + Pow2(k) + HALF_SLOT
  }

  /** The word that stands for address a of the block (b, k). */
  function Encode(b: nat, k: nat, a: int): Word
    requires InWindow(b, k, a) && HALF_SLOT <= b && b + Pow2(k) + HALF_SLOT <= MARK
  {
    if InBlock(b, k, a) then a else a + MARK
  }

  /** What the check should say about address a. */
  function Verdict(b: nat, k: nat, a: int): Checked
    requires HALF_SLOT <= b && b + Pow2(k) + HALF_SLOT <= MARK
  {
    if InWindow(b, k, a) then Ptr(Encode(b, k, a)) else Abort
  }

  // ------------------------------------------------------------------- slow path

  /** Bounds recovery: the lookup of a pointer in its window falls into its
      block, even when the pointer itself does not. */
  lemma LookupInBlock(b: nat, k: nat, a: int)
    requires 4 <= k <= 30 && Aligned(b, k) && 16 <= b && b + Pow2(k) + 16 <= MARK && InWindow(b, k, a)
    ensures InBlock(b, k, Lookup(Encode(b, k, a)))
    ensures HasMark(Encode(b, k, a)) <==> !InBlock(b, k, a)
  {
    AlignedSlots(b, k);
    Pow2Sixteen(k);
    if a < b {
      LookupBelow(b / 16, a);
    } else if a >= b + Pow2(k) {
      LookupAbove(b / 16 + Pow2(k) / 16, a);
    }
  }

  lemma LookupBelow(q: nat, a: int)
    requires 16 * q - 8 <= a < 16 * q && 16 <= 16 * q && 16 * q + 16 < MARK
    ensures Lookup(a + MARK) == a + 16
  {
    HalfSlot(q, a);
  }

  lemma LookupAbove(q: nat, a: int)
    requires 16 * q <= a < 16 * q + 8 && 32 <= 16 * q && 16 * q + 16 <= MARK
    ensures Lookup(a + MARK) == a - 16
  {
    HalfSlot(q, a);
  }

  lemma HalfSlot(q: int, a: int)
    ensures 16 * q - 8 <= a < 16 * q ==> a / 8 % 2 == 1
    ensures 16 * q <= a < 16 * q + 8 ==> a / 8 % 2 == 0
  {
  }

  /** The table byte at any address of a region. */
  lemma RegionByte(t: seq<Byte>, b: nat, k: nat, a: nat)
    requires Region(t, b, k) && InBlock(b, k, a)
    ensures ReadTable(t, a / 16) % 32 == k
  {
    AlignedSlots(b, k);
    var q, r := b / 16, Pow2(k) / 16;
    SlotIn(q, r, a);
  }

  /** Every pointer of the window finds the log of its block in the table, and
      the block's start by shifting down and up. */
  lemma BoundsRecovered(t: seq<Byte>, b: nat, k: nat, a: int)
    requires Region(t, b, k) && InWindow(b, k, a)
    ensures var orig := Lookup(Encode(b, k, a));
            ReadTable(t, orig / 16) % 32 == k && FloorSigned(orig, k) == b
  {
    hide Lookup, Aligned, Floor, Pow2;
    LookupInBlock(b, k, a);
    var orig := Lookup(Encode(b, k, a));
    RegionByte(t, b, k, orig);
    FloorUnique(b, orig, k);
  }

  lemma ToSignedSmall(x: int)
    requires -MARK <= x < MARK
    ensures ToSigned(x) == x
  {
  }

  lemma ToSignedBack(p: Word)
    ensures ToSigned(p) == (if p < MARK then p else p - WORDS) && ToWord(ToSigned(p)) == p
  {
  }

  lemma ToSignedBelow(x: int)
    requires -WORDS < x < -MARK
    ensures ToSigned(x) == x + WORDS
  {
  }

  /** The comparisons of the slow path, with their 32-bit wrap-around, decide
      membership in the window. */
  lemma DecideExact(b: nat, k: nat, p: Word)
    requires k <= 30 && 16 <= b && b + Pow2(k) + 16 <= MARK
    ensures Decide(b, k, p) == Verdict(b, k, p)
  {
    hide ToSigned, ToWord, Pow2;
    Pow2Mono(k, 30);
    Pow2Values();
    ToSignedSmall(Pow2(k));
    ToSignedBack(p);
    var newptr := ToSigned(p);
    if newptr - b < -MARK {
      ToSignedBelow(newptr - b);
    } else {
      ToSignedSmall(newptr - b);
    }
  }

  /** The slow path gives the right verdict for every pointer of the window and
      every target word. */
  lemma SlowPathExact(t: seq<Byte>, b: nat, k: nat, a: int, p: Word)
    requires Region(t, b, k) && InWindow(b, k, a)
    ensures SlowPath(t, Encode(b, k, a), p) == Verdict(b, k, if InBlock(b, k, a) then p else ClearMark(p))
  {
    hide Lookup, Decide, Aligned, FloorSigned, Pow2;
    LookupInBlock(b, k, a);
    BoundsRecovered(t, b, k, a);
    DecideExact(b, k, if InBlock(b, k, a) then p else ClearMark(p));
  }

  // ------------------------------------------------------------------- fast path

  lemma AShrZero(x: Word, k: nat)
    requires k <= 31
    ensures AShr(x, k) == 0 <==> x < MARK && Shr(x, k) == 0
  {
  }

  lemma {:induction false} ShlInjective(a: nat, b: nat, k: nat)
    requires Shl(a, k) == Shl(b, k)
    ensures a == b
  {
    if k != 0 {
      ShlInjective(a, b, k - 1);
    }
  }

  /** For an unmarked pointer the test passes iff the target stays in the block. */
  lemma FastTestInside(t: seq<Byte>, b: nat, k: nat, a: nat, q: Word)
    requires Region(t, b, k) && InBlock(b, k, a)
    ensures FastTest(t, a, q) <==> InBlock(b, k, q)
  {
    RegionByte(t, b, k, a);
    AShrZero(XorWord(a, q), k);
    XorShift(a, q, k);
    XorZero(Shr(a, k), Shr(q, k));
    FloorUnique(b, a, k);
    FloorUnique(b, q, k);
    Pow2Values();
    if InBlock(b, k, q) {
      XorBound(a, q, 31);
      ShlInjective(Shr(a, k), Shr(q, k), k);
    }
  }

  /** For a marked pointer the table's empty upper half gives size 0, and the
      test passes only when nothing moves. */
  lemma FastTestOutside(t: seq<Byte>, p: Word, q: Word)
    requires HasMark(p) && |t| == TABLE_SLOTS
    ensures FastTest(t, p, q) <==> q == p
  {
    AShrZero(XorWord(p, q), 0);
    XorZero(p, q);
  }

  lemma RefinesInside(t: seq<Byte>, b: nat, k: nat, a: nat, q: Word)
    requires Region(t, b, k) && InBlock(b, k, a) && InWindow(b, k, a)
    ensures FastTest(t, a, q) ==> SlowPath(t, a, q) == Ptr(q)
  {
    SlowPathExact(t, b, k, a, q);
    FastTestInside(t, b, k, a, q);
    RegionFacts(t, b, k);
    hide Region, SlowPath, FastTest, Pow2;
  }

  lemma MarkedOutside(b: nat, k: nat, a: int)
    requires !InBlock(b, k, a) && InWindow(b, k, a) && HALF_SLOT <= b && b + Pow2(k) + HALF_SLOT <= MARK
    ensures HasMark(Encode(b, k, a)) && ClearMark(Encode(b, k, a)) == a
  {
  }

  lemma RefinesOutside(t: seq<Byte>, b: nat, k: nat, a: int, q: Word)
    requires Region(t, b, k) && !InBlock(b, k, a) && InWindow(b, k, a)
    ensures FastTest(t, Encode(b, k, a), q) ==> SlowPath(t, Encode(b, k, a), q) == Ptr(q)
  {
    RegionFacts(t, b, k);
    hide Region, SlowPath, FastTest, Pow2, Encode, HasMark, ClearMark, InBlock, InWindow, Aligned;
    SlowPathExact(t, b, k, a, q);
    MarkedOutside(b, k, a);
    FastTestOutside(t, Encode(b, k, a), q);
  }

  /** The fast path refines the slow path on every well-formed pointer. */
  lemma FastRefinesSlow(t: seq<Byte>, b: nat, k: nat, a: int, q: Word)
    requires Region(t, b, k) && InWindow(b, k, a)
    ensures CheckedStep(t, Encode(b, k, a), q) == SlowPath(t, Encode(b, k, a), q)
  {
    hide SlowPath, FastTest, Region, Pow2;
    if InBlock(b, k, a) {
      RefinesInside(t, b, k, a, q);
    } else {
      RefinesOutside(t, b, k, a, q);
    }
  }

  // ------------------------------------------------------------------ pointer steps

  /** The word the compiled arithmetic computes: no overflow check. */
  function Moved(p: Word, off: int): Word {
    ToWord(p + off)
  }

  /** The address a step reaches as far as the check can see: the machine adds
      modulo 2^32, and the slow path drops bit 31 of a marked pointer. */
  function SeenAddress(b: nat, k: nat, a: int, off: int): nat {
    (a + off) % (if InBlock(b, k, a) then WORDS else MARK)
  }

  /** One step from any pointer of the window, for every offset. */
  lemma StepExact(t: seq<Byte>, b: nat, k: nat, a: int, off: int)
    requires Region(t, b, k) && InWindow(b, k, a)
    ensures var p := Encode(b, k, a);
            CheckedStep(t, p, Moved(p, off)) == Verdict(b, k, SeenAddress(b, k, a, off))
  {
    var p := Encode(b, k, a);
    FastRefinesSlow(t, b, k, a, Moved(p, off));
    SlowPathExact(t, b, k, a, Moved(p, off));
    if !InBlock(b, k, a) {
      DropMark(a, off);
    }
  }

  lemma DropMark(a: int, off: int)
    ensures (a + MARK + off) % WORDS % MARK == (a + off) % MARK
  {
    var x := a + off;
    var q, r := x / MARK, x % MARK;
    var half, odd := (q + 1) / 2, (q + 1) % 2;
    assert x + MARK == WORDS * half + (MARK * odd + r);
    Remainder(x + MARK, half, MARK * odd + r);
  }

  lemma Remainder(x: int, c: int, r: nat)
    requires x == WORDS * c + r && r < WORDS
    ensures x % WORDS == r
  {
  }

  /** The verdict is right for the true address exactly unless the address is
      outside the window and wraps into it. */
  lemma StepRightIff(t: seq<Byte>, b: nat, k: nat, a: int, off: int)
    requires Region(t, b, k) && InWindow(b, k, a)
    ensures var p := Encode(b, k, a);
            var wraps := !InWindow(b, k, a + off) && InWindow(b, k, SeenAddress(b, k, a, off));
            CheckedStep(t, p, Moved(p, off)) == Verdict(b, k, a + off) <==> !wraps
  {
    hide CheckedStep, Pow2;
    StepExact(t, b, k, a, off);
    if 0 <= a + off < MARK {
      SeenExact(b, k, a, off);
    }
  }

  lemma SeenExact(b: nat, k: nat, a: int, off: int)
    requires 0 <= a + off < MARK
    ensures SeenAddress(b, k, a, off) == a + off
  {
  }

  /** From inside the block no 32-bit offset wraps: the verdict is always right. */
  lemma StepRightInside(t: seq<Byte>, b: nat, k: nat, a: int, off: int)
    requires Region(t, b, k) && InBlock(b, k, a) && -MARK <= off < MARK
    ensures CheckedStep(t, a, Moved(a, off)) == Verdict(b, k, a + off)
  {
    hide CheckedStep, Pow2;
    StepRightIff(t, b, k, a, off);
    RegionFacts(t, b, k);
    if a + off < 0 {
      SeenBelow(b, k, a, off);
    } else {
      SeenInside(b, k, a, off);
    }
  }

  lemma SeenBelow(b: nat, k: nat, a: int, off: int)
    requires InBlock(b, k, a) && -WORDS <= a + off < 0
    ensures SeenAddress(b, k, a, off) == a + off + WORDS
  {
  }

  lemma SeenInside(b: nat, k: nat, a: int, off: int)
    requires InBlock(b, k, a) && 0 <= a + off < WORDS
    ensures SeenAddress(b, k, a, off) == a + off
  {
  }

  /** The wrap-around exists: from just behind a block, an offset of -2^31 is
      taken for no step at all. */
  lemma WrapAccepted(t: seq<Byte>, b: nat, k: nat)
    requires Region(t, b, k)
    ensures var p := Encode(b, k, b + Pow2(k));
            CheckedStep(t, p, Moved(p, -0x8000_0000)) == Ptr(p) && !InWindow(b, k, b + Pow2(k) - 0x8000_0000)
  {
    hide CheckedStep, Pow2;
    var a := b + Pow2(k);
    StepExact(t, b, k, a, -0x8000_0000);
    assert (a - 0x8000_0000) % MARK == a;
  }

  // ------------------------------------------------------------------ pointer walks

  function Sum(offs: seq<int>): int {
    if offs == [] then 0 else offs[0] + Sum(offs[1..])
  }

  /** Steps taken one after the other, each checked; the first abort ends it. */
  function Walk(t: seq<Byte>, p: Word, offs: seq<int>): Checked
    decreases |offs|
  {
    if offs == [] then Ptr(p)
    else
      match CheckedStep(t, p, Moved(p, offs[0]))
      case Abort => Abort
      case Ptr(q) => Walk(t, q, offs[1..])
  }

  /** No step from the window wraps around into it again.  Steps behind one that
      leaves the window do not matter: they are not taken. */
  ghost predicate NoWrap(b: nat, k: nat, a: int, offs: seq<int>) {
    forall i | 0 <= i < |offs| :: InWindow(b, k, a + Sum(offs[..i])) ==> Unwrapped(b, k, a + Sum(offs[..i]), offs[i])
  }

  ghost predicate Unwrapped(b: nat, k: nat, a: int, off: int) {
    InWindow(b, k, SeenAddress(b, k, a, off)) ==> InWindow(b, k, a + off)
  }

  /** Some step leaves the window. */
  ghost predicate Leaves(b: nat, k: nat, a: int, offs: seq<int>) {
    exists i | 0 <= i <= |offs| :: !InWindow(b, k, a + Sum(offs[..i]))
  }

  lemma SumCons(offs: seq<int>, i: nat)
    requires 0 < i <= |offs|
    ensures Sum(offs[..i]) == offs[0] + Sum(offs[1..][..i - 1])
  {
    assert offs[..i][1..] == offs[1..][..i - 1];
  }

  lemma TailUnwrapped(b: nat, k: nat, a: int, offs: seq<int>)
    requires offs != [] && NoWrap(b, k, a, offs)
    ensures NoWrap(b, k, a + offs[0], offs[1..]) && (InWindow(b, k, a) ==> Unwrapped(b, k, a, offs[0]))
  {
    hide InWindow, Unwrapped;
    var tail := offs[1..];
    forall i | 0 <= i < |tail| && InWindow(b, k, a + offs[0] + Sum(tail[..i]))
      ensures Unwrapped(b, k, a + offs[0] + Sum(tail[..i]), tail[i])
    {
      SumCons(offs, i + 1);
      assert tail[i] == offs[i + 1];
    }
    assert Sum(offs[..0]) == 0;
  }

  /** Sums that are addresses do not wrap. */
  lemma SumsFit(b: nat, k: nat, a: int, offs: seq<int>)
    requires forall i | 0 <= i <= |offs| :: 0 <= a + Sum(offs[..i]) < MARK
    ensures NoWrap(b, k, a, offs)
  {
    forall i | 0 <= i < |offs| ensures Unwrapped(b, k, a + Sum(offs[..i]), offs[i]) {
      SumMore(offs, i);
      SeenExact(b, k, a + Sum(offs[..i]), offs[i]);
    }
  }

  lemma {:induction false} SumMore(offs: seq<int>, i: nat)
    requires i < |offs|
    ensures Sum(offs[..i + 1]) == Sum(offs[..i]) + offs[i]
    decreases i
  {
    SumCons(offs, i + 1);
    if i > 0 {
      SumCons(offs, i);
      SumMore(offs[1..], i - 1);
      assert offs[1..][i - 1] == offs[i];
    }
  }

  lemma TailLeaves(b: nat, k: nat, a: int, offs: seq<int>)
    requires offs != [] && InWindow(b, k, a)
    ensures Leaves(b, k, a, offs) <==> Leaves(b, k, a + offs[0], offs[1..])
  {
    if i :| 0 <= i <= |offs| && !InWindow(b, k, a + Sum(offs[..i])) {
      assert i > 0;
      SumCons(offs, i);
      assert !InWindow(b, k, a + offs[0] + Sum(offs[1..][..i - 1]));
    }
    if j :| 0 <= j <= |offs[1..]| && !InWindow(b, k, a + offs[0] + Sum(offs[1..][..j])) {
      SumCons(offs, j + 1);
      assert !InWindow(b, k, a + Sum(offs[..j + 1]));
    }
  }

  lemma NoStep(b: nat, k: nat, a: int)
    ensures Leaves(b, k, a, []) <==> !InWindow(b, k, a)
  {
    assert a + Sum([][..0]) == a;
  }

  lemma LeavesAtOnce(b: nat, k: nat, a: int, offs: seq<int>)
    requires !InWindow(b, k, a)
    ensures Leaves(b, k, a, offs)
  {
    assert a + Sum(offs[..0]) == a;
  }

  /** A walk aborts iff some step leaves the window; otherwise it ends at the
      pointer to the sum of all steps, marked iff that lies outside the block. */
  lemma {:induction false} WalkExact(t: seq<Byte>, b: nat, k: nat, a: int, offs: seq<int>)
    requires Region(t, b, k) && InWindow(b, k, a) && NoWrap(b, k, a, offs)
    ensures Leaves(b, k, a, offs) ==> Walk(t, Encode(b, k, a), offs) == Abort
    ensures !Leaves(b, k, a, offs) ==>
              InWindow(b, k, a + Sum(offs)) && Walk(t, Encode(b, k, a), offs) == Ptr(Encode(b, k, a + Sum(offs)))
    decreases |offs|
  {
    hide CheckedStep, Leaves, NoWrap, Region;
    RegionFacts(t, b, k);
    if offs == [] {
      NoStep(b, k, a);
    } else {
      TailUnwrapped(b, k, a, offs);
      TailLeaves(b, k, a, offs);
      StepExact(t, b, k, a, offs[0]);
      if InWindow(b, k, a + offs[0]) {
        SeenExact(b, k, a, offs[0]);
        WalkExact(t, b, k, a + offs[0], offs[1..]);
      } else {
        LeavesAtOnce(b, k, a + offs[0], offs[1..]);
      }
    }
  }

  /** Going out of the block and coming back gives the original pointer. */
  lemma OutAndBack(t: seq<Byte>, b: nat, k: nat, a: int, offs: seq<int>)
    requires Region(t, b, k) && InBlock(b, k, a) && NoWrap(b, k, a, offs)
    requires Sum(offs) == 0 && !Leaves(b, k, a, offs)
    ensures Walk(t, a, offs) == Ptr(a)
  {
    WalkExact(t, b, k, a, offs);
  }

  /** Whatever the offsets, wrapping ones included: a walk that is not aborted
      ends at a pointer into the window of the block it started from, unmarked
      exactly when it points into the block. */
  lemma {:induction false} WalkKeepsBlock(t: seq<Byte>, b: nat, k: nat, a: int, offs: seq<int>)
    requires Region(t, b, k) && InWindow(b, k, a)
    ensures match Walk(t, Encode(b, k, a), offs)
            case Ptr(q) => InWindow(b, k, q % MARK) && q == Encode(b, k, q % MARK)
            case Abort => true
    decreases |offs|
  {
    hide CheckedStep, Region, Pow2;
    RegionFacts(t, b, k);
    if offs == [] {
      EncodeAddress(b, k, a);
    } else {
      StepExact(t, b, k, a, offs[0]);
      var a' := SeenAddress(b, k, a, offs[0]);
      if InWindow(b, k, a') {
        WalkKeepsBlock(t, b, k, a', offs[1..]);
      }
    }
  }

  lemma EncodeAddress(b: nat, k: nat, a: int)
    requires InWindow(b, k, a) && HALF_SLOT <= b && b + Pow2(k) + HALF_SLOT <= MARK
    ensures Encode(b, k, a) % MARK == a
  {
  }

  // ---------------------------------------------------------- where regions come from

  /** Every block the allocator tiles its heap with is a region, whatever its
      USED bit: the check works on all pointers malloc returns. */
  lemma HeapBlockIsRegion(t: seq<Byte>, h: Heap, b: nat)
    requires Inv(h) && TableOk(t, h) && |t| == TABLE_SLOTS && b in h.blocks
    ensures Region(t, b, h.blocks[b].log)
  {
    assert BlockOk(h, b);
    AlignedSixteen(h.lo);
    hide Tiled, BinsOk, Aligned, Pow2;
    assert Marked(t, b, h.blocks[b]);
    forall s | 0 <= s < |t| && b <= 16 * s < b + Pow2(h.blocks[b].log) ensures t[s] % 32 == h.blocks[b].log {
      assert GetLogsize(t[s]) == h.blocks[b].log;
    }
  }

  /** Live blocks are isolated: no sequence of checked steps from a pointer into
      one of them yields an unmarked pointer into another. */
  lemma LiveBlocksIsolated(t: seq<Byte>, h: Heap, b: nat, c: nat, a: nat, offs: seq<int>)
    requires Inv(h) && TableOk(t, h) && |t| == TABLE_SLOTS
    requires IsUsed(h, b) && IsUsed(h, c) && b != c && InBlock(b, h.blocks[b].log, a) && a < MARK
    ensures var r := Walk(t, a, offs); r.Ptr? && !HasMark(r.p) ==> !InBlock(c, h.blocks[c].log, r.p)
  {
    hide Walk, Region, Pow2;
    var k := h.blocks[b].log;
    HeapBlockIsRegion(t, h, b);
    RegionFacts(t, b, k);
    WalkKeepsBlock(t, b, k, a, offs);
    assert Apart(h, b, c) && Apart(h, c, b);
  }

  lemma DecideOne(p: Word, q: Word)
    requires !HasMark(p)
    ensures Decide(p, 0, q) ==
            if q == p then Ptr(q) else if p - 8 <= ToSigned(q) < p + 9 then Ptr(SetMark(q)) else Abort
  {
    assert Pow2(0) == 1;
  }

  /** Where nothing is registered, a pointer is taken for a block of one byte. */
  lemma UnregisteredStep(t: seq<Byte>, p: Word, q: Word)
    requires !HasMark(p) && ReadTable(t, p / 16) == 0
    ensures CheckedStep(t, p, q) ==
            if q == p then Ptr(q) else if p - 8 <= ToSigned(q) < p + 9 then Ptr(SetMark(q)) else Abort
  {
    assert Floor(p, 0) == p;
    hide Decide, AShr, XorWord, Xor, Shr, Floor;
    AShrZero(XorWord(p, q), 0);
    XorZeroWord(p, q);
    DecideOne(p, q);
  }

  lemma XorZeroWord(p: Word, q: Word)
    ensures XorWord(p, q) == 0 <==> p == q
  {
    XorZero(p, q);
  }

  /** Registering an aligned region writes its log into every slot of it. */
  method BaggySaveInTable(table: array<Byte>, loc: nat, lg: nat)
    requires 4 <= lg <= 30 && loc / 16 + Pow2(lg - 4) <= table.Length
    modifies table
    ensures Filled(old(table[..]), table[..], loc / 16, loc / 16 + Pow2(lg - 4), lg)
  {
    var i := loc / 16;
    while i < loc / 16 + Pow2(lg - 4)
      invariant loc / 16 <= i <= loc / 16 + Pow2(lg - 4)
      invariant Filled(old(table[..]), table[..], loc / 16, i, lg)
    {
      table[i] := lg;
      i := i + 1;
    }
  }

  /** Registration makes the region recoverable and disturbs no disjoint one. */
  lemma RegistrationOk(t: seq<Byte>, t': seq<Byte>, loc: nat, lg: nat, b: nat, k: nat)
    requires |t| == TABLE_SLOTS && 4 <= lg <= 30 && Aligned(loc, lg) && 16 <= loc && loc + Pow2(lg) + 16 <= MARK
    requires Filled(t, t', loc / 16, loc / 16 + Pow2(lg - 4), lg)
    ensures Region(t', loc, lg)
    ensures Region(t, b, k) && (b + Pow2(k) <= loc || loc + Pow2(lg) <= b) ==> Region(t', b, k)
  {
    AlignedSlots(loc, lg);
    Pow2Sixteen(lg);
    var i, j := loc / 16, loc / 16 + Pow2(lg - 4);
    assert 16 * i == loc && 16 * j == loc + Pow2(lg);
  }
}
