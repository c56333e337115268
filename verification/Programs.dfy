/** Programs and the allocator: every call, every load and store of a program and
    every region it registers, as seen from outside.  A program knows its heap
    blocks, the bytes it has written, and its regions. */
module Programs {
  import opened Bits
  import opened BoundsCheck
  import opened BuddyHeap
  import opened FreeLists
  import opened HeapFrame
  import opened HeapTheorems
  import opened SizeTable
  import opened Words

  datatype Op =
    | MallocOp(size: nat)
    | CallocOp(num: nat, size: nat)
    | FreeOp(p: nat)
    | ReallocOp(p: nat, size: nat)
    | StoreOp(a: nat, b: Byte)
    | LoadOp(a: nat)
    | RegisterOp(loc: nat, lg: nat)

  /** Globals lie below brk; bytes holds the value of every byte that has one. */
  datatype Program = Program(heap: Heap, brk: nat, bytes: map<nat, Byte>, regions: map<nat, nat>)

  /** Byte a is the program's: a global's or in a live block. */
  ghost predicate Owned(s: Program, a: nat) {
    a < s.brk || InLive(Live(s.heap), a)
  }

  /** Where a region may lie: it starts below the heap, and is not taken for the
      buddy of a block, or it is on the stack. */
  predicate RegionPlace(c: nat, k: nat, lo: nat) {
    && 4 <= k <= 30 && Aligned(c, k) && 16 <= c
    && ((c < lo && Harmless(c, k, lo)) || (LIMIT <= c && c + Pow2(k) <= TABLE_START))
  }

  /** A region that the heap leaves alone; a global is aligned to the size of its
      region, but not padded, so the region of the last one may reach into the heap. */
  predicate Whole(c: nat, k: nat, lo: nat) {
    c + Pow2(k) <= lo || LIMIT <= c
  }

  /** Registration may write to slots of the heap's area only while there is no block. */
  predicate CanRegister(h: Heap, c: nat, k: nat) {
    RegionPlace(c, k, h.lo) && (Whole(c, k, h.lo) || h.end == h.lo)
  }

  ghost predicate Sound(s: Program) {
    && Inv(s.heap) && Coalesced(s.heap) && s.heap.lo == HeapStart(s.brk)
    && (forall a | a in s.bytes :: Owned(s, a))
    && (forall c | c in s.regions :: RegionPlace(c, s.regions[c], s.heap.lo))
  }

  /** The slots outside the heap's area show these regions. */
  ghost predicate Shown(t: seq<Byte>, regions: map<nat, nat>, lo: nat) {
    forall c | c in regions :: ShowsRegion(t, c, regions[c], lo)
  }

  ghost predicate ShowsRegion(t: seq<Byte>, c: nat, k: nat, lo: nat) {
    forall s | 0 <= s < |t| && c <= 16 * s < c + Pow2(k) && (16 * s < lo || LIMIT <= 16 * s) :: t[s] == k
  }

  /** The bounds of a region that the heap leaves alone can be recovered. */
  lemma ShownRegion(t: seq<Byte>, c: nat, k: nat, lo: nat)
    requires |t| == TABLE_SLOTS && lo <= LIMIT
    requires ShowsRegion(t, c, k, lo) && RegionPlace(c, k, lo) && Whole(c, k, lo)
    ensures Region(t, c, k) && c + Pow2(k) <= TABLE_START
  {
    hide Aligned, Pow2, Harmless;
  }

  lemma SoundSizes(s: Program)
    requires Sound(s)
    ensures Inv(s.heap) && Coalesced(s.heap) && s.heap.lo == HeapStart(s.brk) && s.heap.lo <= s.heap.end <= LIMIT
  {
  }

  // ------------------------------------------------------------------ what a call does

  /** What the allocator and the size table demand of the program: requests that
      can be served, pointers that are null or the start of a live block, loads of
      bytes that have a value, and stores to bytes that are its own. */
  ghost predicate Legal(s: Program, op: Op)
    requires Sound(s)
  {
    match op
    case MallocOp(size) => CanMalloc(s.heap, size)
    case CallocOp(num, size) => CanMalloc(s.heap, Total(num, size)) && Total(num, size) <= MAX_REQUEST
    case FreeOp(p) => p == 0 || IsUsed(s.heap, p)
    case ReallocOp(p, size) =>
      CanMalloc(s.heap, size) && (p == 0 || (IsUsed(s.heap, p) && CanCopy(s.heap, p, size)))
    case StoreOp(a, _) => Owned(s, a)
    case LoadOp(a) => a in s.bytes
    case RegisterOp(loc, lg) => CanRegister(s.heap, loc, lg)
  }

  /** The n bytes from p are given up. */
  function Forgotten(bytes: map<nat, Byte>, p: nat, n: nat): map<nat, Byte> {
    map a | a in bytes && !(p <= a < p + n) :: bytes[a]
  }

  /** The n bytes from q become what the n bytes from p are in source. */
  function CopyBytes(source: map<nat, Byte>, bytes: map<nat, Byte>, p: nat, q: nat, n: nat): (r: map<nat, Byte>)
    ensures forall a: nat :: a in r <==> if q <= a < q + n then p + (a - q) in source else a in bytes
    ensures forall a | a in r :: r[a] == if q <= a < q + n then source[p + (a - q)] else bytes[a]
  {
    if n == 0 then bytes
    else
      var r := CopyBytes(source, bytes, p, q, n - 1);
      if p + n - 1 in source then r[q + n - 1 := source[p + n - 1]] else r - {q + n - 1}
  }

  /** A new region replaces the old ones it overlaps. */
  function Registered(regions: map<nat, nat>, loc: nat, lg: nat): map<nat, nat> {
    (map c | c in regions && (c + Pow2(regions[c]) <= loc || loc + Pow2(lg) <= c) :: regions[c])[loc := lg]
  }

  /** A reallocation allocates first and frees the old block afterwards. */
  function Apply(s: Program, op: Op): Program
    requires Sound(s) && Legal(s, op)
  {
    match op
    case MallocOp(size) => s.(heap := Malloc(s.heap, size).0)
    case CallocOp(num, size) =>
      var (h, p) := Malloc(s.heap, Total(num, size));
      s.(heap := h, bytes := Fill(s.bytes, p, Total(num, size), 0))
    case FreeOp(p) =>
      if p == 0 then s
      else s.(heap := Free(s.heap, p), bytes := Forgotten(s.bytes, p, Pow2(s.heap.blocks[p].log)))
    case ReallocOp(p, size) =>
      var (h, q) := Malloc(s.heap, size);
      if p == 0 then s.(heap := h)
      else
        MallocKeeps(s.heap, size, p);
        var kept := Forgotten(s.bytes, p, Pow2(s.heap.blocks[p].log));
        s.(heap := Free(h, p), bytes := CopyBytes(s.bytes, kept, p, q, CopySize(s.heap, p, size)))
    case StoreOp(a, b) => s.(bytes := s.bytes[a := b])
    case LoadOp(_) => s
    case RegisterOp(loc, lg) => s.(regions := Registered(s.regions, loc, lg))
  }

  /** The pointer a call returns, or the byte a load reads; 0 if there is none. */
  function Answer(s: Program, op: Op): nat
    requires Sound(s) && Legal(s, op)
  {
    match op
    case MallocOp(size) => Malloc(s.heap, size).1
    case CallocOp(num, size) => Malloc(s.heap, Total(num, size)).1
    case FreeOp(_) => 0
    case ReallocOp(_, size) => Malloc(s.heap, size).1
    case StoreOp(_, _) => 0
    case LoadOp(a) => s.bytes[a]
    case RegisterOp(_, _) => 0
  }

  // ------------------------------------------------------------- every call keeps it sound

  /** What is owned stays so when a block is added. */
  lemma OwnedMore(h: Heap, g: Heap, p: nat, k: nat, a: nat)
    requires p !in Live(h) && Live(g) == Live(h)[p := k]
    ensures InLive(Live(h), a) ==> InLive(Live(g), a)
    ensures p <= a < p + Pow2(k) ==> InLive(Live(g), a)
  {
    if InLive(Live(h), a) {
      var b :| b in Live(h) && b <= a < b + Pow2(Live(h)[b]);
      assert b in Live(g);
    }
    assert p in Live(g);
  }

  /** And when another block is freed. */
  lemma OwnedLess(h: Heap, g: Heap, p: nat, a: nat)
    requires Live(g) == Live(h) - {p} && InLive(Live(h), a)
    requires p in Live(h) ==> !(p <= a < p + Pow2(Live(h)[p]))
    ensures InLive(Live(g), a)
  {
    var b :| b in Live(h) && b <= a < b + Pow2(Live(h)[b]);
    assert b in Live(g);
  }

  lemma MallocSound(s: Program, size: nat)
    requires Sound(s) && CanMalloc(s.heap, size)
    ensures var (h, p) := Malloc(s.heap, size);
            && Sound(s.(heap := h)) && s.heap.end <= h.end
            && p !in Live(s.heap) && Live(h) == Live(s.heap)[p := BlockLog(size)]
            && forall a: nat | p <= a < p + Pow2(BlockLog(size)) :: InLive(Live(h), a)
  {
    hide Inv, Coalesced, Malloc, CanMalloc, InLive, Live, BlockLog, RegionPlace;
    MallocOk(s.heap, size);
    MallocEnd(s.heap, size);
    var (h, p) := Malloc(s.heap, size);
    forall a: nat
      ensures InLive(Live(s.heap), a) ==> InLive(Live(h), a)
      ensures p <= a < p + Pow2(BlockLog(size)) ==> InLive(Live(h), a)
    {
      OwnedMore(s.heap, h, p, BlockLog(size), a);
    }
    assert forall a | a in s.bytes :: Owned(s.(heap := h), a);
  }

  lemma FreeSound(s: Program, p: nat)
    requires Sound(s) && IsUsed(s.heap, p)
    requires forall a | a in s.bytes :: !(p <= a < p + Pow2(s.heap.blocks[p].log))
    ensures Sound(s.(heap := Free(s.heap, p))) && Free(s.heap, p).end == s.heap.end
  {
    hide Inv, Coalesced, Free, InLive, RegionPlace, Pow2;
    FreeOk(s.heap, p);
    forall a | a in s.bytes ensures Owned(s.(heap := Free(s.heap, p)), a) {
      assert Owned(s, a);
      if InLive(Live(s.heap), a) {
        OwnedLess(s.heap, Free(s.heap, p), p, a);
      }
    }
  }

  lemma ApplyOk(s: Program, op: Op)
    requires Sound(s) && Legal(s, op)
    ensures Sound(Apply(s, op)) && Apply(s, op).brk == s.brk && s.heap.end <= Apply(s, op).heap.end
  {
    hide Inv, Coalesced, Malloc, Free, CanMalloc, CanCopy, CopySize, BlockLog, InLive, RegionPlace, Total, Pow2;
    match op
    case MallocOp(size) =>
      MallocSound(s, size);
    case CallocOp(num, size) =>
      MallocSound(s, Total(num, size));
      BlockHoldsRequest(Total(num, size));
    case FreeOp(p) =>
      if p != 0 {
        var n := Pow2(s.heap.blocks[p].log);
        FreeSound(s.(bytes := Forgotten(s.bytes, p, n)), p);
      }
    case ReallocOp(p, size) =>
      MallocSound(s, size);
      if p != 0 {
        ReallocSound(s, p, size);
      }
    case StoreOp(_, _) =>
    case LoadOp(_) =>
    case RegisterOp(_, _) =>
  }

  lemma ReallocSound(s: Program, p: nat, size: nat)
    requires Sound(s) && p != 0 && Legal(s, ReallocOp(p, size))
    ensures Sound(Apply(s, ReallocOp(p, size))) && s.heap.end <= Apply(s, ReallocOp(p, size)).heap.end
  {
    hide Inv, Coalesced, Malloc, Free, CanCopy, CopySize, BlockLog, InLive, RegionPlace, Pow2;
    MallocSound(s, size);
    MallocKeeps(s.heap, size, p);
    CopyFitsIff(s.heap, p, size);
    MallocDisjoint(s.heap, size, p);
    var (h, q) := Malloc(s.heap, size);
    var kept := Forgotten(s.bytes, p, Pow2(s.heap.blocks[p].log));
    var bytes := CopyBytes(s.bytes, kept, p, q, CopySize(s.heap, p, size));
    FreeSound(s.(heap := h, bytes := bytes), p);
  }

  // ------------------------------------------------------------------------- whole runs

  /** Every call of the run is legal when its turn comes. */
  ghost predicate LegalRun(s: Program, ops: seq<Op>)
    requires Sound(s)
    decreases |ops|
  {
    ops == [] || (Legal(s, ops[0]) && (ApplyOk(s, ops[0]); LegalRun(Apply(s, ops[0]), ops[1..])))
  }

  function Run(s: Program, ops: seq<Op>): Program
    requires Sound(s) && LegalRun(s, ops)
    decreases |ops|
  {
    if ops == [] then s
    else
      ApplyOk(s, ops[0]);
      Run(Apply(s, ops[0]), ops[1..])
  }

  /** What the calls of the run return, in order. */
  function Answers(s: Program, ops: seq<Op>): seq<nat>
    requires Sound(s) && LegalRun(s, ops)
    decreases |ops|
  {
    if ops == [] then []
    else
      ApplyOk(s, ops[0]);
      [Answer(s, ops[0])] + Answers(Apply(s, ops[0]), ops[1..])
  }

  /** Every state of every run: the blocks tile the heap, the bins list exactly
      the free blocks, no two free buddies are left apart, and every byte with a
      value is the program's own. */
  lemma {:induction false} EveryRunSafe(s: Program, ops: seq<Op>)
    requires Sound(s) && LegalRun(s, ops)
    ensures Sound(Run(s, ops)) && Run(s, ops).brk == s.brk
    decreases |ops|
  {
    if ops != [] {
      ApplyOk(s, ops[0]);
      EveryRunSafe(Apply(s, ops[0]), ops[1..]);
    }
  }

  /** The program after initialisation: it has its globals and an empty heap. */
  function Start(brk: nat, globals: seq<Byte>): Program
    requires |globals| == brk
  {
    Program(InitHeap(HeapStart(brk)), brk, map a | 0 <= a < brk :: globals[a], map[])
  }

  lemma InitStart(brk: nat)
    requires HeapStart(brk) <= LIMIT
    ensures var h := InitHeap(HeapStart(brk)); Inv(h) && Coalesced(h) && Live(h) == map[]
  {
    var q := (brk + 2 * NODE_SIZE * NUM_BINS + 15) / 16;
    SixteenTimes(q);
    InitOk(16 * q);
  }

  lemma StartSound(brk: nat, globals: seq<Byte>)
    requires |globals| == brk && HeapStart(brk) <= LIMIT
    ensures Sound(Start(brk, globals))
  {
    hide Inv, Coalesced;
    InitStart(brk);
  }

  /** After any run from there, the free blocks are exactly the maximal vacant
      intervals that the live blocks leave. */
  lemma ReachableSafe(brk: nat, globals: seq<Byte>, ops: seq<Op>, a: nat, k: nat)
    requires |globals| == brk && HeapStart(brk) <= LIMIT
    requires (StartSound(brk, globals); LegalRun(Start(brk, globals), ops))
    ensures var h := Run(Start(brk, globals), ops).heap;
            Inv(h) && Coalesced(h) && (IsFree(h, a, k) <==> MaximalVacant(h, a, k))
  {
    StartSound(brk, globals);
    EveryRunSafe(Start(brk, globals), ops);
    FreeIffMaximal(Run(Start(brk, globals), ops).heap, a, k);
  }

  // ------------------------------------------------------------- what the program relies on

  /** A block malloc hands out holds none of the program's bytes. */
  lemma FreshApart(s: Program, size: nat, a: nat)
    requires Sound(s) && CanMalloc(s.heap, size) && Owned(s, a)
    ensures var p := Malloc(s.heap, size).1; !(p <= a < p + Pow2(BlockLog(size)))
  {
    hide Inv, Coalesced, Malloc, CanMalloc, BlockLog, Pow2;
    MallocFits(s.heap, size);
    HeapAbove(s.brk);
    if InLive(Live(s.heap), a) {
      var b :| b in Live(s.heap) && b <= a < b + Pow2(Live(s.heap)[b]);
      MallocDisjoint(s.heap, size, b);
    }
  }

  lemma HeapAbove(brk: nat)
    ensures brk <= HeapStart(brk)
  {
  }

  /** The pointers the program gives to free or realloc. */
  function Passed(ops: seq<Op>): set<nat> {
    set op | op in ops && (op.FreeOp? || op.ReallocOp?) :: op.p
  }

  /** Byte a is a global's, or it is in the live block b. */
  ghost predicate ByteOfBlock(s: Program, a: nat, b: nat) {
    a < s.brk || (b in Live(s.heap) && b <= a < b + Pow2(Live(s.heap)[b]))
  }

  /** A block that is not passed stays, and so do the globals. */
  lemma BlockStays(s: Program, op: Op, a: nat, b: nat)
    requires Sound(s) && Legal(s, op) && ByteOfBlock(s, a, b) && (a < s.brk || b !in Passed([op]))
    ensures ByteOfBlock(Apply(s, op), a, b)
  {
    hide Inv, Coalesced, Malloc, Free, CanMalloc, CanCopy, BlockLog, Pow2, Sound;
    assert Inv(s.heap) by {
      SoundSizes(s);
    }
    match op
    case MallocOp(size) => MallocOk(s.heap, size);
    case CallocOp(num, size) => MallocOk(s.heap, Total(num, size));
    case FreeOp(p) =>
      if p != 0 {
        FreeOk(s.heap, p);
      }
    case ReallocOp(p, size) =>
      MallocOk(s.heap, size);
      if p != 0 {
        MallocKeeps(s.heap, size, p);
        FreeOk(Malloc(s.heap, size).0, p);
      }
    case StoreOp(_, _) =>
    case LoadOp(_) =>
    case RegisterOp(_, _) =>
  }

  /** One call keeps every byte that it neither stores to nor gives away. */
  lemma ByteStays(s: Program, op: Op, a: nat, b: nat)
    requires Sound(s) && Legal(s, op) && a in s.bytes && ByteOfBlock(s, a, b)
    requires (a < s.brk || b !in Passed([op])) && !(op.StoreOp? && op.a == a)
    ensures a in Apply(s, op).bytes && Apply(s, op).bytes[a] == s.bytes[a]
  {
    hide Inv, Coalesced, Malloc, Free, CanCopy, BlockLog, Pow2, Total;
    match op
    case MallocOp(_) =>
    case CallocOp(num, size) =>
      FreshApart(s, Total(num, size), a);
      BlockHoldsRequest(Total(num, size));
    case FreeOp(p) =>
      if p != 0 {
        OtherBlock(s, p, a, b);
      }
    case ReallocOp(p, size) =>
      if p != 0 {
        OtherBlock(s, p, a, b);
        FreshApart(s, size, a);
        CopyFitsIff(s.heap, p, size);
      }
    case StoreOp(_, _) =>
    case LoadOp(_) =>
    case RegisterOp(_, _) =>
  }

  lemma OtherBlock(s: Program, p: nat, a: nat, b: nat)
    requires Sound(s) && IsUsed(s.heap, p) && ByteOfBlock(s, a, b) && (b != p || a < s.brk)
    ensures !(p <= a < p + Pow2(s.heap.blocks[p].log))
  {
    HeapAbove(s.brk);
    assert BlockOk(s.heap, p);
    if a >= s.brk {
      assert Apart(s.heap, p, b) && Apart(s.heap, b, p);
    }
  }

  /** A byte keeps its value for as long as the program does not store to it and
      does not give its block to free or realloc, whatever else it calls. */
  lemma {:induction false} ByteKept(s: Program, ops: seq<Op>, a: nat, b: nat)
    requires Sound(s) && LegalRun(s, ops) && a in s.bytes && ByteOfBlock(s, a, b)
    requires (a < s.brk || b !in Passed(ops)) && forall op | op in ops && op.StoreOp? :: op.a != a
    ensures a in Run(s, ops).bytes && Run(s, ops).bytes[a] == s.bytes[a]
    decreases |ops|
  {
    hide Sound, Legal, Apply, ByteOfBlock;
    if ops != [] {
      assert forall op | op in ops[1..] :: op in ops;
      assert b !in Passed(ops) ==> b !in Passed([ops[0]]) && b !in Passed(ops[1..]);
      ApplyOk(s, ops[0]);
      BlockStays(s, ops[0], a, b);
      ByteStays(s, ops[0], a, b);
      ByteKept(Apply(s, ops[0]), ops[1..], a, b);
    }
  }

  // ---------------------------------------------------------------- a region too close

  /** A region that is not harmless exists: with a break of 5376 the heap starts at
      6144, where a global of 1280 bytes at 4096, aligned but not padded, ends its
      2^11.  It passes for the free buddy of the first block of that size. */
  lemma LooksFreeFails(t: seq<Byte>) returns (lo: nat, c: nat)
    requires |t| == TABLE_SLOTS && forall s | 256 <= s < 512 :: t[s] == 11
    ensures lo == HeapStart(5376) && c + 1280 == 5376 && BlockLog(1280) == 11 && Aligned(c, 11)
    ensures GrowEnd(lo, Pow2(11)) <= LIMIT
    ensures var (h, p, k) := GrowFor(InitHeap(lo), Pow2(11));
            && Inv(h) && TableOk(t, h) && IsFree(h, p, k) && k == 11
            && Buddy(p, k) == c && LooksFree(t, c, k) && !IsFree(h, c, k)
  {
    lo, c := 6144, 4096;
    BlockAtBreak();
    GlobalLog();
    FirstGrowth();
    hide LowLog, LowBit, Aligned, Buddy, Pow2, Inv, BlockLog, GrowEnd, GrowFor;
    HarmfulRegion(t, lo, c, 11);
  }

  lemma FirstGrowth()
    ensures GrowEnd(6144, Pow2(11)) == 8192
    ensures GrowFor(InitHeap(6144), Pow2(11)) == (Grow(InitHeap(6144)), 6144, 11)
    ensures Grow(InitHeap(6144)).blocks == map[6144 := Block(11, false)]
  {
    BlockAtBreak();
    hide LowLog, Pow2;
  }

  lemma GlobalLog()
    ensures BlockLog(1280) == 11
  {
    assert Pow2(10) == 1024 && Pow2(11) == 2048;
    hide Pow2, BlockLog;
    BlockLogLeast(1280, 10);
    BlockLogLeast(1280, 11);
  }

  lemma BlockAtBreak()
    ensures LowLog(6144) == 11 && LowBit(6144) == 2048 && Pow2(11) == 2048 && Aligned(6144, 4)
    ensures Aligned(4096, 11) && Buddy(4096, 11) == 6144 && Buddy(6144, 11) == 4096
  {
    assert LowLog(48) == 4 && LowLog(768) == 8;
    assert Pow2(8) == 256;
    SixteenTimes(384);
    SixteenTimes(1);
    AlignedDouble(16, 4);
    AlignedDouble(32, 5);
    AlignedDouble(64, 6);
    AlignedDouble(128, 7);
    AlignedDouble(256, 8);
    AlignedDouble(512, 9);
    AlignedDouble(1024, 10);
    AlignedDouble(2048, 11);
    HalvesAreBuddies(4096, 11);
  }
}
