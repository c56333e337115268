/** What a program can count on, told from its calls and their answers: which
    pointers it holds, what a load gives, and which regions stay known. */
module ProgramLaws {
  import opened Bits
  import opened BuddyHeap
  import opened FreeLists
  import opened HeapTheorems
  import opened Programs
  import opened Words

  // -------------------------------------------------------------- taking a run apart

  /** The program after the first i calls. */
  function StateAt(s: Program, ops: seq<Op>, i: nat): (r: Program)
    requires Sound(s) && LegalRun(s, ops) && i <= |ops|
    ensures Sound(r) && r.brk == s.brk
    decreases i
  {
    if i == 0 then s
    else
      ApplyOk(s, ops[0]);
      StateAt(Apply(s, ops[0]), ops[1..], i - 1)
  }

  lemma {:induction false} StateNext(s: Program, ops: seq<Op>, i: nat)
    requires Sound(s) && LegalRun(s, ops) && i < |ops|
    ensures var now := StateAt(s, ops, i);
            && Legal(now, ops[i]) && StateAt(s, ops, i + 1) == Apply(now, ops[i])
            && |Answers(s, ops)| == |ops| && Answers(s, ops)[i] == Answer(now, ops[i])
    decreases i
  {
    hide Sound, Legal, Apply, Answer;
    AnswerCount(s, ops);
    ApplyOk(s, ops[0]);
    if i > 0 {
      StateNext(Apply(s, ops[0]), ops[1..], i - 1);
    }
  }

  lemma {:induction false} AnswerCount(s: Program, ops: seq<Op>)
    requires Sound(s) && LegalRun(s, ops)
    ensures |Answers(s, ops)| == |ops|
    decreases |ops|
  {
    hide Sound, Legal, Apply, Answer;
    if ops != [] {
      ApplyOk(s, ops[0]);
      AnswerCount(Apply(s, ops[0]), ops[1..]);
    }
  }

  lemma {:induction false} StateLast(s: Program, ops: seq<Op>)
    requires Sound(s) && LegalRun(s, ops)
    ensures StateAt(s, ops, |ops|) == Run(s, ops)
    decreases |ops|
  {
    hide Sound, Legal, Apply;
    if ops != [] {
      ApplyOk(s, ops[0]);
      StateLast(Apply(s, ops[0]), ops[1..]);
    }
  }

  /** One more call behind the first i. */
  lemma {:induction false} OneMoreCall(s: Program, ops: seq<Op>, i: nat, op: Op)
    requires Sound(s) && LegalRun(s, ops) && i <= |ops|
    ensures LegalRun(s, ops[..i] + [op]) <==> Legal(StateAt(s, ops, i), op)
    ensures Legal(StateAt(s, ops, i), op) ==>
              |Answers(s, ops[..i] + [op])| == i + 1
              && Answers(s, ops[..i] + [op])[i] == Answer(StateAt(s, ops, i), op)
    decreases i
  {
    hide Sound, Legal, Apply, Answer;
    var all := ops[..i] + [op];
    if i == 0 {
      assert all == [op] && all[1..] == [];
      if Legal(s, op) {
        ApplyOk(s, op);
      }
    } else {
      ApplyOk(s, ops[0]);
      assert all[1..] == ops[1..][..i - 1] + [op];
      OneMoreCall(Apply(s, ops[0]), ops[1..], i - 1, op);
    }
  }

  // ------------------------------------------------------------ the pointers it holds

  predicate GivesBlock(op: Op) {
    op.MallocOp? || op.CallocOp? || op.ReallocOp?
  }

  /** The size class of a request. */
  function AskedFor(op: Op): nat
    requires GivesBlock(op)
  {
    match op
    case MallocOp(size) => BlockLog(size)
    case CallocOp(num, size) => BlockLog(num * size % SIZE_RANGE)
    case ReallocOp(_, size) => BlockLog(size)
  }

  /** The live blocks, as the program can keep the books on them itself: it adds
      what it is given and strikes what it gives back. */
  function Booked(live: map<nat, nat>, op: Op, answer: nat): map<nat, nat> {
    match op
    case MallocOp(_) => live[answer := AskedFor(op)]
    case CallocOp(_, _) => live[answer := AskedFor(op)]
    case FreeOp(p) => live - {p}
    case ReallocOp(p, _) => live[answer := AskedFor(op)] - {p}
    case _ => live
  }

  /** The books after the first i calls. */
  function Books(live: map<nat, nat>, ops: seq<Op>, answers: seq<nat>, i: nat): map<nat, nat>
    requires i <= |ops| == |answers|
  {
    if i == 0 then live else Booked(Books(live, ops, answers, i - 1), ops[i - 1], answers[i - 1])
  }

  lemma NullNotLive(s: Program)
    requires Sound(s)
    ensures 0 !in Live(s.heap)
  {
    assert 0 < s.heap.lo;
  }

  lemma ApplyLive(s: Program, op: Op)
    requires Sound(s) && Legal(s, op)
    ensures Live(Apply(s, op).heap) == Booked(Live(s.heap), op, Answer(s, op))
    ensures GivesBlock(op) ==> Answer(s, op) !in Live(s.heap)
  {
    SoundSizes(s);
    if op.ReallocOp? {
      ReallocLive(s, op.p, op.size);
    } else if op.FreeOp? {
      NullNotLive(s);
      FreeLive(s, op.p);
    } else {
      hide Sound, Inv, Coalesced, Malloc, CanMalloc, CanCopy, BlockLog, Live;
      if op.MallocOp? {
        MallocOk(s.heap, op.size);
      } else if op.CallocOp? {
        MallocOk(s.heap, Total(op.num, op.size));
      }
    }
  }

  lemma FreeLive(s: Program, p: nat)
    requires Sound(s) && Legal(s, FreeOp(p))
    ensures Live(Apply(s, FreeOp(p)).heap) == Live(s.heap) - {p}
  {
    NullNotLive(s);
    hide Inv, Coalesced, Free, Live;
    if p != 0 {
      FreeOk(s.heap, p);
    }
  }

  lemma ReallocLive(s: Program, p: nat, size: nat)
    requires Sound(s) && Legal(s, ReallocOp(p, size))
    ensures var q := Answer(s, ReallocOp(p, size));
            && q !in Live(s.heap)
            && Live(Apply(s, ReallocOp(p, size)).heap) == Live(s.heap)[q := BlockLog(size)] - {p}
  {
    hide Coalesced, Malloc, Free, CanMalloc, CanCopy, BlockLog, Live, Tiled, BinsOk;
    MallocOk(s.heap, size);
    if p != 0 {
      MallocKeeps(s.heap, size, p);
      FreeOk(Malloc(s.heap, size).0, p);
    } else {
      MallocSound(s, size);
      NullNotLive(s.(heap := Malloc(s.heap, size).0));
    }
  }

  /** The books are always right: the allocator's live blocks are exactly what the
      program has been given and has not given back. */
  lemma {:induction false} BooksRight(s: Program, ops: seq<Op>, i: nat)
    requires Sound(s) && LegalRun(s, ops) && i <= |ops|
    ensures |Answers(s, ops)| == |ops|
    ensures Live(StateAt(s, ops, i).heap) == Books(Live(s.heap), ops, Answers(s, ops), i)
    decreases i
  {
    hide Sound, Apply, Legal, Answer, Live, Booked;
    AnswerCount(s, ops);
    if i > 0 {
      BooksRight(s, ops, i - 1);
      StateNext(s, ops, i - 1);
      ApplyLive(StateAt(s, ops, i - 1), ops[i - 1]);
    }
  }

  /** What a call hands out lies above the globals, holds what was asked for, and
      overlaps nothing in the books. */
  lemma GivenApart(s: Program, ops: seq<Op>, i: nat)
    requires Sound(s) && LegalRun(s, ops) && i < |ops| && GivesBlock(ops[i])
    ensures |Answers(s, ops)| == |ops|
    ensures var (q, live) := (Answers(s, ops)[i], Books(Live(s.heap), ops, Answers(s, ops), i));
            var k := AskedFor(ops[i]);
            && s.brk <= q && Aligned(q, k) && q !in live
            && forall b | b in live :: q + Pow2(k) <= b || b + Pow2(live[b]) <= q
  {
    hide Sound, LegalRun, Apply, Legal, Answer, AskedFor, Live;
    BooksRight(s, ops, i);
    StateNext(s, ops, i);
    AnswerApart(StateAt(s, ops, i), ops[i]);
  }

  lemma AnswerApart(s: Program, op: Op)
    requires Sound(s) && Legal(s, op) && GivesBlock(op)
    ensures var (q, k) := (Answer(s, op), AskedFor(op));
            && s.brk <= q && Aligned(q, k) && q !in Live(s.heap)
            && forall b | b in Live(s.heap) :: q + Pow2(k) <= b || b + Pow2(Live(s.heap)[b]) <= q
  {
    HeapAbove(s.brk);
    ApplyLive(s, op);
    SoundSizes(s);
    var size := if op.CallocOp? then Total(op.num, op.size) else op.size;
    MallocFits(s.heap, size);
    forall b | b in Live(s.heap)
      ensures Answer(s, op) + Pow2(AskedFor(op)) <= b || b + Pow2(Live(s.heap)[b]) <= Answer(s, op)
    {
      MallocDisjoint(s.heap, size, b);
    }
  }

  // ------------------------------------------------------------------- what it reads

  /** A load of byte a behind the first i calls would be legal and give v. */
  ghost predicate Reads(s: Program, ops: seq<Op>, i: nat, a: nat, v: Byte)
    requires Sound(s) && LegalRun(s, ops) && i <= |ops|
  {
    var all := ops[..i] + [LoadOp(a)];
    LegalRun(s, all) && |Answers(s, all)| == i + 1 && Answers(s, all)[i] == v
  }

  /** Behind the first i calls, a is a global's byte or lies in the live block b. */
  ghost predicate BelongsTo(s: Program, ops: seq<Op>, i: nat, a: nat, b: nat)
    requires Sound(s) && LegalRun(s, ops) && i <= |ops|
  {
    AnswerCount(s, ops);
    var live := Books(Live(s.heap), ops, Answers(s, ops), i);
    a < s.brk || (b in live && b <= a < b + Pow2(live[b]))
  }

  /** None of the calls from i up to j stores to a or, unless a is a global's byte,
      gives block b back. */
  predicate Undisturbed(brk: nat, ops: seq<Op>, i: nat, j: nat, a: nat, b: nat) {
    forall x | i <= x < j && x < |ops| ::
      && !(ops[x].StoreOp? && ops[x].a == a)
      && (a < brk || !((ops[x].FreeOp? || ops[x].ReallocOp?) && ops[x].p == b))
  }

  lemma ReadsState(s: Program, ops: seq<Op>, i: nat, a: nat, v: Byte)
    requires Sound(s) && LegalRun(s, ops) && i <= |ops|
    ensures var now := StateAt(s, ops, i); Reads(s, ops, i, a, v) <==> a in now.bytes && now.bytes[a] == v
  {
    OneMoreCall(s, ops, i, LoadOp(a));
  }

  lemma BelongsState(s: Program, ops: seq<Op>, i: nat, a: nat, b: nat)
    requires Sound(s) && LegalRun(s, ops) && i <= |ops|
    ensures BelongsTo(s, ops, i, a, b) <==> ByteOfBlock(StateAt(s, ops, i), a, b)
  {
    hide Sound, Live;
    BooksRight(s, ops, i);
  }

  /** A load reads it. */
  lemma LoadReads(s: Program, ops: seq<Op>, j: nat, v: Byte)
    requires Sound(s) && LegalRun(s, ops) && j < |ops| && ops[j].LoadOp? && Reads(s, ops, j, ops[j].a, v)
    ensures |Answers(s, ops)| == |ops| && Answers(s, ops)[j] == v
  {
    hide Sound, LegalRun, Reads;
    ReadsState(s, ops, j, ops[j].a, v);
    StateNext(s, ops, j);
  }

  /** A store sets it. */
  lemma StoreReads(s: Program, ops: seq<Op>, i: nat)
    requires Sound(s) && LegalRun(s, ops) && i < |ops| && ops[i].StoreOp?
    ensures Reads(s, ops, i + 1, ops[i].a, ops[i].b)
  {
    hide Sound, LegalRun, Reads;
    StateNext(s, ops, i);
    ReadsState(s, ops, i + 1, ops[i].a, ops[i].b);
  }

  /** calloc sets it to zero, for as many bytes as the product has modulo 2^32. */
  lemma ClearReads(s: Program, ops: seq<Op>, i: nat, a: nat)
    requires Sound(s) && LegalRun(s, ops) && i < |ops| && ops[i].CallocOp?
    requires (AnswerCount(s, ops); Answers(s, ops)[i] <= a < Answers(s, ops)[i] + ops[i].num * ops[i].size % SIZE_RANGE)
    ensures Reads(s, ops, i + 1, a, 0)
  {
    hide Sound, LegalRun, Reads, Malloc;
    StateNext(s, ops, i);
    ReadsState(s, ops, i + 1, a, 0);
  }

  /** realloc takes it along, up to the size requested. */
  lemma CopyReads(s: Program, ops: seq<Op>, i: nat, a: nat, v: Byte)
    requires Sound(s) && LegalRun(s, ops) && i < |ops| && ops[i].ReallocOp? && ops[i].p != 0
    requires Reads(s, ops, i, a, v) && BelongsTo(s, ops, i, a, ops[i].p) && ops[i].p <= a < ops[i].p + ops[i].size
    ensures |Answers(s, ops)| == |ops| && Reads(s, ops, i + 1, Answers(s, ops)[i] + (a - ops[i].p), v)
  {
    hide Sound, LegalRun, Legal, Apply, Answer, Reads, BelongsTo;
    StateNext(s, ops, i);
    BelongsState(s, ops, i, a, ops[i].p);
    ReadsState(s, ops, i, a, v);
    ReadsState(s, ops, i + 1, Answers(s, ops)[i] + (a - ops[i].p), v);
    ReallocByte(StateAt(s, ops, i), ops[i].p, ops[i].size, a);
  }

  /** Byte a of block p moves along with the block. */
  lemma ReallocByte(s: Program, p: nat, size: nat, a: nat)
    requires Sound(s) && Legal(s, ReallocOp(p, size)) && p != 0 && p <= a < p + size && ByteOfBlock(s, a, p)
    ensures var (t, q) := (Apply(s, ReallocOp(p, size)), Answer(s, ReallocOp(p, size)));
            && ByteOfBlock(t, q + (a - p), q)
            && (a in s.bytes ==> q + (a - p) in t.bytes && t.bytes[q + (a - p)] == s.bytes[a])
  {
    hide *;
    ByteCopied(s, p, size, a);
    ReallocPlace(s, p, size, a - p);
    PlaceBelongs(Apply(s, ReallocOp(p, size)), Answer(s, ReallocOp(p, size)), a - p);
    ReallocMap(s, p, size, a - p);
  }

  lemma PlaceBelongs(s: Program, q: nat, i: nat)
    requires q in Live(s.heap) && i < Pow2(Live(s.heap)[q])
    ensures ByteOfBlock(s, q + i, q)
  {
  }

  lemma ByteCopied(s: Program, p: nat, size: nat, a: nat)
    requires Sound(s) && Legal(s, ReallocOp(p, size)) && p != 0 && p <= a < p + size && ByteOfBlock(s, a, p)
    ensures IsUsed(s.heap, p) && a - p < CopySize(s.heap, p, size)
  {
    UsedAboveGlobals(s, p);
  }

  lemma ReallocMap(s: Program, p: nat, size: nat, i: nat)
    requires Sound(s) && Legal(s, ReallocOp(p, size)) && p != 0 && i < CopySize(s.heap, p, size)
    ensures var (t, q) := (Apply(s, ReallocOp(p, size)), Answer(s, ReallocOp(p, size)));
            p + i in s.bytes ==> q + i in t.bytes && t.bytes[q + i] == s.bytes[p + i]
  {
    hide Sound, Malloc, Free, CopyBytes, Forgotten, CopySize, Pow2, Inv;
    var (kept, q) := (Forgotten(s.bytes, p, Pow2(s.heap.blocks[p].log)), Answer(s, ReallocOp(p, size)));
    if p + i in s.bytes {
      CopiedByte(s.bytes, kept, p, q, CopySize(s.heap, p, size), i);
    }
  }

  lemma CopiedByte(source: map<nat, Byte>, bytes: map<nat, Byte>, p: nat, q: nat, n: nat, i: nat)
    requires i < n && p + i in source
    ensures q + i in CopyBytes(source, bytes, p, q, n) && CopyBytes(source, bytes, p, q, n)[q + i] == source[p + i]
  {
    assert p + (q + i - q) == p + i;
  }

  /** Place i of the old block becomes place i of the new one. */
  lemma ReallocPlace(s: Program, p: nat, size: nat, i: nat)
    requires Sound(s) && Legal(s, ReallocOp(p, size)) && p != 0 && i < CopySize(s.heap, p, size)
    ensures var (live, q) := (Live(Apply(s, ReallocOp(p, size)).heap), Answer(s, ReallocOp(p, size)));
            q != p && q in live && i < Pow2(live[q])
  {
    ApplyLive(s, ReallocOp(p, size));
    CopyFitsIff(s.heap, p, size);
    hide Sound, Inv, Apply, Answer, CanMalloc, CanCopy, CopySize, Pow2, BlockLog;
    assert p in Live(s.heap);
  }

  lemma UsedAboveGlobals(s: Program, p: nat)
    requires Sound(s) && IsUsed(s.heap, p)
    ensures s.brk <= p
  {
    HeapAbove(s.brk);
    assert BlockOk(s.heap, p);
  }

  /** Nothing else changes it: whatever the program calls, a byte it does not store
      to, in a block it does not give back, reads as before. */
  lemma {:induction false} KeepReads(s: Program, ops: seq<Op>, i: nat, j: nat, a: nat, b: nat, v: Byte)
    requires Sound(s) && LegalRun(s, ops) && i <= j <= |ops|
    requires Reads(s, ops, i, a, v) && BelongsTo(s, ops, i, a, b) && Undisturbed(s.brk, ops, i, j, a, b)
    ensures Reads(s, ops, j, a, v) && BelongsTo(s, ops, j, a, b)
    decreases j - i
  {
    hide Sound, LegalRun, Legal, Apply, Answer, Reads, BelongsTo;
    if i < j {
      ReadsState(s, ops, i, a, v);
      BelongsState(s, ops, i, a, b);
      StateNext(s, ops, i);
      BlockStays(StateAt(s, ops, i), ops[i], a, b);
      ByteStays(StateAt(s, ops, i), ops[i], a, b);
      ReadsState(s, ops, i + 1, a, v);
      BelongsState(s, ops, i + 1, a, b);
      KeepReads(s, ops, i + 1, j, a, b, v);
    }
  }

  /** A global has its initial value at first. */
  lemma GlobalReads(brk: nat, globals: seq<Byte>, ops: seq<Op>, a: nat)
    requires a < |globals| == brk && HeapStart(brk) <= LIMIT
    requires (StartSound(brk, globals); LegalRun(Start(brk, globals), ops))
    ensures Sound(Start(brk, globals)) && Reads(Start(brk, globals), ops, 0, a, globals[a])
  {
    StartSound(brk, globals);
    hide Sound, LegalRun, Reads;
    ReadsState(Start(brk, globals), ops, 0, a, globals[a]);
  }

  /** Every byte a store is allowed for is a global's or in a block of the books. */
  lemma StoreBelongs(s: Program, ops: seq<Op>, i: nat) returns (b: nat)
    requires Sound(s) && LegalRun(s, ops) && i < |ops| && ops[i].StoreOp?
    ensures BelongsTo(s, ops, i, ops[i].a, b) && BelongsTo(s, ops, i + 1, ops[i].a, b)
  {
    hide Sound, LegalRun, BelongsTo;
    StateNext(s, ops, i);
    var (now, a) := (StateAt(s, ops, i), ops[i].a);
    b := 0;
    if a >= s.brk {
      b :| b in Live(now.heap) && b <= a < b + Pow2(Live(now.heap)[b]);
    }
    BelongsState(s, ops, i, a, b);
    BelongsState(s, ops, i + 1, a, b);
  }

  /** What is read, and left alone since, is what a load gives. */
  lemma ReadsLater(s: Program, ops: seq<Op>, i: nat, j: nat, a: nat, b: nat, v: Byte)
    requires Sound(s) && LegalRun(s, ops) && i <= j < |ops| && ops[j] == LoadOp(a)
    requires Reads(s, ops, i, a, v) && BelongsTo(s, ops, i, a, b) && Undisturbed(s.brk, ops, i, j, a, b)
    ensures |Answers(s, ops)| == |ops| && Answers(s, ops)[j] == v
  {
    hide Sound, LegalRun, Reads, BelongsTo, Undisturbed;
    KeepReads(s, ops, i, j, a, b, v);
    LoadReads(s, ops, j, v);
  }

  /** So a load gives what was stored last. */
  lemma StoredIsRead(s: Program, ops: seq<Op>, i: nat, j: nat, a: nat, v: Byte, b: nat)
    requires Sound(s) && LegalRun(s, ops) && i < j < |ops| && ops[i] == StoreOp(a, v) && ops[j] == LoadOp(a)
    requires BelongsTo(s, ops, i, a, b) && Undisturbed(s.brk, ops, i + 1, j, a, b)
    ensures |Answers(s, ops)| == |ops| && Answers(s, ops)[j] == v
  {
    hide Sound, LegalRun, Reads, BelongsTo;
    StoreReads(s, ops, i);
    BelongsAfter(s, ops, i, a, b);
    ReadsLater(s, ops, i + 1, j, a, b, v);
  }

  /** A call that does not give the block back leaves the byte in it. */
  lemma BelongsAfter(s: Program, ops: seq<Op>, i: nat, a: nat, b: nat)
    requires Sound(s) && LegalRun(s, ops) && i < |ops| && BelongsTo(s, ops, i, a, b)
    requires !ops[i].FreeOp? && !ops[i].ReallocOp?
    ensures BelongsTo(s, ops, i + 1, a, b)
  {
    hide Sound, LegalRun, Legal, Apply, Answer, BelongsTo;
    BelongsState(s, ops, i, a, b);
    StateNext(s, ops, i);
    BlockStays(StateAt(s, ops, i), ops[i], a, b);
    BelongsState(s, ops, i + 1, a, b);
  }

  /** Zero, if calloc has cleared it and nothing was stored since. */
  lemma ClearedIsRead(s: Program, ops: seq<Op>, i: nat, j: nat, a: nat)
    requires Sound(s) && LegalRun(s, ops) && i < j < |ops| && ops[i].CallocOp? && ops[j] == LoadOp(a)
    requires (AnswerCount(s, ops); Answers(s, ops)[i] <= a < Answers(s, ops)[i] + ops[i].num * ops[i].size % SIZE_RANGE)
    requires (AnswerCount(s, ops); Undisturbed(s.brk, ops, i + 1, j, a, Answers(s, ops)[i]))
    ensures |Answers(s, ops)| == |ops| && Answers(s, ops)[j] == 0
  {
    hide Sound, LegalRun, Reads, BelongsTo;
    AnswerCount(s, ops);
    var q := Answers(s, ops)[i];
    ClearReads(s, ops, i, a);
    ClearedBelongs(s, ops, i, a);
    ReadsLater(s, ops, i + 1, j, a, q, 0);
  }

  lemma ClearedBelongs(s: Program, ops: seq<Op>, i: nat, a: nat)
    requires Sound(s) && LegalRun(s, ops) && i < |ops| && ops[i].CallocOp?
    requires (AnswerCount(s, ops); Answers(s, ops)[i] <= a < Answers(s, ops)[i] + ops[i].num * ops[i].size % SIZE_RANGE)
    ensures |Answers(s, ops)| == |ops| && BelongsTo(s, ops, i + 1, a, Answers(s, ops)[i])
  {
    hide Sound, LegalRun, BlockLog;
    AnswerCount(s, ops);
    StateNext(s, ops, i);
    BlockHoldsRequest(ops[i].num * ops[i].size % SIZE_RANGE);
  }

  /** And what was stored last at the old place, if realloc has moved the block. */
  lemma CopiedIsRead(s: Program, ops: seq<Op>, i: nat, m: nat, j: nat, a: nat, v: Byte, b: nat)
    requires Sound(s) && LegalRun(s, ops) && i < m < j < |ops|
    requires ops[i] == StoreOp(a, v) && ops[m].ReallocOp? && ops[m].p == b != 0 && b <= a < b + ops[m].size
    requires BelongsTo(s, ops, i, a, b) && Undisturbed(s.brk, ops, i + 1, m, a, b)
    requires (AnswerCount(s, ops); var q := Answers(s, ops)[m];
              ops[j] == LoadOp(q + (a - b)) && Undisturbed(s.brk, ops, m + 1, j, q + (a - b), q))
    ensures |Answers(s, ops)| == |ops| && Answers(s, ops)[j] == v
  {
    hide *;
    AnswerCount(s, ops);
    var q := Answers(s, ops)[m];
    StoreReads(s, ops, i);
    BelongsAfter(s, ops, i, a, b);
    KeepReads(s, ops, i + 1, m, a, b, v);
    CopyReads(s, ops, m, a, v);
    CopiedBelongs(s, ops, m, a);
    ReadsLater(s, ops, m + 1, j, q + (a - b), q, v);
  }

  lemma CopiedBelongs(s: Program, ops: seq<Op>, i: nat, a: nat)
    requires Sound(s) && LegalRun(s, ops) && i < |ops| && ops[i].ReallocOp? && ops[i].p != 0
    requires BelongsTo(s, ops, i, a, ops[i].p) && ops[i].p <= a < ops[i].p + ops[i].size
    ensures |Answers(s, ops)| == |ops|
    ensures BelongsTo(s, ops, i + 1, Answers(s, ops)[i] + (a - ops[i].p), Answers(s, ops)[i])
  {
    hide Sound, LegalRun, Legal, Apply, Answer, BelongsTo;
    StateNext(s, ops, i);
    BelongsState(s, ops, i, a, ops[i].p);
    ReallocByte(StateAt(s, ops, i), ops[i].p, ops[i].size, a);
    BelongsState(s, ops, i + 1, Answers(s, ops)[i] + (a - ops[i].p), Answers(s, ops)[i]);
  }

  /** A global that is never stored to keeps its initial value. */
  lemma GlobalIsRead(brk: nat, globals: seq<Byte>, ops: seq<Op>, j: nat, a: nat)
    requires a < |globals| == brk && HeapStart(brk) <= LIMIT
    requires (StartSound(brk, globals); LegalRun(Start(brk, globals), ops))
    requires j < |ops| && ops[j] == LoadOp(a) && forall x | 0 <= x < j :: !(ops[x].StoreOp? && ops[x].a == a)
    ensures Sound(Start(brk, globals)) && |Answers(Start(brk, globals), ops)| == |ops|
    ensures Answers(Start(brk, globals), ops)[j] == globals[a]
  {
    hide Sound, LegalRun, Reads;
    StartSound(brk, globals);
    var s := Start(brk, globals);
    GlobalReads(brk, globals, ops, a);
    ReadsLater(s, ops, 0, j, a, 0, globals[a]);
  }

  // ------------------------------------------------------------------ what is known

  /** A region stays registered until one that overlaps it is. */
  lemma {:induction false} RegionStays(s: Program, ops: seq<Op>, i: nat, j: nat, c: nat, k: nat)
    requires Sound(s) && LegalRun(s, ops) && i < j <= |ops| && ops[i] == RegisterOp(c, k)
    requires forall x | i < x < j && ops[x].RegisterOp? ::
               ops[x].loc + Pow2(ops[x].lg) <= c || c + Pow2(k) <= ops[x].loc
    ensures c in StateAt(s, ops, j).regions && StateAt(s, ops, j).regions[c] == k
    decreases j
  {
    hide Sound, LegalRun, Inv, Coalesced, Malloc, Free;
    StateNext(s, ops, j - 1);
    if i < j - 1 {
      RegionStays(s, ops, i, j - 1, c, k);
    }
  }
}
