/** The compiler pass: it masks bit 31 where pointers become integers, and puts
    a bounds check around every address computation and every memset. */
module Instrument {
  import opened IR
  import opened Words

  // ------------------------------------------------------- first loop: casts, compares

  const CLEAR_TOP: Word := 0x7fff_ffff

  /** What replaces one instruction in the first loop. */
  function Rewrite(i: Instr): seq<Instr> {
    match i
    case PtrToInt(dst, src, bits) =>
      if bits >= 32 then [PtrToInt(Temp(0), src, bits), Bin(dst, And, R(Temp(0)), Imm(CLEAR_TOP))] else [i]
    case ICmp(dst, pred, pointers, a, c) =>
      if !IsEquality(pred) && pointers then
        [PtrToInt(Temp(0), a, 32), Bin(Temp(1), And, R(Temp(0)), Imm(CLEAR_TOP)),
         PtrToInt(Temp(2), c, 32), Bin(Temp(3), And, R(Temp(2)), Imm(CLEAR_TOP)),
         ICmp(dst, pred, false, R(Temp(1)), R(Temp(3)))]
      else [i]
    case _ => [i]
  }

  function RewriteAll(body: seq<Instr>): seq<Instr> {
    if body == [] then [] else Rewrite(body[0]) + RewriteAll(body[1..])
  }

  // ----------------------------------------- second loop: address computations, memsets

  /** The instructions that get a check. */
  predicate NeedsCheck(i: Instr) {
    (i.Gep? && !i.allZero) || i.MemSet?
  }

  function FirstCheck(body: seq<Instr>): (i: nat)
    ensures i <= |body| && (forall j | 0 <= j < i :: !NeedsCheck(body[j]))
    ensures i < |body| ==> NeedsCheck(body[i])
  {
    if body == [] || NeedsCheck(body[0]) then 0 else 1 + FirstCheck(body[1..])
  }

  /** The log of the block around the pointer in Temp(5).  The table address is
      itself computed by a gep. */
  const TABLE_CODE: seq<Instr> :=
    [Bin(Temp(6), LShr, R(Temp(5)), Imm(4)),
     Bin(Temp(7), Add, Imm(TABLE_START), Imm(0)),
     Gep(Temp(8), Temp(7), R(Temp(6)), false),
     LoadByte(Temp(9), Temp(8)),
     Bin(Temp(10), And, R(Temp(9)), Imm(0x1f))]

  /** The fast path around an address computation: table lookup at the base, the
      computation itself, and the comparison. */
  function GepCheck(g: Instr): seq<Instr>
    requires g.Gep?
  {
    [Gep(Temp(4), g.base, Imm(0), true),
     PtrToInt(Temp(5), R(Temp(4)), 32)]
    + TABLE_CODE +
    [Gep(Temp(11), g.base, g.off, g.allZero),
     PtrToInt(Temp(12), R(Temp(11)), 32),
     Bin(Temp(13), XorOp, R(Temp(5)), R(Temp(12))),
     Bin(Temp(14), AShrOp, R(Temp(13)), R(Temp(10))),
     ICmp(Temp(15), EQ, false, R(Temp(14)), Imm(0))]
  }

  /** The fast path around a memset compares its end with its start.  The memset
      itself comes before the comparison. */
  function MemSetCheck(x: Instr): seq<Instr>
    requires x.MemSet?
  {
    [PtrToInt(Temp(5), R(x.ptr), 32),
     Bin(Temp(12), Add, R(Temp(5)), x.len)]
    + TABLE_CODE +
    [Bin(Temp(13), XorOp, R(Temp(5)), R(Temp(12))),
     Bin(Temp(14), AShrOp, R(Temp(13)), R(Temp(10))),
     x,
     ICmp(Temp(15), EQ, false, R(Temp(14)), Imm(0))]
  }

  function CheckCode(x: Instr): seq<Instr>
    requires NeedsCheck(x)
  {
    if x.Gep? then GepCheck(x) else MemSetCheck(x)
  }

  /** The slow path gets the two pointers that the fast path has compared. */
  function SlowBase(x: Instr): Reg
    requires NeedsCheck(x)
  {
    if x.Gep? then Temp(4) else x.ptr
  }

  function SlowTarget(x: Instr): Reg
    requires NeedsCheck(x)
  {
    if x.Gep? then Temp(11) else Temp(12)
  }

  function CheckId(id: BlockId): BlockId {
    BlockId(id.block, id.part, Check)
  }

  function SlowId(id: BlockId): BlockId {
    BlockId(id.block, id.part, Slow)
  }

  function ResumeId(id: BlockId): BlockId {
    BlockId(id.block, id.part + 1, Main)
  }

  /** What takes the instruction's place behind the check: a choice between the
      two results of an address computation; nothing for a memset. */
  function Choice(x: Instr, id: BlockId): seq<Instr>
    requires NeedsCheck(x)
  {
    if x.Gep? then [Phi(x.dst, CheckId(id), Temp(11), SlowId(id), Temp(16))] else []
  }

  /** The block before the check, the check, the slow path, and what follows. */
  function Before(b: Block, i: nat): Block
    requires i < |b.body|
  {
    Block(b.id, b.body[..i], Br(CheckId(b.id)))
  }

  function CheckBlock(id: BlockId, x: Instr): Block
    requires NeedsCheck(x)
  {
    Block(CheckId(id), CheckCode(x), CondBr(Temp(15), ResumeId(id), SlowId(id)))
  }

  function SlowBlock(id: BlockId, x: Instr): Block
    requires NeedsCheck(x)
  {
    Block(SlowId(id), [CallSlowPath(Temp(16), SlowBase(x), SlowTarget(x))], Br(ResumeId(id)))
  }

  function Pieces(b: Block, i: nat): (bs: seq<Block>)
    requires i < |b.body| && NeedsCheck(b.body[i])
    ensures |bs| == 3
  {
    [Before(b, i), CheckBlock(b.id, b.body[i]), SlowBlock(b.id, b.body[i])]
  }

  function Resumed(b: Block, i: nat): Block
    requires i < |b.body| && NeedsCheck(b.body[i])
  {
    Block(ResumeId(b.id), Choice(b.body[i], b.id) + b.body[i + 1..], b.term)
  }

  function Checks(body: seq<Instr>): nat {
    if body == [] then 0 else (if NeedsCheck(body[0]) then 1 else 0) + Checks(body[1..])
  }

  lemma {:induction false} ChecksSplit(body: seq<Instr>, c: seq<Instr>)
    ensures Checks(body + c) == Checks(body) + Checks(c)
  {
    if body == [] {
      assert body + c == c;
    } else {
      assert (body + c)[1..] == body[1..] + c;
      ChecksSplit(body[1..], c);
    }
  }

  lemma {:induction false} NoChecks(body: seq<Instr>)
    ensures Checks(body) == 0 <==> FirstCheck(body) == |body|
  {
    if body != [] {
      NoChecks(body[1..]);
    }
  }

  lemma ChoiceUnchecked(x: Instr, id: BlockId)
    requires NeedsCheck(x)
    ensures Checks(Choice(x, id)) == 0
  {
  }

  lemma ResumedChecks(b: Block)
    requires FirstCheck(b.body) < |b.body|
    ensures Checks(Resumed(b, FirstCheck(b.body)).body) == Checks(b.body) - 1
  {
    var i := FirstCheck(b.body);
    ChecksSplit(Choice(b.body[i], b.id), b.body[i + 1..]);
    ChoiceUnchecked(b.body[i], b.id);
    assert b.body == b.body[..i] + ([b.body[i]] + b.body[i + 1..]);
    ChecksSplit(b.body[..i], [b.body[i]] + b.body[i + 1..]);
    ChecksSplit([b.body[i]], b.body[i + 1..]);
    NoChecksBefore(b.body, i);
  }

  lemma {:induction false} NoChecksBefore(body: seq<Instr>, i: nat)
    requires i <= |body| && forall j | 0 <= j < i :: !NeedsCheck(body[j])
    ensures Checks(body[..i]) == 0
  {
    if i > 0 {
      assert body[..i][1..] == body[1..][..i - 1];
      NoChecksBefore(body[1..], i - 1);
    }
  }

  /** What becomes of one block. */
  function Expand(b: Block): (bs: seq<Block>)
    ensures |bs| == 1 + 3 * Checks(b.body)
    decreases Checks(b.body)
  {
    var i := FirstCheck(b.body);
    if i == |b.body| then
      NoChecks(b.body);
      [b]
    else
      ResumedChecks(b);
      Pieces(b, i) + Expand(Resumed(b, i))
  }

  function ExpandAll(f: seq<Block>): seq<Block> {
    if f == [] then [] else Expand(f[0]) + ExpandAll(f[1..])
  }

  function RewriteBlocks(f: seq<Block>): (g: seq<Block>)
    ensures |g| == |f|
    ensures forall k | 0 <= k < |f| :: g[k] == f[k].(body := RewriteAll(f[k].body))
  {
    seq(|f|, k requires 0 <= k < |f| => f[k].(body := RewriteAll(f[k].body)))
  }

  /** The pass on a whole function. */
  function Instrumented(f: seq<Block>): seq<Block> {
    ExpandAll(RewriteBlocks(f))
  }

  // ----------------------------------------------------------------- the pass as it runs

  lemma {:induction false} RewriteAppend(a: seq<Instr>, c: seq<Instr>)
    ensures RewriteAll(a + c) == RewriteAll(a) + RewriteAll(c)
  {
    if a == [] {
      assert a + c == c;
    } else {
      assert (a + c)[1..] == a[1..] + c;
      RewriteAppend(a[1..], c);
    }
  }

  lemma {:induction false} ExpandAppend(f: seq<Block>, g: seq<Block>)
    ensures ExpandAll(f + g) == ExpandAll(f) + ExpandAll(g)
  {
    if f == [] {
      assert f + g == g;
    } else {
      assert (f + g)[1..] == f[1..] + g;
      ExpandAppend(f[1..], g);
    }
  }

  class Function {
    var blocks: seq<Block>

    constructor (blocks: seq<Block>)
      ensures this.blocks == blocks
    {
      this.blocks := blocks;
    }

    /** Split block bb at instruction i and put the check between the two halves. */
    method Split(bb: nat, i: nat)
      requires bb < |blocks| && i < |blocks[bb].body| && NeedsCheck(blocks[bb].body[i])
      modifies this
      ensures var b := old(blocks[bb]);
              blocks == old(blocks)[..bb] + Pieces(b, i) + [Resumed(b, i)] + old(blocks)[bb + 1..]
    {
      hide CheckBlock, SlowBlock;
      var b := blocks[bb];
      var x := b.body[i];
      // splitBasicBlock: the rest moves to a new block behind this one
      var after := Block(ResumeId(b.id), b.body[i..], b.term);
      blocks := blocks[..bb] + [Block(b.id, b.body[..i], Br(after.id)), after] + blocks[bb + 1..];
      if x.Gep? {
        // the computation is replaced by a choice between its two results
        after := after.(body := [Phi(x.dst, CheckId(b.id), Temp(11), SlowId(b.id), Temp(16))] + after.body[1..]);
      } else {
        // the memset is taken out
        after := after.(body := after.body[1..]);
      }
      blocks := blocks[bb + 1 := after];
      assert blocks == old(blocks)[..bb] + [Block(b.id, b.body[..i], Br(after.id)), after] + old(blocks)[bb + 1..];
      assert after == Resumed(b, i);
      // the two new blocks go in front of the rest
      blocks := blocks[..bb + 1] + [CheckBlock(b.id, x), SlowBlock(b.id, x)] + blocks[bb + 1..];
      blocks := blocks[bb := blocks[bb].(term := Br(CheckId(b.id)))];
      assert blocks == old(blocks)[..bb] + Pieces(b, i) + ([after] + old(blocks)[bb + 1..]);
    }

    /** The first loop: every block's instructions are replaced in place. */
    method MaskPointers()
      modifies this
      ensures blocks == RewriteBlocks(old(blocks))
    {
      var k := 0;
      while k < |blocks|
        invariant k <= |blocks| == |old(blocks)|
        invariant forall j | 0 <= j < k :: blocks[j] == RewriteBlocks(old(blocks))[j]
        invariant forall j | k <= j < |blocks| :: blocks[j] == old(blocks)[j]
      {
        var body := RewriteBody(blocks[k].body);
        blocks := blocks[k := blocks[k].(body := body)];
        k := k + 1;
      }
      assert blocks == RewriteBlocks(old(blocks));
    }

    /** The second loop: it steps over the check it has inserted and goes on
        behind it. */
    method InsertChecks()
      modifies this
      ensures blocks == ExpandAll(old(blocks))
    {
      hide Expand, ExpandAll, Before, CheckBlock, SlowBlock, Resumed, FirstCheck;
      var bb := 0;
      assert old(blocks)[0..] == old(blocks);
      while bb < |blocks|
        invariant bb <= |blocks|
        invariant blocks[..bb] + ExpandAll(blocks[bb..]) == ExpandAll(old(blocks))
        decreases |ExpandAll(blocks[bb..])|
      {
        ghost var before := blocks;
        ExpandHead(before, bb);
        var i := FindCheck(blocks[bb].body);
        if i < |blocks[bb].body| {
          Split(bb, i);
          ExpandSplit(before, blocks, bb, i);
          bb := bb + 2;
        } else {
          bb := bb + 1;
        }
      }
      ExpandNothing(blocks);
    }

    method RunOnFunction()
      modifies this
      ensures blocks == Instrumented(old(blocks))
    {
      MaskPointers();
      InsertChecks();
    }
  }

  lemma ExpandNothing(f: seq<Block>)
    ensures f[..|f|] + ExpandAll(f[|f|..]) == f
  {
  }

  /** The first loop on one instruction list.  What is inserted in front of the
      current instruction is not looked at again. */
  method RewriteBody(body0: seq<Instr>) returns (iList: seq<Instr>)
    ensures iList == RewriteAll(body0)
  {
    iList := body0;
    var i := 0;
    ghost var done := 0;
    while i < |iList|
      invariant done <= |body0| && i == |RewriteAll(body0[..done])| <= |iList|
      invariant iList[..i] == RewriteAll(body0[..done]) && iList[i..] == body0[done..]
      decreases |body0| - done
    {
      var replacement := Rewrite(iList[i]);
      RewriteNext(body0, done);
      assert iList[i] == iList[i..][0] && iList[i + 1..] == iList[i..][1..];
      iList := iList[..i] + replacement + iList[i + 1..];
      i := i + |replacement|;
      done := done + 1;
    }
    assert body0[..done] == body0;
  }

  lemma RewriteNext(body: seq<Instr>, k: nat)
    requires k < |body|
    ensures RewriteAll(body[..k + 1]) == RewriteAll(body[..k]) + Rewrite(body[k])
    ensures body[k..][0] == body[k] && body[k..][1..] == body[k + 1..]
  {
    assert body[..k + 1] == body[..k] + [body[k]];
    RewriteAppend(body[..k], [body[k]]);
    assert RewriteAll([body[k]]) == Rewrite(body[k]) + RewriteAll([]);
  }

  /** The scan of one block. */
  method FindCheck(body: seq<Instr>) returns (i: nat)
    ensures i == FirstCheck(body)
  {
    i := 0;
    while i < |body| && !NeedsCheck(body[i])
      invariant i <= |body| && FirstCheck(body) == i + FirstCheck(body[i..])
    {
      i := i + 1;
    }
  }

  lemma ExpandHead(f: seq<Block>, bb: nat)
    requires bb < |f|
    ensures ExpandAll(f[bb..]) == Expand(f[bb]) + ExpandAll(f[bb + 1..])
    ensures FirstCheck(f[bb].body) == |f[bb].body| ==>
              |Expand(f[bb])| == 1 && f[..bb] + ExpandAll(f[bb..]) == f[..bb + 1] + ExpandAll(f[bb + 1..])
  {
    NoChecks(f[bb].body);
    assert f[bb..][1..] == f[bb + 1..];
  }

  lemma ExpandSlow(id: BlockId, x: Instr)
    requires NeedsCheck(x)
    ensures Expand(SlowBlock(id, x)) == [SlowBlock(id, x)]
  {
    assert !NeedsCheck(SlowBlock(id, x).body[0]);
  }

  /** After a split, going on at the slow path leaves the same work to do. */
  lemma ExpandSplit(f: seq<Block>, g: seq<Block>, bb: nat, i: nat)
    requires bb < |f| && i == FirstCheck(f[bb].body) < |f[bb].body|
    requires g == f[..bb] + Pieces(f[bb], i) + [Resumed(f[bb], i)] + f[bb + 1..]
    ensures g[..bb + 2] + ExpandAll(g[bb + 2..]) == f[..bb] + ExpandAll(f[bb..])
    ensures |ExpandAll(g[bb + 2..])| < |ExpandAll(f[bb..])|
  {
    hide Before, CheckBlock, SlowBlock, Resumed, FirstCheck, ExpandAll;
    var b := f[bb];
    ExpandHead(f, bb);
    ExpandSlow(b.id, b.body[i]);
    var rest := [Resumed(b, i)] + f[bb + 1..];
    assert g[bb + 2..] == [SlowBlock(b.id, b.body[i])] + rest;
    ExpandCons(SlowBlock(b.id, b.body[i]), rest);
    ExpandCons(Resumed(b, i), f[bb + 1..]);
    ExpandStep(b, i);
    assert g[..bb + 2] == f[..bb] + [Before(b, i), CheckBlock(b.id, b.body[i])];
  }

  lemma ExpandCons(b: Block, rest: seq<Block>)
    ensures ExpandAll([b] + rest) == Expand(b) + ExpandAll(rest)
  {
    assert ([b] + rest)[1..] == rest;
  }

  lemma ExpandStep(b: Block, i: nat)
    requires i == FirstCheck(b.body) < |b.body|
    ensures Expand(b) == Pieces(b, i) + Expand(Resumed(b, i))
  {
    ResumedChecks(b);
  }

  // ------------------------------------------------------------------ what is preserved

  /** The resumed path: the code of the main pieces, one after the other. */
  function MainCode(bs: seq<Block>): seq<Instr> {
    if bs == [] then []
    else (if bs[0].id.kind == Main then bs[0].body else []) + MainCode(bs[1..])
  }

  /** The checks, one after the other. */
  function CheckBodies(bs: seq<Block>): seq<seq<Instr>> {
    if bs == [] then []
    else (if bs[0].id.kind == Check then [bs[0].body] else []) + CheckBodies(bs[1..])
  }

  /** A body with every address computation replaced by a choice of results, and
      without its memsets. */
  function WithChoices(body: seq<Instr>, id: BlockId): seq<Instr> {
    if body == [] then []
    else if NeedsCheck(body[0]) then Choice(body[0], id) + WithChoices(body[1..], ResumeId(id))
    else [body[0]] + WithChoices(body[1..], id)
  }

  function CheckCodes(body: seq<Instr>): seq<seq<Instr>> {
    if body == [] then []
    else (if NeedsCheck(body[0]) then [CheckCode(body[0])] else []) + CheckCodes(body[1..])
  }

  lemma {:induction false} ChoicesSplit(body: seq<Instr>, i: nat, id: BlockId)
    requires i == FirstCheck(body) < |body|
    ensures WithChoices(body, id) == body[..i] + WithChoices(body[i..], id)
    ensures CheckCodes(body) == [CheckCode(body[i])] + CheckCodes(body[i + 1..])
  {
    if i > 0 {
      ChoicesSplit(body[1..], i - 1, id);
      assert body[1..][i - 1..] == body[i..] && body[1..][i..] == body[i + 1..];
      assert body[..i] == [body[0]] + body[1..][..i - 1];
    } else {
      assert body[0..] == body;
    }
  }

  lemma {:induction false} ChoicesNone(body: seq<Instr>, id: BlockId)
    requires FirstCheck(body) == |body|
    ensures WithChoices(body, id) == body && CheckCodes(body) == []
  {
    if body != [] {
      ChoicesNone(body[1..], id);
    }
  }

  lemma ThreePieces(x: Block, y: Block, z: Block, rest: seq<Block>)
    requires x.id.kind == Main && y.id.kind == Check && z.id.kind == Slow
    ensures MainCode([x, y, z] + rest) == x.body + MainCode(rest)
    ensures CheckBodies([x, y, z] + rest) == [y.body] + CheckBodies(rest)
  {
    var b2, b1 := [z] + rest, [y] + ([z] + rest);
    assert b2[1..] == rest && b1[1..] == b2;
    assert [x, y, z] + rest == [x] + b1 && ([x] + b1)[1..] == b1;
    assert MainCode(b2) == MainCode(rest) && CheckBodies(b2) == CheckBodies(rest);
    assert MainCode(b1) == MainCode(b2) && CheckBodies(b1) == [y.body] + CheckBodies(b2);
  }

  lemma ChoiceFirst(b: Block, i: nat)
    requires i < |b.body| && NeedsCheck(b.body[i])
    ensures var (x, id) := (b.body[i], ResumeId(b.id));
            var c := Resumed(b, i).body;
            && WithChoices(c, id) == Choice(x, b.id) + WithChoices(b.body[i + 1..], id)
            && CheckCodes(c) == CheckCodes(b.body[i + 1..])
  {
    if b.body[i].Gep? {
      assert Resumed(b, i).body[1..] == b.body[i + 1..];
    } else {
      assert Resumed(b, i).body == b.body[i + 1..];
    }
  }

  lemma PreserveStep(b: Block, i: nat)
    requires b.id.kind == Main && i == FirstCheck(b.body) < |b.body|
    requires MainCode(Expand(Resumed(b, i))) == WithChoices(Resumed(b, i).body, ResumeId(b.id))
    requires CheckBodies(Expand(Resumed(b, i))) == CheckCodes(Resumed(b, i).body)
    ensures MainCode(Expand(b)) == WithChoices(b.body, b.id)
    ensures CheckBodies(Expand(b)) == CheckCodes(b.body)
  {
    hide Expand, CheckCode, MainCode, CheckBodies, CheckCodes;
    ExpandStep(b, i);
    ThreePieces(Before(b, i), CheckBlock(b.id, b.body[i]), SlowBlock(b.id, b.body[i]), Expand(Resumed(b, i)));
    ChoiceFirst(b, i);
    ChoicesSplit(b.body, i, b.id);
    assert b.body[i..][1..] == b.body[i + 1..];
  }

  /** Along the resumed path the instructions keep their order, each address
      computation standing once for its choice; and there is one check for each
      computation and each memset, with it inside, in the same order. */
  lemma {:induction false} ExpandPreserves(b: Block)
    requires b.id.kind == Main
    ensures MainCode(Expand(b)) == WithChoices(b.body, b.id)
    ensures CheckBodies(Expand(b)) == CheckCodes(b.body)
    decreases Checks(b.body)
  {
    var i := FirstCheck(b.body);
    if i == |b.body| {
      ChoicesNone(b.body, b.id);
      assert Expand(b)[1..] == [];
    } else {
      ResumedChecks(b);
      ExpandPreserves(Resumed(b, i));
      PreserveStep(b, i);
    }
  }
}
