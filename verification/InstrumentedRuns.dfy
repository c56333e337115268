/** Whole runs: for every number of steps of the source program, the
    instrumented program gets to a matching state. */
module InstrumentedRuns {
  import opened Bits
  import opened BoundsCheck
  import opened IR
  import opened Instrument
  import opened Simulation
  import opened Words

  /** The pieces bs are where control finds them. */
  ghost predicate Placed(g: seq<Block>, bs: seq<Block>) {
    forall b | b in bs :: Find(g, b.id) < |g| && g[Find(g, b.id)] == b
  }

  /** Control is behind pre, and code and the terminator are still to come. */
  ghost predicate At(g: seq<Block>, id: BlockId, pre: seq<Instr>, code: seq<Instr>, term: Terminator) {
    id.kind == Main && Checks(pre) == 0 && Placed(g, Expand(Block(id, pre + code, term)))
  }

  // ----------------------------------------------------------------------- running code

  /** Straight-line code runs as ExecAll says. */
  lemma {:induction false} RunCode(g: seq<Block>, t: seq<Byte>, s: MachineState, code: seq<Instr>) returns (n: nat)
    requires var i := Find(g, s.id);
             i < |g| && s.pc + |code| <= |g[i].body| && g[i].body[s.pc..s.pc + |code|] == code
    ensures match ExecAll(t, s.prev, s.regs, s.mem, code)
            case Ok(regs, mem) =>
              n == |code| && MachineRun(g, t, Live(s), n) == Live(MachineState(s.id, s.pc + |code|, s.prev, regs, mem))
            case Refused => MachineRun(g, t, Live(s), n) == Aborted
            case Trap => MachineRun(g, t, Live(s), n) == Trapped
            case Stuck => true
    decreases |code|
  {
    hide Exec, Find;
    n := 0;
    if code != [] {
      var body := g[Find(g, s.id)].body;
      assert body[s.pc] == code[0];
      assert body[s.pc + 1..s.pc + |code|] == code[1..];
      match Exec(t, s.prev, s.regs, s.mem, code[0]) {
        case Ok(regs, mem) =>
          var k := RunCode(g, t, MachineState(s.id, s.pc + 1, s.prev, regs, mem), code[1..]);
          n := 1 + k;
        case _ =>
          n := 1;
      }
    }
  }

  /** The first piece of a block starts with everything up to the first check. */
  lemma FirstPiece(id: BlockId, pre: seq<Instr>, code: seq<Instr>, term: Terminator)
    requires Checks(pre) == 0
    ensures var b := Expand(Block(id, pre + code, term))[0];
            b.id == id && |pre| <= |b.body| && b.body[..|pre|] == pre
  {
    var body := pre + code;
    NoChecks(pre);
    assert forall j | 0 <= j < |pre| :: body[j] == pre[j] && !NeedsCheck(pre[j]);
    assert body[..FirstCheck(body)][..|pre|] == pre;
  }

  lemma PlainRewrite(i: Instr)
    requires !NeedsCheck(i)
    ensures Checks(Rewrite(i)) == 0 && |Rewrite(i)| > 0
  {
    NoChecks(Rewrite(i));
  }

  /** Running code that has no check leaves control behind it. */
  lemma RunPlain(g: seq<Block>, t: seq<Byte>, s: MachineState, pre: seq<Instr>, c: seq<Instr>, rest: seq<Instr>,
                 term: Terminator) returns (n: nat)
    requires At(g, s.id, pre, c + rest, term) && s.pc == |pre| && Checks(c) == 0
    ensures At(g, s.id, pre + c, rest, term)
    ensures match ExecAll(t, s.prev, s.regs, s.mem, c)
            case Ok(regs, mem) =>
              n == |c| && MachineRun(g, t, Live(s), n) == Live(MachineState(s.id, |pre + c|, s.prev, regs, mem))
            case Refused => MachineRun(g, t, Live(s), n) == Aborted
            case Trap => MachineRun(g, t, Live(s), n) == Trapped
            case Stuck => true
  {
    hide Expand;
    ChecksSplit(pre, c);
    assert pre + (c + rest) == pre + c + rest;
    FirstPiece(s.id, pre + c, rest, term);
    var b := Expand(Block(s.id, pre + c + rest, term))[0];
    assert b in Expand(Block(s.id, pre + c + rest, term));
    assert b.body[|pre|..|pre| + |c|] == (pre + c)[|pre|..];
    n := RunCode(g, t, s, c);
  }

  // -------------------------------------------------------------------------- a check

  lemma FirstCheckAt(pre: seq<Instr>, x: Instr, rest: seq<Instr>)
    requires Checks(pre) == 0 && NeedsCheck(x)
    ensures FirstCheck(pre + ([x] + rest)) == |pre|
  {
    var body := pre + ([x] + rest);
    NoChecks(pre);
    assert forall j | 0 <= j < |pre| :: body[j] == pre[j] && !NeedsCheck(pre[j]);
    assert body[|pre|] == x;
  }

  lemma NoCheckYet()
    ensures Checks([]) == 0
  {
  }

  /** The four pieces around a check are in place. */
  lemma PiecesPlaced(g: seq<Block>, id: BlockId, pre: seq<Instr>, x: Instr, rest: seq<Instr>, term: Terminator)
    requires NeedsCheck(x) && At(g, id, pre, [x] + rest, term)
    ensures Placed(g, [Block(id, pre, Br(CheckId(id))), CheckBlock(id, x)]) && Placed(g, [SlowBlock(id, x)])
    ensures At(g, ResumeId(id), [], Choice(x, id) + rest, term)
  {
    hide Expand, CheckCode, Choice, FirstCheck, Checks;
    var b := Block(id, pre + ([x] + rest), term);
    NoCheckYet();
    FirstCheckAt(pre, x, rest);
    ExpandStep(b, |pre|);
    assert b.body[..|pre|] == pre && b.body[|pre|] == x && b.body[|pre| + 1..] == rest;
    assert [] + (Choice(x, id) + rest) == Resumed(b, |pre|).body;
    PlacedConcat(g, Pieces(b, |pre|), Expand(Resumed(b, |pre|)));
    assert Pieces(b, |pre|) == [Block(id, pre, Br(CheckId(id))), CheckBlock(id, x)] + [SlowBlock(id, x)];
    PlacedConcat(g, [Block(id, pre, Br(CheckId(id))), CheckBlock(id, x)], [SlowBlock(id, x)]);
  }

  lemma PlacedConcat(g: seq<Block>, bs: seq<Block>, cs: seq<Block>)
    requires Placed(g, bs + cs)
    ensures Placed(g, bs) && Placed(g, cs)
  {
    assert forall b | b in bs :: b in bs + cs;
    assert forall c | c in cs :: c in bs + cs;
  }

  /** One machine step at the end of a piece. */
  lemma RunTerm(g: seq<Block>, t: seq<Byte>, s: MachineState)
    requires Find(g, s.id) < |g| && s.pc == |g[Find(g, s.id)].body|
    ensures MachineRun(g, t, Live(s), 1) == MachineStep(g, t, s)
  {
    assert MachineRun(g, t, MachineStep(g, t, s), 0) == MachineStep(g, t, s);
  }

  /** Through the check: control goes where the fast path's test sends it. */
  lemma ReachVerdict(g: seq<Block>, t: seq<Byte>, s: MachineState, pre: seq<Instr>, x: Instr) returns (n: nat)
    requires s.pc == |pre| && NeedsCheck(x)
    requires Placed(g, [Block(s.id, pre, Br(CheckId(s.id))), CheckBlock(s.id, x)])
    ensures n > 0
    ensures match ExecAll(t, s.id, s.regs, s.mem, CheckCode(x))
            case Ok(r, mem) =>
              Temp(15) in r ==>
                MachineRun(g, t, Live(s), n) ==
                Live(MachineState(if r[Temp(15)] != 0 then ResumeId(s.id) else SlowId(s.id), 0, CheckId(s.id), r, mem))
            case Trap => MachineRun(g, t, Live(s), n) == Trapped
            case _ => true
  {
    hide CheckCode, ExecAll, Exec;
    var (b1, b2) := (Block(s.id, pre, Br(CheckId(s.id))), CheckBlock(s.id, x));
    assert b1 in [b1, b2] && b2 in [b1, b2];
    RunTerm(g, t, s);
    var s1 := MachineState(b2.id, 0, s.id, s.regs, s.mem);
    var k := RunCode(g, t, s1, CheckCode(x));
    RunAdd(g, t, Live(s), 1, k);
    n := 1 + k;
    match ExecAll(t, s.id, s.regs, s.mem, CheckCode(x))
    case Ok(r, mem) =>
      RunTerm(g, t, MachineState(b2.id, |CheckCode(x)|, s.id, r, mem));
      RunAdd(g, t, Live(s), n, 1);
      n := n + 1;
    case _ =>
  }

  /** Through the slow path. */
  lemma RunSlow(g: seq<Block>, t: seq<Byte>, id: BlockId, x: Instr, s: MachineState) returns (n: nat)
    requires NeedsCheck(x) && Placed(g, [SlowBlock(id, x)]) && s.id == SlowId(id) && s.pc == 0
    requires SlowBase(x) in s.regs && SlowTarget(x) in s.regs
    ensures match SlowPath(t, s.regs[SlowBase(x)], s.regs[SlowTarget(x)])
            case Ptr(w) =>
              MachineRun(g, t, Live(s), n) ==
              Live(MachineState(ResumeId(id), 0, SlowId(id), s.regs[Temp(16) := w], s.mem))
            case Abort => MachineRun(g, t, Live(s), n) == Aborted
  {
    hide SlowPath, SlowBase, SlowTarget;
    var slow := SlowBlock(id, x);
    assert slow in [slow];
    n := RunCode(g, t, s, slow.body);
    ExecOne(t, s.prev, s.regs, s.mem, slow.body[0]);
    match SlowPath(t, s.regs[SlowBase(x)], s.regs[SlowTarget(x)])
    case Abort =>
    case Ptr(w) =>
      RunTerm(g, t, MachineState(s.id, 1, s.prev, s.regs[Temp(16) := w], s.mem));
      RunAdd(g, t, Live(s), n, 1);
      n := n + 1;
  }

  /** From the end of the check to the resumed piece, directly or by the slow
      path, or to the end of the program. */
  lemma RunVerdict(g: seq<Block>, t: seq<Byte>, id: BlockId, x: Instr, s: MachineState, p: Word, q: Word)
    returns (n: nat, m: MachineState)
    requires NeedsCheck(x) && Placed(g, [SlowBlock(id, x)]) && s.pc == 0 && s.prev == CheckId(id)
    requires s.id == if FastTest(t, p, q) then ResumeId(id) else SlowId(id)
    requires SlowBase(x) in s.regs && s.regs[SlowBase(x)] == p && SlowTarget(x) in s.regs && s.regs[SlowTarget(x)] == q
    ensures match CheckedStep(t, p, q)
            case Ptr(w) =>
              && MachineRun(g, t, Live(s), n) == Live(m) && m.id == ResumeId(id) && m.pc == 0 && m.mem == s.mem
              && ((m.prev == CheckId(id) && m.regs == s.regs && w == q)
                  || (m.prev == SlowId(id) && m.regs == s.regs[Temp(16) := w]))
            case Abort => MachineRun(g, t, Live(s), n) == Aborted
  {
    hide FastTest, SlowPath, MachineStep, Placed, SlowBase, SlowTarget;
    n, m := 0, s;
    if !FastTest(t, p, q) {
      n := RunSlow(g, t, id, x, s);
      match SlowPath(t, p, q)
      case Abort =>
      case Ptr(w) => m := MachineState(ResumeId(id), 0, SlowId(id), s.regs[Temp(16) := w], s.mem);
    }
  }

  lemma IdsDiffer(id: BlockId)
    ensures CheckId(id) != SlowId(id)
  {
  }

  /** The choice picks the result of the piece control came from. */
  lemma RunChoice(g: seq<Block>, t: seq<Byte>, id: BlockId, x: Instr, rest: seq<Instr>, term: Terminator,
                  s: MachineState, q: Word) returns (n: nat)
    requires NeedsCheck(x) && x.Gep? && At(g, ResumeId(id), [], Choice(x, id) + rest, term)
    requires s.id == ResumeId(id) && s.pc == 0
    requires || (s.prev == CheckId(id) && Temp(11) in s.regs && s.regs[Temp(11)] == q)
             || (s.prev == SlowId(id) && Temp(16) in s.regs && s.regs[Temp(16)] == q)
    ensures At(g, s.id, Choice(x, id), rest, term)
    ensures MachineRun(g, t, Live(s), n) == Live(MachineState(s.id, 1, s.prev, s.regs[x.dst := q], s.mem))
  {
    hide At, CheckId, SlowId;
    IdsDiffer(id);
    var c := Choice(x, id);
    ChoiceUnchecked(x, id);
    n := RunPlain(g, t, s, [], c, rest, term);
    ExecOne(t, s.prev, s.regs, s.mem, c[0]);
    assert [] + c == c;
  }

  /** From an address computation through its check to the choice, or to the end
      of the program. */
  lemma RunCheck(g: seq<Block>, t: seq<Byte>, s: MachineState, pre: seq<Instr>, x: Instr, rest: seq<Instr>,
                 term: Terminator, rs: Regions, regs: map<Reg, Val>) returns (n: nat, r: map<Reg, Word>, prev: BlockId)
    requires At(g, s.id, pre, [x] + rest, term) && s.pc == |pre| && NeedsCheck(x) && x.Gep? && SourceInstr(x)
    requires RelRegs(rs, regs, s.regs) && x.base in s.regs && HasWord(s.regs, x.off)
    ensures n > 0
    ensures var (p, q) := (s.regs[x.base], ToWord(s.regs[x.base] + WordOf(s.regs, x.off)));
            match CheckedStep(t, p, q)
            case Ptr(w) =>
              && RelRegs(rs, regs, r) && At(g, ResumeId(s.id), Choice(x, s.id), rest, term)
              && MachineRun(g, t, Live(s), n) == Live(MachineState(ResumeId(s.id), 1, prev, r[x.dst := w], s.mem))
            case Abort => MachineRun(g, t, Live(s), n) == Aborted
  {
    hide At, Placed, GepCheck, ExecAll, FastTest, CheckedStep, MachineStep, RelRegs, ToWord, Choice;
    var (p, q) := (s.regs[x.base], ToWord(s.regs[x.base] + WordOf(s.regs, x.off)));
    r, prev := s.regs, CheckId(s.id);
    PiecesPlaced(g, s.id, pre, x, rest, term);
    CheckComputes(t, s.id, rs, regs, s.regs, s.mem, x);
    n := ReachVerdict(g, t, s, pre, x);
    var r1 := ExecAll(t, s.id, s.regs, s.mem, GepCheck(x)).regs;
    var s1 := MachineState(if r1[Temp(15)] != 0 then ResumeId(s.id) else SlowId(s.id), 0, CheckId(s.id), r1, s.mem);
    var k, m := RunVerdict(g, t, s.id, x, s1, p, q);
    RunAdd(g, t, Live(s), n, k);
    n := n + k;
    match CheckedStep(t, p, q)
    case Abort =>
    case Ptr(w) =>
      SlowTemp(rs, regs, r1, m.regs, w);
      r, prev := m.regs, m.prev;
      var j := RunChoice(g, t, s.id, x, rest, term, m, w);
      RunAdd(g, t, Live(s), n, j);
      n := n + j;
  }

  lemma SlowTemp(rs: Regions, regs: map<Reg, Val>, mregs: map<Reg, Word>, mregs': map<Reg, Word>, w: Word)
    requires RelRegs(rs, regs, mregs) && (mregs' == mregs || mregs' == mregs[Temp(16) := w])
    ensures RelRegs(rs, regs, mregs')
  {
  }

  /** A memset and its check: first the memset takes place, with n1 steps of the
      machine, and then the check decides whether the program goes on. */
  lemma RunMemSet(g: seq<Block>, t: seq<Byte>, s: MachineState, pre: seq<Instr>, x: Instr, rest: seq<Instr>,
                  term: Terminator, rs: Regions, regs: map<Reg, Val>)
    returns (n1: nat, m1: MachineState, n: nat, m: MachineState)
    requires At(g, s.id, pre, [x] + rest, term) && s.pc == |pre| && x.MemSet? && SourceInstr(x)
    requires RelRegs(rs, regs, s.regs) && x.ptr in s.regs && HasWord(s.regs, x.val) && HasWord(s.regs, x.len)
    ensures n >= n1 > 0
    ensures var (p, q) := (s.regs[x.ptr], ToWord(s.regs[x.ptr] + WordOf(s.regs, x.len)));
            match Exec(t, s.id, s.regs, s.mem, x)
            case Ok(_, mem) =>
              && MachineRun(g, t, Live(s), n1) == Live(m1) && m1.mem == mem
              && (match CheckedStep(t, p, q)
                  case Ptr(_) =>
                    && MachineRun(g, t, Live(s), n) == Live(m) && m.id == ResumeId(s.id) && m.pc == 0 && m.mem == mem
                    && RelRegs(rs, regs, m.regs) && At(g, m.id, [], rest, term)
                  case Abort => MachineRun(g, t, Live(s), n) == Aborted)
            case Trap => MachineRun(g, t, Live(s), n) == Trapped
            case _ => true
  {
    hide At, Placed, MemSetCheck, ExecAll, Exec, FastTest, CheckedStep, MachineStep, RelRegs, ToWord;
    var (p, q) := (s.regs[x.ptr], ToWord(s.regs[x.ptr] + WordOf(s.regs, x.len)));
    m1, m := s, s;
    PiecesPlaced(g, s.id, pre, x, rest, term);
    assert Choice(x, s.id) + rest == rest;
    MemSetComputes(t, s.id, rs, regs, s.regs, s.mem, x);
    n1 := ReachVerdict(g, t, s, pre, x);
    n := n1;
    match Exec(t, s.id, s.regs, s.mem, x)
    case Ok(_, mem) =>
      var r1 := ExecAll(t, s.id, s.regs, s.mem, MemSetCheck(x)).regs;
      m1 := MachineState(if r1[Temp(15)] != 0 then ResumeId(s.id) else SlowId(s.id), 0, CheckId(s.id), r1, mem);
      var k;
      k, m := RunVerdict(g, t, s.id, x, m1, p, q);
      RunAdd(g, t, Live(s), n1, k);
      n := n1 + k;
      match CheckedStep(t, p, q) {
        case Abort =>
        case Ptr(w) => SlowTemp(rs, regs, r1, m.regs, w);
      }
    case _ =>
  }

  // ---------------------------------------------------------------- pieces have own names

  ghost predicate DistinctIds(bs: seq<Block>) {
    forall i, j | 0 <= i < j < |bs| :: bs[i].id != bs[j].id
  }

  lemma {:induction false} FindDistinct(bs: seq<Block>, k: nat)
    requires DistinctIds(bs) && k < |bs|
    ensures Find(bs, bs[k].id) == k
  {
    if k > 0 {
      FindDistinct(bs[1..], k - 1);
      assert bs[1..][k - 1] == bs[k];
    }
  }

  /** The pieces of b that come before those of part n. */
  ghost predicate PartsFrom(bs: seq<Block>, block: nat, n: nat) {
    forall i | 0 <= i < |bs| :: bs[i].id.block == block && bs[i].id.part >= n
  }

  lemma PiecesIds(b: Block, i: nat)
    requires b.id.kind == Main && i < |b.body| && NeedsCheck(b.body[i])
    ensures PartsFrom(Pieces(b, i), b.id.block, b.id.part) && DistinctIds(Pieces(b, i))
    ensures forall j | 0 <= j < 3 :: Pieces(b, i)[j].id.part == b.id.part
  {
  }

  lemma DistinctConcat(bs: seq<Block>, cs: seq<Block>)
    requires DistinctIds(bs) && DistinctIds(cs)
    requires forall i, j | 0 <= i < |bs| && 0 <= j < |cs| :: bs[i].id != cs[j].id
    ensures DistinctIds(bs + cs)
  {
  }

  /** Pieces keep the number of their block, and later pieces have higher parts. */
  lemma {:induction false} ExpandIds(b: Block)
    requires b.id.kind == Main
    ensures PartsFrom(Expand(b), b.id.block, b.id.part) && DistinctIds(Expand(b))
    decreases Checks(b.body)
  {
    var i := FirstCheck(b.body);
    if i < |b.body| {
      ResumedChecks(b);
      ExpandStep(b, i);
      hide Expand, Pieces;
      ExpandIds(Resumed(b, i));
      PiecesIds(b, i);
      DistinctConcat(Pieces(b, i), Expand(Resumed(b, i)));
    }
  }

  /** Blocks of a function are numbered and not split yet. */
  ghost predicate Numbered(f: seq<Block>) {
    && (forall i | 0 <= i < |f| :: f[i].id == BlockId(f[i].id.block, 0, Main))
    && (forall i, j | 0 <= i < j < |f| :: f[i].id.block != f[j].id.block)
  }

  /** Every block comes from one of the function's. */
  ghost predicate FromBlocks(bs: seq<Block>, f: seq<Block>) {
    forall j | 0 <= j < |bs| :: exists i | 0 <= i < |f| :: bs[j].id.block == f[i].id.block
  }

  lemma {:induction false} ExpandAllIds(f: seq<Block>)
    requires Numbered(f)
    ensures DistinctIds(ExpandAll(f)) && FromBlocks(ExpandAll(f), f)
  {
    if f != [] {
      var first, rest := Expand(f[0]), ExpandAll(f[1..]);
      ExpandIds(f[0]);
      ExpandAllIds(f[1..]);
      hide Expand;
      forall j | 0 <= j < |rest| ensures exists i | 1 <= i < |f| :: rest[j].id.block == f[i].id.block {
        var i :| 0 <= i < |f[1..]| && rest[j].id.block == f[1..][i].id.block;
        assert rest[j].id.block == f[i + 1].id.block;
      }
      DistinctConcat(first, rest);
    }
  }

  lemma {:induction false} ExpandIn(f: seq<Block>, i: nat, c: Block)
    requires i < |f| && c in Expand(f[i])
    ensures c in ExpandAll(f)
  {
    if i > 0 {
      ExpandIn(f[1..], i - 1, c);
    }
  }

  /** In the instrumented function, every block of the source is at its place. */
  lemma BlockPlaced(f: seq<Block>, i: nat)
    requires Numbered(f) && i < |f|
    ensures At(Instrumented(f), f[i].id, [], RewriteAll(f[i].body), f[i].term)
  {
    var g := RewriteBlocks(f);
    assert Numbered(g);
    ExpandAllIds(g);
    var all := ExpandAll(g);
    assert [] + RewriteAll(f[i].body) == RewriteAll(f[i].body);
    assert g[i] == Block(f[i].id, [] + RewriteAll(f[i].body), f[i].term);
    forall b | b in Expand(g[i]) ensures Find(all, b.id) < |all| && all[Find(all, b.id)] == b {
      ExpandIn(g, i, b);
      var k :| 0 <= k < |all| && all[k] == b;
      FindDistinct(all, k);
    }
  }

  // ------------------------------------------------------------------------ simulation

  predicate SourceTerm(term: Terminator) {
    match term
    case Br(_) => true
    case CondBr(c, _, _) => c.User?
    case Ret(val) => UserOperand(val)
  }

  ghost predicate SourceFunction(f: seq<Block>) {
    && Numbered(f)
    && forall i | 0 <= i < |f| :: SourceTerm(f[i].term) && forall j | 0 <= j < |f[i].body| :: SourceInstr(f[i].body[j])
  }

  /** Values agree, and the machine has the rest of the source's block ahead. */
  ghost predicate Related(f: seq<Block>, rs: Regions, s: SourceState, m: MachineState) {
    && RelRegs(rs, s.regs, m.regs) && RelMem(rs, s.mem, m.mem)
    && (Find(f, s.id) < |f| ==>
          var b := f[Find(f, s.id)];
          s.pc <= |b.body| && exists pre: seq<Instr> ::
            |pre| == m.pc && At(Instrumented(f), m.id, pre, RewriteAll(b.body[s.pc..]), b.term))
  }

  /** The machine's place in its block. */
  lemma PlaceOf(f: seq<Block>, rs: Regions, s: SourceState, m: MachineState) returns (pre: seq<Instr>)
    requires Related(f, rs, s, m) && Find(f, s.id) < |f|
    ensures RelRegs(rs, s.regs, m.regs) && RelMem(rs, s.mem, m.mem)
    ensures var b := f[Find(f, s.id)];
            && s.pc <= |b.body| && |pre| == m.pc
            && At(Instrumented(f), m.id, pre, RewriteAll(b.body[s.pc..]), b.term)
  {
    hide At, RelRegs, RelMem, Instrumented, RewriteAll;
    var b := f[Find(f, s.id)];
    pre :| |pre| == m.pc && At(Instrumented(f), m.id, pre, RewriteAll(b.body[s.pc..]), b.term);
  }

  ghost predicate RelatedOutcome(f: seq<Block>, rs: Regions, o: SourceOutcome, mo: MachineOutcome) {
    match o
    case Running(s) => mo.Live? && Related(f, rs, s, mo.s)
    case Done(v) => mo.Returned? && RelVal(rs, v, mo.w)
    case PointerError => mo == Aborted
    case AccessError => mo == Trapped
    case NoMeaning => true
  }

  /** At the start of a block. */
  lemma EnterBlock(f: seq<Block>, rs: Regions, s: SourceState, m: MachineState)
    requires Numbered(f) && RelRegs(rs, s.regs, m.regs) && RelMem(rs, s.mem, m.mem)
    requires s.pc == m.pc == 0 && s.id == m.id
    ensures Related(f, rs, s, m)
  {
    var i := Find(f, s.id);
    if i < |f| {
      BlockPlaced(f, i);
      assert f[i].body[0..] == f[i].body;
      var pre: seq<Instr> := [];
      assert |pre| == m.pc;
    }
  }

  /** Instructions of a source program are source instructions. */
  lemma SourceBody(f: seq<Block>, s: SourceState)
    requires SourceFunction(f) && Find(f, s.id) < |f| && s.pc < |f[Find(f, s.id)].body|
    ensures SourceInstr(f[Find(f, s.id)].body[s.pc])
  {
  }

  /** A source instruction without a check. */
  lemma SimulatePlain(f: seq<Block>, rs: Regions, t: seq<Byte>, s: SourceState, m: MachineState, pre: seq<Instr>)
    returns (n: nat)
    requires SourceFunction(f) && RegionsFit(rs) && RelRegs(rs, s.regs, m.regs) && RelMem(rs, s.mem, m.mem)
    requires var i := Find(f, s.id);
             && i < |f| && s.pc < |f[i].body| && !NeedsCheck(f[i].body[s.pc])
             && |pre| == m.pc && At(Instrumented(f), m.id, pre, RewriteAll(f[i].body[s.pc..]), f[i].term)
    ensures RelatedOutcome(f, rs, SourceStep(f, rs, s), MachineRun(Instrumented(f), t, Live(m), n))
    ensures SourceStep(f, rs, s).Running? ==> n > 0
  {
    hide At, Instrumented, SourceExec, Exec, RelRegs, RelMem, RegionsFit, SourceFunction, Find, RewriteAll, Rewrite,
      MachineRun;
    var b := f[Find(f, s.id)];
    var x := b.body[s.pc];
    SourceBody(f, s);
    var rest := RewriteAll(b.body[s.pc + 1..]);
    RewriteRest(b.body, s.pc);
    PlainRewrite(x);
    n := RunPlain(Instrumented(f), t, m, pre, Rewrite(x), rest, b.term);
    AgreePlain(t, m.prev, rs, s.regs, s.mem, m.regs, m.mem, x);
  }

  lemma RewriteRest(body: seq<Instr>, k: nat)
    requires k < |body|
    ensures RewriteAll(body[k..]) == Rewrite(body[k]) + RewriteAll(body[k + 1..])
  {
    assert body[k..][1..] == body[k + 1..];
  }

  /** Checked pointer arithmetic computes what the source means. */
  lemma StepAgrees(t: seq<Byte>, rs: Regions, v: Val, w: Word, off: Word)
    requires RegionsOk(t, rs) && RelVal(rs, v, w) && v.Ref?
    ensures match Step(rs, v, off)
            case Good(u) => exists x: Word :: CheckedStep(t, w, ToWord(w + off)) == Ptr(x) && RelVal(rs, u, x)
            case Far => CheckedStep(t, w, ToWord(w + off)) == Abort
            case Bad => true
  {
    var (b, k, a, d) := (v.b, rs[v.b], v.a, ToSigned(off));
    RegionFacts(t, b, k);
    assert w == Encode(b, k, a);
    SameTarget(w, off);
    StepExact(t, b, k, a, d);
    if InWindow(b, k, a + d) {
      SeenExact(b, k, a, d);
      assert RelVal(rs, Ref(b, a + d), Encode(b, k, a + d));
    }
  }

  lemma SameTarget(w: Word, off: Word)
    ensures ToWord(w + off) == Moved(w, ToSigned(off))
  {
  }

  /** What the source does at an address computation that has a meaning. */
  lemma SourceAtCheck(f: seq<Block>, rs: Regions, s: SourceState)
    requires var i := Find(f, s.id);
             i < |f| && s.pc < |f[i].body| && NeedsCheck(f[i].body[s.pc]) && f[i].body[s.pc].Gep?
    requires SourceStep(f, rs, s) != NoMeaning
    ensures var x := f[Find(f, s.id)].body[s.pc];
            && x.base in s.regs && HasVal(s.regs, x.off) && ValOf(s.regs, x.off).Int? && s.regs[x.base].Ref?
            && match Step(rs, s.regs[x.base], ValOf(s.regs, x.off).w)
               case Good(v) => SourceStep(f, rs, s) == Running(SourceState(s.id, s.pc + 1, s.regs[x.dst := v], s.mem))
               case Far => SourceStep(f, rs, s) == PointerError
               case Bad => false
  {
  }

  lemma SimulateCheck(f: seq<Block>, rs: Regions, t: seq<Byte>, s: SourceState, m: MachineState, pre: seq<Instr>)
    returns (n: nat)
    requires SourceFunction(f) && RegionsOk(t, rs) && RelRegs(rs, s.regs, m.regs) && RelMem(rs, s.mem, m.mem)
    requires var i := Find(f, s.id);
             && i < |f| && s.pc < |f[i].body| && NeedsCheck(f[i].body[s.pc]) && f[i].body[s.pc].Gep?
             && |pre| == m.pc && At(Instrumented(f), m.id, pre, RewriteAll(f[i].body[s.pc..]), f[i].term)
    ensures RelatedOutcome(f, rs, SourceStep(f, rs, s), MachineRun(Instrumented(f), t, Live(m), n))
    ensures SourceStep(f, rs, s).Running? ==> n > 0
  {
    hide At, Instrumented, CheckedStep, SourceStep, Step, ToWord, RegionsOk, RelVal, Related, RelMem, RelRegs,
      SourceFunction, RewriteAll, Find, MachineRun;
    n := 0;
    var b := f[Find(f, s.id)];
    var x := b.body[s.pc];
    SourceBody(f, s);
    var rest := RewriteAll(b.body[s.pc + 1..]);
    RewriteRest(b.body, s.pc);
    if SourceStep(f, rs, s) != NoMeaning {
      SourceAtCheck(f, rs, s);
      RelOperand(rs, s.regs, m.regs, R(x.base));
      RelOperand(rs, s.regs, m.regs, x.off);
      IntWord(rs, ValOf(s.regs, x.off), WordOf(m.regs, x.off));
      var r, prev;
      n, r, prev := RunCheck(Instrumented(f), t, m, pre, x, rest, b.term, rs, s.regs);
      StepAgrees(t, rs, s.regs[x.base], m.regs[x.base], WordOf(m.regs, x.off));
      match Step(rs, s.regs[x.base], ValOf(s.regs, x.off).w) {
        case Good(v) =>
          var w := CheckedStep(t, m.regs[x.base], ToWord(m.regs[x.base] + WordOf(m.regs, x.off))).p;
          RelSet(rs, s.regs, r, x.dst, v, w);
          BehindCheck(f, rs, SourceState(s.id, s.pc + 1, s.regs[x.dst := v], s.mem),
                      MachineState(ResumeId(m.id), 1, prev, r[x.dst := w], m.mem), Choice(x, m.id));
        case Far =>
      }
    }
  }

  lemma FillAgrees(rs: Regions, mem: map<nat, Val>, mmem: map<nat, Word>, a: nat, n: nat, v: Val, w: Word)
    requires RelMem(rs, mem, mmem) && RelVal(rs, v, w)
    ensures RelMem(rs, Fill(mem, a, n, v), Fill(mmem, a, n, w))
  {
    hide RelVal, Fill;
    forall x: nat ensures x in Fill(mem, a, n, v).Keys <==> x in Fill(mmem, a, n, w).Keys {
      assert x in mem.Keys <==> x in mmem.Keys;
    }
  }

  /** The check of a memset decides as the source does. */
  lemma MemSetStep(t: seq<Byte>, rs: Regions, v: Val, w: Word, n: Word)
    requires RegionsOk(t, rs) && RelVal(rs, v, w) && v.Ref?
    ensures var (end, step) := (v.b + Pow2(rs[v.b]), CheckedStep(t, w, ToWord(w + n)));
            && (n == 0 || (!Strays(rs, v) && v.a + n < end + HALF_SLOT) ==> step.Ptr?)
            && (!Strays(rs, v) && end + HALF_SLOT <= v.a + n <= TABLE_START ==> step == Abort)
  {
    hide CheckedStep, Region, ToWord, ToSigned, Pow2, Aligned;
    StepAgrees(t, rs, v, w, n);
    RegionFacts(t, v.b, rs[v.b]);
    if n < MARK {
      ToSignedSmall(n);
    }
  }

  /** A memset that has a meaning, by itself and with its check. */
  lemma MemSetAgrees(t: seq<Byte>, prev: BlockId, rs: Regions, regs: map<Reg, Val>, mem: map<nat, Val>,
                     mregs: map<Reg, Word>, mmem: map<nat, Word>, x: Instr)
    requires RegionsOk(t, rs) && RelRegs(rs, regs, mregs) && RelMem(rs, mem, mmem) && x.MemSet? && SourceInstr(x)
    requires SourceExec(rs, regs, mem, x) != Undefined
    ensures x.ptr in regs && x.ptr in mregs && HasWord(mregs, x.val) && HasWord(mregs, x.len)
    ensures var (p, q) := (mregs[x.ptr], ToWord(mregs[x.ptr] + WordOf(mregs, x.len)));
            var r := Exec(t, prev, mregs, mmem, x);
            match SourceExec(rs, regs, mem, x)
            case Next(regs', mem') => regs' == regs && r.Ok? && RelMem(rs, mem', r.mem) && CheckedStep(t, p, q).Ptr?
            case LeftWindow => r.Ok? && CheckedStep(t, p, q) == Abort
            case BadAccess => r == Trap
            case Undefined => false
  {
    hide CheckedStep, RegionsOk, RelMem, ToWord, Fill;
    RegionsOkFit(t, rs);
    RelOperand(rs, regs, mregs, R(x.ptr));
    RelOperand(rs, regs, mregs, x.val);
    RelOperand(rs, regs, mregs, x.len);
    var (v, w, n) := (regs[x.ptr], mregs[x.ptr], WordOf(mregs, x.len));
    IntWord(rs, ValOf(regs, x.len), n);
    PointerWord(rs, v, w);
    MemSetStep(t, rs, v, w, n);
    if n != 0 && !Strays(rs, v) {
      FillAgrees(rs, mem, mmem, v.a, n, ValOf(regs, x.val), WordOf(mregs, x.val));
    }
  }

  lemma SimulateMemSet(f: seq<Block>, rs: Regions, t: seq<Byte>, s: SourceState, m: MachineState, pre: seq<Instr>)
    returns (n: nat)
    requires SourceFunction(f) && RegionsOk(t, rs) && RelRegs(rs, s.regs, m.regs) && RelMem(rs, s.mem, m.mem)
    requires var i := Find(f, s.id);
             && i < |f| && s.pc < |f[i].body| && f[i].body[s.pc].MemSet?
             && |pre| == m.pc && At(Instrumented(f), m.id, pre, RewriteAll(f[i].body[s.pc..]), f[i].term)
    ensures RelatedOutcome(f, rs, SourceStep(f, rs, s), MachineRun(Instrumented(f), t, Live(m), n))
    ensures SourceStep(f, rs, s).Running? ==> n > 0
  {
    hide At, Instrumented, CheckedStep, SourceExec, Exec, ToWord, RegionsOk, RelVal, Related, RelMem, RelRegs,
      SourceFunction, RewriteAll, Find, MachineRun, Expand;
    n := 0;
    var b := f[Find(f, s.id)];
    var x := b.body[s.pc];
    SourceBody(f, s);
    var rest := RewriteAll(b.body[s.pc + 1..]);
    RewriteRest(b.body, s.pc);
    if SourceExec(rs, s.regs, s.mem, x) != Undefined {
      MemSetAgrees(t, m.id, rs, s.regs, s.mem, m.regs, m.mem, x);
      var n1, m1, m2;
      n1, m1, n, m2 := RunMemSet(Instrumented(f), t, m, pre, x, rest, b.term, rs, s.regs);
      match SourceExec(rs, s.regs, s.mem, x) {
        case Next(regs, mem) => BehindCheck(f, rs, SourceState(s.id, s.pc + 1, regs, mem), m2, []);
        case _ =>
      }
    }
  }

  lemma BehindCheck(f: seq<Block>, rs: Regions, s: SourceState, m: MachineState, pre: seq<Instr>)
    requires RelRegs(rs, s.regs, m.regs) && RelMem(rs, s.mem, m.mem) && |pre| == m.pc
    requires var i := Find(f, s.id);
             i < |f| && s.pc <= |f[i].body| && At(Instrumented(f), m.id, pre, RewriteAll(f[i].body[s.pc..]), f[i].term)
    ensures Related(f, rs, s, m)
  {
  }

  lemma IntWord(rs: Regions, v: Val, w: Word)
    requires v.Int? && RelVal(rs, v, w)
    ensures v.w == w
  {
  }

  /** With no code left, control is at the end of the block's last piece. */
  lemma EndOfBlock(g: seq<Block>, id: BlockId, pre: seq<Instr>, rest: seq<Instr>, term: Terminator)
    requires rest == [] && At(g, id, pre, RewriteAll(rest), term)
    ensures var i := Find(g, id); i < |g| && g[i] == Block(id, pre, term)
  {
    assert pre + RewriteAll(rest) == pre;
    NoChecks(pre);
    var last := Block(id, pre, term);
    assert Expand(last) == [last];
    assert last in Expand(last);
  }

  lemma SourceEnd(f: seq<Block>, s: SourceState)
    requires SourceFunction(f) && Find(f, s.id) < |f|
    ensures SourceTerm(f[Find(f, s.id)].term) && Numbered(f)
  {
  }

  /** The end of a block. */
  lemma SimulateTerm(f: seq<Block>, rs: Regions, t: seq<Byte>, s: SourceState, m: MachineState, pre: seq<Instr>)
    requires SourceFunction(f) && RelRegs(rs, s.regs, m.regs) && RelMem(rs, s.mem, m.mem)
    requires var i := Find(f, s.id);
             && i < |f| && s.pc == |f[i].body|
             && |pre| == m.pc && At(Instrumented(f), m.id, pre, RewriteAll(f[i].body[s.pc..]), f[i].term)
    ensures RelatedOutcome(f, rs, SourceStep(f, rs, s), MachineRun(Instrumented(f), t, Live(m), 1))
  {
    hide Instrumented, Related, At, RelRegs, RelMem, MachineRun, Find, SourceFunction, RewriteAll;
    var g, b := Instrumented(f), f[Find(f, s.id)];
    EndOfBlock(g, m.id, pre, b.body[s.pc..], b.term);
    RunTerm(g, t, m);
    SourceEnd(f, s);
    match b.term {
      case Br(to) =>
        EnterBlock(f, rs, SourceState(to, 0, s.regs, s.mem), MachineState(to, 0, m.id, m.regs, m.mem));
      case CondBr(c, yes, no) =>
        if c in s.regs && s.regs[c].Int? {
          RelOperand(rs, s.regs, m.regs, R(c));
          var to := if s.regs[c].w != 0 then yes else no;
          EnterBlock(f, rs, SourceState(to, 0, s.regs, s.mem), MachineState(to, 0, m.id, m.regs, m.mem));
        }
      case Ret(val) =>
        if HasVal(s.regs, val) {
          RelOperand(rs, s.regs, m.regs, val);
        }
    }
  }

  /** One step of the source is matched by some steps of the machine. */
  lemma SimulateStep(f: seq<Block>, rs: Regions, t: seq<Byte>, s: SourceState, m: MachineState) returns (n: nat)
    requires SourceFunction(f) && RegionsOk(t, rs) && Related(f, rs, s, m)
    ensures RelatedOutcome(f, rs, SourceStep(f, rs, s), MachineRun(Instrumented(f), t, Live(m), n))
    ensures SourceStep(f, rs, s).Running? ==> n > 0
  {
    n := 0;
    var i := Find(f, s.id);
    RegionsOkFit(t, rs);
    if i < |f| {
      var b := f[i];
      var pre := PlaceOf(f, rs, s, m);
      if s.pc == |b.body| {
        SimulateTerm(f, rs, t, s, m, pre);
        n := 1;
      } else if b.body[s.pc].MemSet? {
        n := SimulateMemSet(f, rs, t, s, m, pre);
      } else if NeedsCheck(b.body[s.pc]) {
        n := SimulateCheck(f, rs, t, s, m, pre);
      } else {
        n := SimulatePlain(f, rs, t, s, m, pre);
      }
    }
  }

  /** Whole runs, of any length. */
  lemma {:induction false} Simulates(f: seq<Block>, rs: Regions, t: seq<Byte>, s: SourceState, m: MachineState, n: nat)
    returns (k: nat)
    requires SourceFunction(f) && RegionsOk(t, rs) && Related(f, rs, s, m)
    ensures RelatedOutcome(f, rs, SourceRun(f, rs, Running(s), n), MachineRun(Instrumented(f), t, Live(m), k))
    ensures SourceRun(f, rs, Running(s), n).Running? ==> k >= n
    decreases n
  {
    hide Related, Instrumented, SourceFunction, RegionsOk, SourceStep, MachineStep;
    if n == 0 {
      k := 0;
    } else {
      var g := Instrumented(f);
      var k1 := SimulateStep(f, rs, t, s, m);
      match SourceStep(f, rs, s) {
        case Running(s') =>
          var m' := MachineRun(g, t, Live(m), k1).s;
          var k2 := Simulates(f, rs, t, s', m', n - 1);
          RunAdd(g, t, Live(m), k1, k2);
          k := k1 + k2;
        case o =>
          k := k1;
      }
    }
  }

  /** However the machine stops, the source has stopped in the matching way: the
      machine refuses exactly when a pointer leaves its window, it traps exactly
      when a stray pointer is used, and it returns the source's result.  Only
      after something undefined may it end otherwise. */
  lemma EndsAlike(f: seq<Block>, rs: Regions, t: seq<Byte>, s: SourceState, m: MachineState, k: nat)
    requires SourceFunction(f) && RegionsOk(t, rs) && Related(f, rs, s, m)
    requires !MachineRun(Instrumented(f), t, Live(m), k).Live?
    ensures var o := SourceRun(f, rs, Running(s), k + 1);
            !o.Running? && RelatedOutcome(f, rs, o, MachineRun(Instrumented(f), t, Live(m), k))
  {
    hide Related, Instrumented, SourceFunction, RegionsOk, RelVal, SourceStep, MachineStep;
    var g := Instrumented(f);
    var j := Simulates(f, rs, t, s, m, k + 1);
    if j >= k {
      RunAdd(g, t, Live(m), k, j - k);
      FinalStays(g, t, MachineRun(g, t, Live(m), k), j - k);
    } else if SourceRun(f, rs, Running(s), k + 1) != NoMeaning {
      RunAdd(g, t, Live(m), j, k - j);
      FinalStays(g, t, MachineRun(g, t, Live(m), j), k - j);
    }
  }

  /** The program never does anything the source language leaves undefined. */
  ghost predicate Meaningful(f: seq<Block>, rs: Regions, s: SourceState) {
    forall n: nat :: SourceRun(f, rs, Running(s), n) != NoMeaning
  }

  /** The checks refuse a run iff some step of the source leaves a window. */
  lemma RefusedIffLeaves(f: seq<Block>, rs: Regions, t: seq<Byte>, s: SourceState, m: MachineState)
    requires SourceFunction(f) && RegionsOk(t, rs) && Related(f, rs, s, m) && Meaningful(f, rs, s)
    ensures (exists k: nat :: MachineRun(Instrumented(f), t, Live(m), k) == Aborted) <==>
            (exists n: nat :: SourceRun(f, rs, Running(s), n) == PointerError)
  {
    hide Related, Instrumented, SourceFunction, RegionsOk;
    if k: nat :| MachineRun(Instrumented(f), t, Live(m), k) == Aborted {
      EndsAlike(f, rs, t, s, m, k);
      assert SourceRun(f, rs, Running(s), k + 1) == PointerError;
    }
    if n: nat :| SourceRun(f, rs, Running(s), n) == PointerError {
      var k := Simulates(f, rs, t, s, m, n);
    }
  }

  /** A run traps iff the source uses a stray pointer: a dereference that does
      not trap is always inside the pointer's own block. */
  lemma TrapsIffStrayUsed(f: seq<Block>, rs: Regions, t: seq<Byte>, s: SourceState, m: MachineState)
    requires SourceFunction(f) && RegionsOk(t, rs) && Related(f, rs, s, m) && Meaningful(f, rs, s)
    ensures (exists k: nat :: MachineRun(Instrumented(f), t, Live(m), k) == Trapped) <==>
            (exists n: nat :: SourceRun(f, rs, Running(s), n) == AccessError)
  {
    hide Related, Instrumented, SourceFunction, RegionsOk;
    if k: nat :| MachineRun(Instrumented(f), t, Live(m), k) == Trapped {
      EndsAlike(f, rs, t, s, m, k);
      assert SourceRun(f, rs, Running(s), k + 1) == AccessError;
    }
    if n: nat :| SourceRun(f, rs, Running(s), n) == AccessError {
      var k := Simulates(f, rs, t, s, m, n);
    }
  }

  /** Wherever a matched run is about to load or store, the machine's next step
      traps iff the pointer is out of its own block, and otherwise reaches the
      pointer's address. */
  lemma UntrappedInside(f: seq<Block>, rs: Regions, t: seq<Byte>, s: SourceState, m: MachineState)
    requires SourceFunction(f) && RegionsOk(t, rs) && Related(f, rs, s, m)
    requires var i := Find(f, s.id);
             && i < |f| && s.pc < |f[i].body| && (f[i].body[s.pc].Load? || f[i].body[s.pc].Store?)
             && f[i].body[s.pc].ptr in s.regs && s.regs[f[i].body[s.pc].ptr].Ref?
    requires SourceStep(f, rs, s) != NoMeaning
    ensures var ptr := f[Find(f, s.id)].body[s.pc].ptr;
            var v := s.regs[ptr];
            && ptr in m.regs && v.b in rs
            && (MachineStep(Instrumented(f), t, m) == Trapped <==> !InBlock(v.b, rs[v.b], v.a))
            && (MachineStep(Instrumented(f), t, m).Live? <==> InBlock(v.b, rs[v.b], v.a))
            && (InBlock(v.b, rs[v.b], v.a) ==> m.regs[ptr] == v.a)
  {
    hide Instrumented, RegionsOk, RelMem, RelRegs, RegionsFit, At, Related, SourceFunction, Find, RewriteAll, Expand,
      Pow2;
    var b := f[Find(f, s.id)];
    var x := b.body[s.pc];
    SourceBody(f, s);
    var pre := PlaceOf(f, rs, s, m);
    RegionsOkFit(t, rs);
    RelOperand(rs, s.regs, m.regs, R(x.ptr));
    PointerWord(rs, s.regs[x.ptr], m.regs[x.ptr]);
    AgreeMemory(t, m.prev, rs, s.regs, s.mem, m.regs, m.mem, x);
    RewriteRest(b.body, s.pc);
    NextInstr(Instrumented(f), t, m, pre, x, RewriteAll(b.body[s.pc + 1..]), b.term);
  }

  /** The machine's next instruction. */
  lemma NextInstr(g: seq<Block>, t: seq<Byte>, m: MachineState, pre: seq<Instr>, x: Instr, rest: seq<Instr>,
                  term: Terminator)
    requires At(g, m.id, pre, [x] + rest, term) && m.pc == |pre| && !NeedsCheck(x)
    ensures MachineStep(g, t, m) ==
            match Exec(t, m.prev, m.regs, m.mem, x)
            case Ok(regs, mem) => Live(MachineState(m.id, m.pc + 1, m.prev, regs, mem))
            case Refused => Aborted
            case Trap => Trapped
            case Stuck => Wedged
  {
    hide Expand, Exec;
    assert pre + ([x] + rest) == pre + [x] + rest;
    ChecksSplit(pre, [x]);
    FirstPiece(m.id, pre + [x], rest, term);
    var b := Expand(Block(m.id, pre + [x] + rest, term))[0];
    assert b in Expand(Block(m.id, pre + [x] + rest, term));
    assert b.body[..|pre| + 1][|pre|] == x;
  }

  // --------------------------------------------------------------------------- memset

  /** A memset that the source calls out of its window. */
  lemma SourceAtMemSet(f: seq<Block>, rs: Regions, s: SourceState)
    requires var i := Find(f, s.id); i < |f| && s.pc < |f[i].body| && f[i].body[s.pc].MemSet?
    requires SourceStep(f, rs, s) == PointerError
    ensures var x := f[Find(f, s.id)].body[s.pc];
            && SourceExec(rs, s.regs, s.mem, x) == LeftWindow
            && x.ptr in s.regs && s.regs[x.ptr].Ref? && s.regs[x.ptr].b in rs && HasVal(s.regs, x.len)
            && ValOf(s.regs, x.len).Int? && IsPointer(s.regs[x.ptr]) && RefOk(rs, s.regs[x.ptr])
            && var (v, len) := (s.regs[x.ptr], ValOf(s.regs, x.len).w);
               !Strays(rs, v) && len > 0 && v.b + Pow2(rs[v.b]) + HALF_SLOT <= v.a + len
  {
  }

  /** The cells a memset of the machine writes. */
  lemma MemSetCells(t: seq<Byte>, prev: BlockId, rs: Regions, regs: map<Reg, Val>, mregs: map<Reg, Word>,
                    mmem: map<nat, Word>, x: Instr)
    requires RegionsFit(rs) && RelRegs(rs, regs, mregs) && x.MemSet? && x.ptr in regs && HasVal(regs, x.len)
    requires HasWord(mregs, x.val) && Exec(t, prev, mregs, mmem, x).Ok?
    requires regs[x.ptr].Ref? && ValOf(regs, x.len).Int? && IsPointer(regs[x.ptr]) && RefOk(rs, regs[x.ptr])
    requires !Strays(rs, regs[x.ptr]) && ValOf(regs, x.len).w > 0
    ensures forall a: nat | regs[x.ptr].a <= a < regs[x.ptr].a + ValOf(regs, x.len).w ::
              var mem' := Exec(t, prev, mregs, mmem, x).mem;
              a in mem' && mem'[a] == WordOf(mregs, x.val)
  {
    hide Fill;
    RelOperand(rs, regs, mregs, R(x.ptr));
    RelOperand(rs, regs, mregs, x.len);
    IntWord(rs, ValOf(regs, x.len), WordOf(mregs, x.len));
    PointerWord(rs, regs[x.ptr], mregs[x.ptr]);
  }

  /** The check of a memset comes too late: when it refuses, the memset has been
      carried out, cells behind the block included. */
  lemma MemSetWritesFirst(f: seq<Block>, rs: Regions, t: seq<Byte>, s: SourceState, m: MachineState)
    returns (n1: nat, m1: MachineState, n: nat)
    requires SourceFunction(f) && RegionsOk(t, rs) && Related(f, rs, s, m)
    requires var i := Find(f, s.id); i < |f| && s.pc < |f[i].body| && f[i].body[s.pc].MemSet?
    requires SourceStep(f, rs, s) == PointerError
    ensures n >= n1 && MachineRun(Instrumented(f), t, Live(m), n) == Aborted
    ensures MachineRun(Instrumented(f), t, Live(m), n1) == Live(m1)
    ensures var x := f[Find(f, s.id)].body[s.pc];
            && x.ptr in s.regs && s.regs[x.ptr].Ref? && s.regs[x.ptr].b in rs && HasVal(s.regs, x.len)
            && ValOf(s.regs, x.len).Int? && HasWord(m.regs, x.val)
            && var (v, len) := (s.regs[x.ptr], ValOf(s.regs, x.len).w);
               && v.b + Pow2(rs[v.b]) + HALF_SLOT <= v.a + len
               && forall a: nat | v.a <= a < v.a + len :: a in m1.mem && m1.mem[a] == WordOf(m.regs, x.val)
  {
    hide At, Instrumented, CheckedStep, RegionsOk, RelMem, RelRegs, RelVal, MachineStep, MachineRun, Exec, SourceExec,
      SourceStep, Strays, Pow2, ToWord, RewriteAll, Find, Related, SourceFunction;
    SourceAtMemSet(f, rs, s);
    var b := f[Find(f, s.id)];
    var x := b.body[s.pc];
    assert SourceInstr(x) by { SourceBody(f, s); }
    var pre := PlaceOf(f, rs, s, m);
    RewriteRest(b.body, s.pc);
    RegionsOkFit(t, rs);
    MemSetAgrees(t, m.id, rs, s.regs, s.mem, m.regs, m.mem, x);
    MemSetCells(t, m.id, rs, s.regs, m.regs, m.mem, x);
    var m2;
    n1, m1, n, m2 := RunMemSet(Instrumented(f), t, m, pre, x, RewriteAll(b.body[s.pc + 1..]), b.term, rs, s.regs);
    var (v, len) := (s.regs[x.ptr], ValOf(s.regs, x.len).w);
    var mem := Exec(t, m.id, m.regs, m.mem, x).mem;
    assert forall a: nat | v.a <= a < v.a + len :: a in mem && mem[a] == WordOf(m.regs, x.val);
    assert m1.mem == mem;
  }

  /** And it is not exact: a memset from inside a block passes iff it ends less
      than half a slot behind the block. */
  lemma MemSetPassesIff(t: seq<Byte>, b: nat, k: nat, a: nat, n: nat)
    requires Region(t, b, k) && InBlock(b, k, a) && a + n <= TABLE_START
    ensures CheckedStep(t, a, Moved(a, n)).Ptr? <==> a + n < b + Pow2(k) + HALF_SLOT
  {
    StepRightInside(t, b, k, a, n);
  }
}
