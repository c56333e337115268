/** The instrumented program does what the source program means, until a
    pointer leaves its window; then it stops. */
module Simulation {
  import opened Bits
  import opened BoundsCheck
  import opened IR
  import opened Instrument
  import opened Words

  // --------------------------------------------------------------- related values

  /** The word that stands for a value: a pointer out of its block is marked. */
  function WordFor(rs: Regions, v: Val): int
    requires RefOk(rs, v)
  {
    match v
    case Int(w) => w
    case Ref(b, a) => if InBlock(b, rs[b], a) then a else a + MARK
  }

  ghost predicate RelVal(rs: Regions, v: Val, w: Word) {
    RefOk(rs, v) && w == WordFor(rs, v)
  }

  ghost predicate RelRegs(rs: Regions, regs: map<Reg, Val>, mregs: map<Reg, Word>) {
    forall r | r in regs :: r.User? && r in mregs && RelVal(rs, regs[r], mregs[r])
  }

  ghost predicate RelMem(rs: Regions, mem: map<nat, Val>, mmem: map<nat, Word>) {
    mem.Keys == mmem.Keys && forall a | a in mem :: RelVal(rs, mem[a], mmem[a])
  }

  predicate UserOperand(o: Operand) {
    o.R? ==> o.reg.User?
  }

  /** What source programs are made of.  Casts to more than 32 bits are not: the
      pass would combine the wide integer with a 32-bit mask. */
  predicate SourceInstr(i: Instr) {
    match i
    case AddressOf(dst, _) => dst.User?
    case Bin(dst, _, a, c) => dst.User? && UserOperand(a) && UserOperand(c)
    case Gep(dst, base, off, _) => dst.User? && base.User? && UserOperand(off)
    case PtrToInt(dst, src, bits) => dst.User? && UserOperand(src) && bits <= 32
    case ICmp(dst, _, _, a, c) => dst.User? && UserOperand(a) && UserOperand(c)
    case Load(dst, ptr) => dst.User? && ptr.User?
    case Store(ptr, val) => ptr.User? && UserOperand(val)
    case MemSet(ptr, val, len) => ptr.User? && UserOperand(val) && UserOperand(len)
    case LoadByte(_, _) => false
    case CallSlowPath(_, _, _) => false
    case Phi(_, _, _, _, _) => false
  }

  lemma RelOperand(rs: Regions, regs: map<Reg, Val>, mregs: map<Reg, Word>, o: Operand)
    requires RelRegs(rs, regs, mregs) && HasVal(regs, o)
    ensures HasWord(mregs, o) && RelVal(rs, ValOf(regs, o), WordOf(mregs, o))
  {
  }

  lemma RelSet(rs: Regions, regs: map<Reg, Val>, mregs: map<Reg, Word>, dst: Reg, v: Val, w: Word)
    requires RelRegs(rs, regs, mregs) && dst.User? && RelVal(rs, v, w)
    ensures RelRegs(rs, regs[dst := v], mregs[dst := w])
  {
  }

  /** Temporaries do not matter. */
  lemma RelTemp(rs: Regions, regs: map<Reg, Val>, mregs: map<Reg, Word>, dst: Reg, w: Word)
    requires RelRegs(rs, regs, mregs) && dst.Temp?
    ensures RelRegs(rs, regs, mregs[dst := w])
  {
  }

  /** Straight-line machine code. */
  function ExecAll(t: seq<Byte>, prev: BlockId, regs: map<Reg, Word>, mem: map<nat, Word>, code: seq<Instr>)
    : MachineResult
    decreases |code|
  {
    if code == [] then Ok(regs, mem)
    else
      match Exec(t, prev, regs, mem, code[0])
      case Ok(regs', mem') => ExecAll(t, prev, regs', mem', code[1..])
      case Refused => Refused
      case Trap => Trap
      case Stuck => Stuck
  }

  // ------------------------------------------------------------------ bit masks in words

  lemma {:induction false} AndLow(a: nat, k: nat)
    ensures AndBits(a, Pow2(k) - 1) + Floor(a, k) == a
  {
    if k == 0 {
      assert AndBits(a, 0) == 0;
    } else if a == 0 {
      AndLow(0, k - 1);
    } else {
      AndLow(a / 2, k - 1);
      var m := Pow2(k - 1) - 1;
      assert Pow2(k) - 1 == 2 * m + 1;
      assert (2 * m + 1) / 2 == m && (2 * m + 1) % 2 == 1;
      assert AndBits(a, 2 * m + 1) == a % 2 + 2 * AndBits(a / 2, m);
      assert Floor(a, k) == 2 * Floor(a / 2, k - 1);
    }
  }

  /** Masking with 0x1f keeps the low five bits. */
  lemma MaskSize(x: Word)
    ensures AndWord(x, 0x1f) == x % 32
  {
    assert Pow2(5) == 32;
    AndLow(x, 5);
    var q := x / 32;
    SixteenTimes(2 * q);
    AlignedDouble(16 * q, 4);
    SixteenTimes(q);
    FloorUnique(32 * q, x, 5);
  }

  /** Masking with 0x7fffffff clears bit 31. */
  lemma MaskTop(x: Word)
    ensures AndWord(x, CLEAR_TOP) == x % MARK
  {
    Pow2Values();
    AndLow(x, 31);
    TopAligned();
    FloorUnique(if x < MARK then 0 else MARK, x, 31);
  }

  lemma TopAligned()
    ensures Aligned(0, 31) && Aligned(MARK, 31)
  {
    AlignedZero(31);
    Pow2Values();
    AlignedAdd(0, 31);
  }

  lemma {:induction false} AlignedZero(k: nat)
    ensures Aligned(0, k)
  {
    if k != 0 {
      AlignedZero(k - 1);
    }
  }

  lemma {:induction false} FloorAdd(a: nat, j: nat, k: nat)
    requires k <= j
    ensures Floor(a + Pow2(j), k) == Floor(a, k) + Pow2(j)
  {
    if k != 0 {
      var m := Pow2(j - 1);
      assert Pow2(j) == 2 * m;
      HalfOfSum(a, m);
      FloorAdd(a / 2, j - 1, k - 1);
      assert Floor(a + Pow2(j), k) == 2 * Floor(a / 2 + m, k - 1);
      assert Floor(a, k) == 2 * Floor(a / 2, k - 1);
    }
  }

  /** Fewer than 32 bits do not see the mark. */
  lemma TruncateMark(a: nat, bits: nat)
    requires a < MARK && bits < 32
    ensures Truncate(a + MARK, bits) == Truncate(a, bits)
  {
    Pow2Values();
    FloorAdd(a, 31, bits);
  }

  // ------------------------------------------------------------- pointers as integers

  ghost predicate RegionsFit(rs: Regions) {
    forall b | b in rs :: 4 <= rs[b] <= 30 && Aligned(b, rs[b]) && 16 <= b && b + Pow2(rs[b]) <= TABLE_START
  }

  lemma RegionsOkFit(t: seq<Byte>, rs: Regions)
    requires RegionsOk(t, rs)
    ensures RegionsFit(rs)
  {
    forall b | b in rs
      ensures 4 <= rs[b] <= 30 && Aligned(b, rs[b]) && 16 <= b && b + Pow2(rs[b]) <= TABLE_START
    {
      RegionFacts(t, b, rs[b]);
    }
  }

  /** A pointer's word is its address, plus the mark if it strays. */
  lemma PointerWord(rs: Regions, v: Val, w: Word)
    requires RegionsFit(rs) && IsPointer(v) && RelVal(rs, v, w)
    ensures 0 <= AddressIn(v) < MARK && w % MARK == AddressIn(v)
    ensures w == AddressIn(v) + if Strays(rs, v) then MARK else 0
  {
  }

  /** Equality of the words is equality of the addresses, exactly unless one
      pointer strays to an address that the other has inside its block. */
  lemma EqualityIff(rs: Regions, v: Val, w: Val, x: Word, y: Word)
    requires RegionsFit(rs) && IsPointer(v) && IsPointer(w) && RelVal(rs, v, x) && RelVal(rs, w, y)
    ensures ((x == y) <==> (AddressIn(v) == AddressIn(w))) <==>
            !(AddressIn(v) == AddressIn(w) && Strays(rs, v) != Strays(rs, w))
  {
    PointerWord(rs, v, x);
    PointerWord(rs, w, y);
  }

  /** The exception exists wherever one block follows another: one past the end
      of the first and the start of the second are one address and two words. */
  lemma EqualityFails(rs: Regions, b: nat)
    requires RegionsFit(rs) && b in rs && b + Pow2(rs[b]) in rs
    ensures var c := b + Pow2(rs[b]);
            var (v, w) := (Ref(b, c), Ref(c, c));
            && RefOk(rs, v) && RefOk(rs, w) && AddressIn(v) == AddressIn(w)
            && WordFor(rs, v) != WordFor(rs, w)
  {
  }

  /** Pointers into one block never meet that exception. */
  lemma EqualitySameBlock(rs: Regions, v: Val, w: Val, x: Word, y: Word)
    requires RegionsFit(rs) && v.Ref? && w.Ref? && v.b == w.b && RelVal(rs, v, x) && RelVal(rs, w, y)
    ensures x == y <==> v.a == w.a
  {
    EqualityIff(rs, v, w, x, y);
  }

  // -------------------------------------------------------------- straight-line code

  lemma ExecOne(t: seq<Byte>, prev: BlockId, regs: map<Reg, Word>, mem: map<nat, Word>, i: Instr)
    ensures ExecAll(t, prev, regs, mem, [i]) == Exec(t, prev, regs, mem, i)
  {
  }

  lemma ExecTwo(t: seq<Byte>, prev: BlockId, regs: map<Reg, Word>, mem: map<nat, Word>, i: Instr, j: Instr,
                regs1: map<Reg, Word>)
    requires Exec(t, prev, regs, mem, i) == Ok(regs1, mem)
    ensures ExecAll(t, prev, regs, mem, [i, j]) == Exec(t, prev, regs1, mem, j)
  {
    assert [i, j][1..] == [j];
    ExecOne(t, prev, regs1, mem, j);
  }

  lemma {:induction false} ExecConcat(t: seq<Byte>, prev: BlockId, regs: map<Reg, Word>, mem: map<nat, Word>,
                   c: seq<Instr>, d: seq<Instr>)
    ensures ExecAll(t, prev, regs, mem, c + d) ==
            match ExecAll(t, prev, regs, mem, c)
            case Ok(r, m) => ExecAll(t, prev, r, m, d)
            case x => x
    decreases |c|
  {
    if c == [] {
      assert c + d == d;
    } else {
      assert (c + d)[1..] == c[1..] + d;
      match Exec(t, prev, regs, mem, c[0])
      case Ok(r, m) => ExecConcat(t, prev, r, m, c[1..], d);
      case _ =>
    }
  }

  lemma ExecTruncate(t: seq<Byte>, prev: BlockId, regs: map<Reg, Word>, mem: map<nat, Word>, i: Instr)
    requires i.PtrToInt? && HasWord(regs, i.src)
    ensures Exec(t, prev, regs, mem, i) == Ok(regs[i.dst := Truncate(WordOf(regs, i.src), i.bits)], mem)
  {
  }

  lemma ExecBin(t: seq<Byte>, prev: BlockId, regs: map<Reg, Word>, mem: map<nat, Word>, dst: Reg, op: Op,
                a: Operand, c: Operand)
    requires HasWord(regs, a) && HasWord(regs, c)
    ensures Exec(t, prev, regs, mem, Bin(dst, op, a, c)) ==
            Ok(regs[dst := BinWord(op, WordOf(regs, a), WordOf(regs, c))], mem)
  {
  }

  lemma ExecGep(t: seq<Byte>, prev: BlockId, regs: map<Reg, Word>, mem: map<nat, Word>, dst: Reg, base: Reg,
                off: Operand, allZero: bool)
    requires base in regs && HasWord(regs, off)
    ensures Exec(t, prev, regs, mem, Gep(dst, base, off, allZero)) ==
            Ok(regs[dst := if allZero then regs[base] else ToWord(regs[base] + WordOf(regs, off))], mem)
  {
  }

  lemma ExecCast(t: seq<Byte>, prev: BlockId, regs: map<Reg, Word>, mem: map<nat, Word>, dst: Reg, src: Operand)
    requires HasWord(regs, src)
    ensures Exec(t, prev, regs, mem, PtrToInt(dst, src, 32)) == Ok(regs[dst := WordOf(regs, src)], mem)
  {
  }

  lemma ExecLoadByte(t: seq<Byte>, prev: BlockId, regs: map<Reg, Word>, mem: map<nat, Word>, dst: Reg, addr: Reg)
    requires addr in regs
    ensures Exec(t, prev, regs, mem, LoadByte(dst, addr)) ==
            Ok(regs[dst := ReadTable(t, regs[addr] - TABLE_START)], mem)
  {
  }

  lemma ExecCompare(t: seq<Byte>, prev: BlockId, regs: map<Reg, Word>, mem: map<nat, Word>, i: Instr)
    requires i.ICmp? && HasWord(regs, i.a) && HasWord(regs, i.c)
    ensures Exec(t, prev, regs, mem, i) ==
            Ok(regs[i.dst := Bit(Holds(i.pred, WordOf(regs, i.a), WordOf(regs, i.c)))], mem)
  {
  }

  // ------------------------------------------------------ instructions without a check

  /** What the machine makes of a rewritten instruction, against its meaning. */
  ghost predicate Agrees(rs: Regions, s: SourceResult, m: MachineResult) {
    match s
    case Next(regs, mem) => m.Ok? && RelRegs(rs, regs, m.regs) && RelMem(rs, mem, m.mem)
    case BadAccess => m == Trap
    case LeftWindow => m == Refused
    case Undefined => true
  }

  lemma AgreeBin(t: seq<Byte>, prev: BlockId, rs: Regions, regs: map<Reg, Val>, mem: map<nat, Val>,
                 mregs: map<Reg, Word>, mmem: map<nat, Word>, i: Instr)
    requires RelRegs(rs, regs, mregs) && RelMem(rs, mem, mmem) && SourceInstr(i)
    requires i.Bin? || i.AddressOf? || (i.Gep? && i.allZero)
    requires RegionsFit(rs)
    ensures Agrees(rs, SourceExec(rs, regs, mem, i), Exec(t, prev, mregs, mmem, i))
  {
    match i
    case AddressOf(dst, b) =>
      if b in rs {
        RelSet(rs, regs, mregs, dst, Ref(b, b), b);
      }
    case Bin(dst, op, a, c) =>
      if HasVal(regs, a) && HasVal(regs, c) && ValOf(regs, a).Int? && ValOf(regs, c).Int? {
        RelOperand(rs, regs, mregs, a);
        RelOperand(rs, regs, mregs, c);
        var w := BinWord(op, WordOf(mregs, a), WordOf(mregs, c));
        RelSet(rs, regs, mregs, dst, Int(w), w);
      }
    case Gep(dst, base, off, _) =>
      if base in regs && HasVal(regs, off) {
        RelOperand(rs, regs, mregs, off);
        RelSet(rs, regs, mregs, dst, regs[base], mregs[base]);
      }
  }

  lemma AgreeMemory(t: seq<Byte>, prev: BlockId, rs: Regions, regs: map<Reg, Val>, mem: map<nat, Val>,
                    mregs: map<Reg, Word>, mmem: map<nat, Word>, i: Instr)
    requires RelRegs(rs, regs, mregs) && RelMem(rs, mem, mmem) && SourceInstr(i) && RegionsFit(rs)
    requires i.Load? || i.Store?
    ensures Agrees(rs, SourceExec(rs, regs, mem, i), Exec(t, prev, mregs, mmem, i))
  {
    var ptr := i.ptr;
    if ptr in regs && regs[ptr].Ref? {
      PointerWord(rs, regs[ptr], mregs[ptr]);
      match i
      case Load(dst, _) =>
        var a := regs[ptr].a;
        if !Strays(rs, regs[ptr]) {
          RelSet(rs, regs, mregs, dst, if a in mem then mem[a] else Int(0), if a in mmem then mmem[a] else 0);
        }
      case Store(_, val) =>
        if HasVal(regs, val) {
          RelOperand(rs, regs, mregs, val);
        }
    }
  }

  lemma AgreeCast(t: seq<Byte>, prev: BlockId, rs: Regions, regs: map<Reg, Val>, mem: map<nat, Val>,
                  mregs: map<Reg, Word>, mmem: map<nat, Word>, i: Instr)
    requires RelRegs(rs, regs, mregs) && RelMem(rs, mem, mmem) && SourceInstr(i) && RegionsFit(rs)
    requires i.PtrToInt?
    ensures Agrees(rs, SourceExec(rs, regs, mem, i), ExecAll(t, prev, mregs, mmem, Rewrite(i)))
  {
    hide Exec, ExecAll, RelRegs, RelMem, RegionsFit, Truncate;
    var (dst, src, bits) := (i.dst, i.src, i.bits);
    if HasVal(regs, src) && IsPointer(ValOf(regs, src)) {
      RelOperand(rs, regs, mregs, src);
      var (v, w) := (ValOf(regs, src), WordOf(mregs, src));
      PointerWord(rs, v, w);
      var a := AddressIn(v);
      if bits >= 32 {
        var r1 := mregs[Temp(0) := w];
        ExecCast(t, prev, mregs, mmem, Temp(0), src);
        ExecBin(t, prev, r1, mmem, dst, And, R(Temp(0)), Imm(CLEAR_TOP));
        ExecTwo(t, prev, mregs, mmem, Rewrite(i)[0], Rewrite(i)[1], r1);
        MaskTop(w);
        AllBits(a);
        RelTemp(rs, regs, mregs, Temp(0), w);
        RelSet(rs, regs, r1, dst, Int(a), a);
      } else {
        ExecOne(t, prev, mregs, mmem, i);
        ExecTruncate(t, prev, mregs, mmem, i);
        if Strays(rs, v) {
          TruncateMark(a, bits);
        }
        RelSet(rs, regs, mregs, dst, Int(Truncate(a, bits)), Truncate(w, bits));
      }
    }
  }

  lemma AllBits(w: Word)
    ensures Truncate(w, 32) == w
  {
  }

  /** The two masked operands of an ordered comparison. */
  lemma MaskedOperand(t: seq<Byte>, prev: BlockId, rs: Regions, regs: map<Reg, Val>, mregs: map<Reg, Word>,
                      mmem: map<nat, Word>, o: Operand, k: nat)
    requires RelRegs(rs, regs, mregs) && RegionsFit(rs) && UserOperand(o)
    requires HasVal(regs, o) && IsPointer(ValOf(regs, o))
    ensures var code := [PtrToInt(Temp(k), o, 32), Bin(Temp(k + 1), And, R(Temp(k)), Imm(CLEAR_TOP))];
            var r := ExecAll(t, prev, mregs, mmem, code);
            && HasWord(mregs, o) && 0 <= AddressIn(ValOf(regs, o)) < MARK
            && r == Ok(mregs[Temp(k) := WordOf(mregs, o)][Temp(k + 1) := AddressIn(ValOf(regs, o))], mmem)
            && RelRegs(rs, regs, r.regs)
  {
    RelOperand(rs, regs, mregs, o);
    var (v, w) := (ValOf(regs, o), WordOf(mregs, o));
    PointerWord(rs, v, w);
    MaskTop(w);
    var r1 := mregs[Temp(k) := w];
    ExecTwo(t, prev, mregs, mmem, PtrToInt(Temp(k), o, 32), Bin(Temp(k + 1), And, R(Temp(k)), Imm(CLEAR_TOP)), r1);
    RelTemp(rs, regs, mregs, Temp(k), w);
    RelTemp(rs, regs, r1, Temp(k + 1), AddressIn(v));
  }

  lemma OrderedCode(i: Instr)
    requires i.ICmp? && i.pointers && !IsEquality(i.pred)
    ensures Rewrite(i) == [PtrToInt(Temp(0), i.a, 32), Bin(Temp(1), And, R(Temp(0)), Imm(CLEAR_TOP))]
                          + ([PtrToInt(Temp(2), i.c, 32), Bin(Temp(3), And, R(Temp(2)), Imm(CLEAR_TOP))]
                             + [ICmp(i.dst, i.pred, false, R(Temp(1)), R(Temp(3)))])
  {
  }

  /** The code of an ordered comparison. */
  lemma OrderedComputes(t: seq<Byte>, prev: BlockId, rs: Regions, regs: map<Reg, Val>, mregs: map<Reg, Word>,
                        mmem: map<nat, Word>, i: Instr) returns (r2: map<Reg, Word>)
    requires RelRegs(rs, regs, mregs) && RegionsFit(rs) && SourceInstr(i)
    requires i.ICmp? && i.pointers && !IsEquality(i.pred) && HasVal(regs, i.a) && HasVal(regs, i.c)
    requires IsPointer(ValOf(regs, i.a)) && IsPointer(ValOf(regs, i.c))
    ensures var (x, y) := (AddressIn(ValOf(regs, i.a)), AddressIn(ValOf(regs, i.c)));
            && 0 <= x < MARK && 0 <= y < MARK && RelRegs(rs, regs, r2)
            && Temp(1) in r2 && r2[Temp(1)] == x && Temp(3) in r2 && r2[Temp(3)] == y
            && ExecAll(t, prev, mregs, mmem, Rewrite(i)) ==
               Exec(t, prev, r2, mmem, ICmp(i.dst, i.pred, false, R(Temp(1)), R(Temp(3))))
  {
    hide ExecAll, Exec, Rewrite, RegionsFit, RelRegs, IsPointer, AddressIn;
    MaskedOperand(t, prev, rs, regs, mregs, mmem, i.a, 0);
    var c1 := [PtrToInt(Temp(0), i.a, 32), Bin(Temp(1), And, R(Temp(0)), Imm(CLEAR_TOP))];
    var r1 := ExecAll(t, prev, mregs, mmem, c1).regs;
    MaskedOperand(t, prev, rs, regs, r1, mmem, i.c, 2);
    var c2 := [PtrToInt(Temp(2), i.c, 32), Bin(Temp(3), And, R(Temp(2)), Imm(CLEAR_TOP))];
    r2 := ExecAll(t, prev, r1, mmem, c2).regs;
    var cmp := ICmp(i.dst, i.pred, false, R(Temp(1)), R(Temp(3)));
    OrderedCode(i);
    ExecConcat(t, prev, mregs, mmem, c1, c2 + [cmp]);
    ExecConcat(t, prev, r1, mmem, c2, [cmp]);
    ExecOne(t, prev, r2, mmem, cmp);
  }

  lemma AgreeOrdered(t: seq<Byte>, prev: BlockId, rs: Regions, regs: map<Reg, Val>, mem: map<nat, Val>,
                     mregs: map<Reg, Word>, mmem: map<nat, Word>, i: Instr)
    requires RelRegs(rs, regs, mregs) && RelMem(rs, mem, mmem) && SourceInstr(i) && RegionsFit(rs)
    requires i.ICmp? && i.pointers && !IsEquality(i.pred)
    ensures Agrees(rs, SourceExec(rs, regs, mem, i), ExecAll(t, prev, mregs, mmem, Rewrite(i)))
  {
    hide ExecAll, Exec, Rewrite, RegionsFit, RelRegs, RelMem, ToSigned, Holds;
    if HasVal(regs, i.a) && HasVal(regs, i.c) && IsPointer(ValOf(regs, i.a)) && IsPointer(ValOf(regs, i.c)) {
      var (x, y) := (AddressIn(ValOf(regs, i.a)), AddressIn(ValOf(regs, i.c)));
      var r2 := OrderedComputes(t, prev, rs, regs, mregs, mmem, i);
      ExecCompare(t, prev, r2, mmem, ICmp(i.dst, i.pred, false, R(Temp(1)), R(Temp(3))));
      RelSet(rs, regs, r2, i.dst, Int(Bit(Holds(i.pred, x, y))), Bit(Holds(i.pred, x, y)));
    }
  }

  lemma AgreeCompare(t: seq<Byte>, prev: BlockId, rs: Regions, regs: map<Reg, Val>, mem: map<nat, Val>,
                     mregs: map<Reg, Word>, mmem: map<nat, Word>, i: Instr)
    requires RelRegs(rs, regs, mregs) && RelMem(rs, mem, mmem) && SourceInstr(i) && RegionsFit(rs)
    requires i.ICmp? && (!i.pointers || IsEquality(i.pred))
    ensures Agrees(rs, SourceExec(rs, regs, mem, i), Exec(t, prev, mregs, mmem, i))
  {
    hide Exec, RelRegs, RelMem, RegionsFit, ToSigned;
    var (dst, pred, a, c) := (i.dst, i.pred, i.a, i.c);
    if HasVal(regs, a) && HasVal(regs, c) {
      RelOperand(rs, regs, mregs, a);
      RelOperand(rs, regs, mregs, c);
      ExecCompare(t, prev, mregs, mmem, i);
      var (v, w) := (ValOf(regs, a), ValOf(regs, c));
      var (x, y) := (WordOf(mregs, a), WordOf(mregs, c));
      if i.pointers && IsPointer(v) && IsPointer(w) {
        PointerWord(rs, v, x);
        PointerWord(rs, w, y);
        EqualityIff(rs, v, w, x, y);
      }
      RelSet(rs, regs, mregs, dst, Int(Bit(Holds(pred, x, y))), Bit(Holds(pred, x, y)));
    }
  }

  /** Every instruction that gets no check. */
  lemma AgreePlain(t: seq<Byte>, prev: BlockId, rs: Regions, regs: map<Reg, Val>, mem: map<nat, Val>,
                   mregs: map<Reg, Word>, mmem: map<nat, Word>, i: Instr)
    requires RelRegs(rs, regs, mregs) && RelMem(rs, mem, mmem) && SourceInstr(i) && RegionsFit(rs)
    requires !NeedsCheck(i)
    ensures Agrees(rs, SourceExec(rs, regs, mem, i), ExecAll(t, prev, mregs, mmem, Rewrite(i)))
  {
    if i.PtrToInt? {
      AgreeCast(t, prev, rs, regs, mem, mregs, mmem, i);
    } else if i.ICmp? && i.pointers && !IsEquality(i.pred) {
      AgreeOrdered(t, prev, rs, regs, mem, mregs, mmem, i);
    } else {
      ExecOne(t, prev, mregs, mmem, i);
      if i.ICmp? {
        AgreeCompare(t, prev, rs, regs, mem, mregs, mmem, i);
      } else if i.Load? || i.Store? {
        AgreeMemory(t, prev, rs, regs, mem, mregs, mmem, i);
      } else {
        AgreeBin(t, prev, rs, regs, mem, mregs, mmem, i);
      }
    }
  }

  // -------------------------------------------------------------------- the check code

  lemma Shr4(x: Word)
    ensures ShrWord(x, 4) == x / 16
  {
    assert Shr(x, 4) == Shr(x / 2, 3) == Shr(x / 2 / 2, 2) == Shr(x / 2 / 2 / 2, 1) == x / 2 / 2 / 2 / 2;
  }

  /** The word of an arithmetic shift is zero only when the shift is. */
  lemma AShrWordZero(x: Word, k: nat)
    requires k < 32
    ensures ToWord(AShr(x, k)) == 0 <==> AShr(x, k) == 0
  {
    if x < MARK {
      ShrBound(x, k);
    } else {
      ShrBound(WORDS - 1 - x, k);
    }
  }

  lemma TableAddress(p: Word)
    ensures ToWord(TABLE_START + p / 16) == TABLE_START + p / 16 && ToWord(TABLE_START + 0) == TABLE_START
  {
  }

  /** The registers after the table lookup for pointer p. */
  function AfterTable(t: seq<Byte>, regs: map<Reg, Word>, p: Word): map<Reg, Word> {
    TableAddress(p);
    regs[Temp(6) := p / 16][Temp(7) := TABLE_START][Temp(8) := TABLE_START + p / 16]
      [Temp(9) := ReadTable(t, p / 16)][Temp(10) := ReadTable(t, p / 16) % 32]
  }

  /** Only temporaries 6 to 10 are new. */
  lemma TableRegs(t: seq<Byte>, regs: map<Reg, Word>, p: Word)
    ensures var r := AfterTable(t, regs, p);
            && Temp(10) in r && r[Temp(10)] == ReadTable(t, p / 16) % 32
            && forall x | x in regs && (x.User? || x.n <= 5 || 11 <= x.n) :: x in r && r[x] == regs[x]
  {
  }

  lemma TempsOnly(rs: Regions, regs: map<Reg, Val>, mregs: map<Reg, Word>, mregs': map<Reg, Word>)
    requires RelRegs(rs, regs, mregs) && forall x | x in mregs && x.User? :: x in mregs' && mregs'[x] == mregs[x]
    ensures RelRegs(rs, regs, mregs')
  {
  }

  lemma TableComputes(t: seq<Byte>, prev: BlockId, regs: map<Reg, Word>, mem: map<nat, Word>, p: Word)
    requires Temp(5) in regs && regs[Temp(5)] == p
    ensures ExecAll(t, prev, regs, mem, TABLE_CODE) == Ok(AfterTable(t, regs, p), mem)
  {
    hide ExecAll, Exec, ShrWord, AndWord, ToWord, ReadTable;
    var code := TABLE_CODE;
    Shr4(p);
    MaskSize(ReadTable(t, p / 16));
    TableAddress(p);
    var r6 := regs[Temp(6) := p / 16];
    var r7 := r6[Temp(7) := TABLE_START];
    var r8 := r7[Temp(8) := TABLE_START + p / 16];
    var r9 := r8[Temp(9) := ReadTable(t, p / 16)];
    ExecBin(t, prev, regs, mem, Temp(6), LShr, R(Temp(5)), Imm(4));
    ExecBin(t, prev, r6, mem, Temp(7), Add, Imm(TABLE_START), Imm(0));
    ExecGep(t, prev, r7, mem, Temp(8), Temp(7), R(Temp(6)), false);
    ExecLoadByte(t, prev, r8, mem, Temp(9), Temp(8));
    ExecBin(t, prev, r9, mem, Temp(10), And, R(Temp(9)), Imm(0x1f));
    ExecTwo(t, prev, regs, mem, code[0], code[1], r6);
    ExecTwo(t, prev, r7, mem, code[2], code[3], r8);
    ExecOne(t, prev, r9, mem, code[4]);
    assert code == [code[0], code[1]] + ([code[2], code[3]] + [code[4]]);
    ExecConcat(t, prev, regs, mem, [code[0], code[1]], [code[2], code[3]] + [code[4]]);
    ExecConcat(t, prev, r7, mem, [code[2], code[3]], [code[4]]);
  }

  /** The first half: the size at the base. */
  lemma LookupCode(t: seq<Byte>, prev: BlockId, regs: map<Reg, Word>, mem: map<nat, Word>, g: Instr)
    requires g.Gep? && g.base in regs && g.base.User?
    ensures var p := regs[g.base];
            ExecAll(t, prev, regs, mem, GepCheck(g)[..7]) ==
            Ok(AfterTable(t, regs[Temp(4) := p][Temp(5) := p], p), mem)
  {
    hide ExecAll, Exec, AfterTable;
    var code := GepCheck(g);
    var p := regs[g.base];
    var r4 := regs[Temp(4) := p];
    ExecGep(t, prev, regs, mem, Temp(4), g.base, Imm(0), true);
    ExecCast(t, prev, r4, mem, Temp(5), R(Temp(4)));
    ExecTwo(t, prev, regs, mem, code[0], code[1], r4);
    TableComputes(t, prev, r4[Temp(5) := p], mem, p);
    assert code[..7] == [code[0], code[1]] + TABLE_CODE;
    ExecConcat(t, prev, regs, mem, [code[0], code[1]], TABLE_CODE);
  }

  /** The second half: the address computation and the comparison. */
  lemma CompareCode(t: seq<Byte>, prev: BlockId, regs: map<Reg, Word>, mem: map<nat, Word>, g: Instr, p: Word,
                    size: nat)
    requires g.Gep? && !g.allZero && g.base in regs && HasWord(regs, g.off) && UserOperand(g.off)
    requires regs[g.base] == p && Temp(5) in regs && regs[Temp(5)] == p
    requires size < 32 && Temp(10) in regs && regs[Temp(10)] == size
    ensures var q := ToWord(p + WordOf(regs, g.off));
            var r1 := regs[Temp(11) := q][Temp(12) := q][Temp(13) := XorWord(p, q)];
            var r2 := r1[Temp(14) := ToWord(AShr(XorWord(p, q), size))];
            ExecAll(t, prev, regs, mem, GepCheck(g)[7..]) ==
            Ok(r2[Temp(15) := Bit(AShr(XorWord(p, q), size) == 0)], mem)
  {
    hide ExecAll, Exec, AShr, XorWord, ToWord;
    var code := GepCheck(g);
    var q := ToWord(p + WordOf(regs, g.off));
    AShrWordZero(XorWord(p, q), size);
    var r11 := regs[Temp(11) := q];
    var r12 := r11[Temp(12) := q];
    var r13 := r12[Temp(13) := XorWord(p, q)];
    var r14 := r13[Temp(14) := ToWord(AShr(XorWord(p, q), size))];
    ExecGep(t, prev, regs, mem, Temp(11), g.base, g.off, false);
    ExecCast(t, prev, r11, mem, Temp(12), R(Temp(11)));
    ExecBin(t, prev, r12, mem, Temp(13), XorOp, R(Temp(5)), R(Temp(12)));
    ExecBin(t, prev, r13, mem, Temp(14), AShrOp, R(Temp(13)), R(Temp(10)));
    ExecCompare(t, prev, r14, mem, code[11]);
    ExecTwo(t, prev, regs, mem, code[7], code[8], r11);
    ExecTwo(t, prev, r12, mem, code[9], code[10], r13);
    ExecOne(t, prev, r14, mem, code[11]);
    assert code[7..] == [code[7], code[8]] + ([code[9], code[10]] + [code[11]]);
    ExecConcat(t, prev, regs, mem, [code[7], code[8]], [code[9], code[10]] + [code[11]]);
    ExecConcat(t, prev, r12, mem, [code[9], code[10]], [code[11]]);
  }

  /** The whole check around an address computation: it computes the target and
      the fast path's test, and disturbs only temporaries. */
  lemma CheckComputes(t: seq<Byte>, prev: BlockId, rs: Regions, regs: map<Reg, Val>, mregs: map<Reg, Word>,
                      mem: map<nat, Word>, g: Instr)
    requires RelRegs(rs, regs, mregs) && g.Gep? && !g.allZero && SourceInstr(g)
    requires g.base in mregs && HasWord(mregs, g.off)
    ensures var (p, q) := (mregs[g.base], ToWord(mregs[g.base] + WordOf(mregs, g.off)));
            var r := ExecAll(t, prev, mregs, mem, GepCheck(g));
            && r.Ok? && r.mem == mem && RelRegs(rs, regs, r.regs)
            && Temp(4) in r.regs && r.regs[Temp(4)] == p
            && Temp(11) in r.regs && r.regs[Temp(11)] == q
            && Temp(15) in r.regs && r.regs[Temp(15)] == Bit(FastTest(t, p, q))
  {
    hide ExecAll, Exec, AShr, XorWord, ToWord, RelRegs, AfterTable;
    var code := GepCheck(g);
    var p := mregs[g.base];
    LookupCode(t, prev, mregs, mem, g);
    var r1 := ExecAll(t, prev, mregs, mem, code[..7]).regs;
    TableRegs(t, mregs[Temp(4) := p][Temp(5) := p], p);
    CompareCode(t, prev, r1, mem, g, p, ReadTable(t, p / 16) % 32);
    assert code == code[..7] + code[7..];
    ExecConcat(t, prev, mregs, mem, code[..7], code[7..]);
    TempsOnly(rs, regs, mregs, ExecAll(t, prev, mregs, mem, code).regs);
  }

  /** Looking up the size at the start of a memset, once its end is computed. */
  lemma MemSetLookup(t: seq<Byte>, prev: BlockId, regs: map<Reg, Word>, mem: map<nat, Word>, x: Instr)
    requires x.MemSet? && x.ptr in regs && x.ptr.User? && HasWord(regs, x.len) && UserOperand(x.len)
    ensures var (p, q) := (regs[x.ptr], ToWord(regs[x.ptr] + WordOf(regs, x.len)));
            ExecAll(t, prev, regs, mem, MemSetCheck(x)[..7]) ==
            Ok(AfterTable(t, regs[Temp(5) := p][Temp(12) := q], p), mem)
  {
    hide ExecAll, Exec, AfterTable, ToWord;
    var code := MemSetCheck(x);
    var (p, q) := (regs[x.ptr], ToWord(regs[x.ptr] + WordOf(regs, x.len)));
    var r5 := regs[Temp(5) := p];
    ExecCast(t, prev, regs, mem, Temp(5), R(x.ptr));
    ExecBin(t, prev, r5, mem, Temp(12), Add, R(Temp(5)), x.len);
    ExecTwo(t, prev, regs, mem, code[0], code[1], r5);
    TableComputes(t, prev, r5[Temp(12) := q], mem, p);
    assert code[..7] == [code[0], code[1]] + TABLE_CODE;
    ExecConcat(t, prev, regs, mem, [code[0], code[1]], TABLE_CODE);
  }

  /** What does not read a temporary does not depend on it. */
  lemma MemSetTemp(t: seq<Byte>, prev: BlockId, regs: map<Reg, Word>, regs': map<Reg, Word>, mem: map<nat, Word>,
                   x: Instr)
    requires x.MemSet? && SourceInstr(x) && x.ptr in regs && HasWord(regs, x.val) && HasWord(regs, x.len)
    requires forall r | r in regs && r.User? :: r in regs' && regs'[r] == regs[r]
    ensures match Exec(t, prev, regs, mem, x)
            case Ok(_, mem') => Exec(t, prev, regs', mem, x) == Ok(regs', mem')
            case o => Exec(t, prev, regs', mem, x) == o
  {
  }

  /** The end of the check: shift, memset, comparison. */
  lemma MemSetCompare(t: seq<Byte>, prev: BlockId, regs: map<Reg, Word>, mem: map<nat, Word>, x: Instr, p: Word,
                      q: Word, size: nat)
    requires x.MemSet? && SourceInstr(x) && x.ptr in regs && HasWord(regs, x.val) && HasWord(regs, x.len)
    requires Temp(5) in regs && regs[Temp(5)] == p && Temp(12) in regs && regs[Temp(12)] == q
    requires size < 32 && Temp(10) in regs && regs[Temp(10)] == size
    ensures var r2 := regs[Temp(13) := XorWord(p, q)][Temp(14) := ToWord(AShr(XorWord(p, q), size))];
            var r := ExecAll(t, prev, regs, mem, MemSetCheck(x)[7..]);
            match Exec(t, prev, regs, mem, x)
            case Ok(_, mem') => r == Ok(r2[Temp(15) := Bit(AShr(XorWord(p, q), size) == 0)], mem')
            case Trap => r == Trap
            case _ => true
  {
    hide ExecAll, Exec, AShr, XorWord, ToWord;
    var code := MemSetCheck(x);
    AShrWordZero(XorWord(p, q), size);
    var r13 := regs[Temp(13) := XorWord(p, q)];
    var r14 := r13[Temp(14) := ToWord(AShr(XorWord(p, q), size))];
    ExecBin(t, prev, regs, mem, Temp(13), XorOp, R(Temp(5)), R(Temp(12)));
    ExecBin(t, prev, r13, mem, Temp(14), AShrOp, R(Temp(13)), R(Temp(10)));
    ExecTwo(t, prev, regs, mem, code[7], code[8], r13);
    assert code[7..] == [code[7], code[8]] + ([x] + [code[10]]);
    ExecConcat(t, prev, regs, mem, [code[7], code[8]], [x] + [code[10]]);
    MemSetTemp(t, prev, regs, r14, mem, x);
    ExecConcat(t, prev, r14, mem, [x], [code[10]]);
    ExecOne(t, prev, r14, mem, x);
    match Exec(t, prev, regs, mem, x)
    case Ok(_, mem') =>
      ExecCompare(t, prev, r14, mem', code[10]);
      ExecOne(t, prev, r14, mem', code[10]);
    case _ =>
  }

  /** The whole check around a memset: the memset does what it would do by
      itself, and then the fast path's test on its end is there. */
  lemma MemSetComputes(t: seq<Byte>, prev: BlockId, rs: Regions, regs: map<Reg, Val>, mregs: map<Reg, Word>,
                       mem: map<nat, Word>, x: Instr)
    requires RelRegs(rs, regs, mregs) && x.MemSet? && SourceInstr(x)
    requires x.ptr in mregs && HasWord(mregs, x.val) && HasWord(mregs, x.len)
    ensures var (p, q) := (mregs[x.ptr], ToWord(mregs[x.ptr] + WordOf(mregs, x.len)));
            var r := ExecAll(t, prev, mregs, mem, MemSetCheck(x));
            match Exec(t, prev, mregs, mem, x)
            case Ok(_, mem') =>
              && r.Ok? && r.mem == mem' && RelRegs(rs, regs, r.regs)
              && x.ptr in r.regs && r.regs[x.ptr] == p && Temp(12) in r.regs && r.regs[Temp(12)] == q
              && Temp(15) in r.regs && r.regs[Temp(15)] == Bit(FastTest(t, p, q))
            case Trap => r == Trap
            case _ => true
  {
    hide ExecAll, Exec, AShr, XorWord, ToWord, RelRegs, AfterTable;
    var code := MemSetCheck(x);
    var (p, q) := (mregs[x.ptr], ToWord(mregs[x.ptr] + WordOf(mregs, x.len)));
    MemSetLookup(t, prev, mregs, mem, x);
    var r1 := ExecAll(t, prev, mregs, mem, code[..7]).regs;
    TableRegs(t, mregs[Temp(5) := p][Temp(12) := q], p);
    MemSetTemp(t, prev, mregs, r1, mem, x);
    MemSetCompare(t, prev, r1, mem, x, p, q, ReadTable(t, p / 16) % 32);
    assert code == code[..7] + code[7..];
    ExecConcat(t, prev, mregs, mem, code[..7], code[7..]);
    match Exec(t, prev, mregs, mem, x)
    case Ok(_, _) => TempsOnly(rs, regs, mregs, ExecAll(t, prev, mregs, mem, code).regs);
    case _ =>
  }
}
