/** A small block-structured code, and two readings of it: what a source
    program means, with pointers that know their block, and what the machine
    does, with plain 32-bit words. */
module IR {
  import opened Bits
  import opened BoundsCheck
  import opened Words

  datatype Kind = Main | Check | Slow

  /** The pieces a block of the source is split into carry its number. */
  datatype BlockId = BlockId(block: nat, part: nat, kind: Kind)

  datatype Reg = User(n: nat) | Temp(n: nat)

  datatype Operand = R(reg: Reg) | Imm(w: Word)

  datatype Op = Add | Sub | Mul | And | LShr | XorOp | AShrOp

  datatype Pred = EQ | NE | ULT | ULE | UGT | UGE | SLT | SLE | SGT | SGE

  datatype Instr =
    | AddressOf(dst: Reg, b: nat)
    | Bin(dst: Reg, op: Op, a: Operand, c: Operand)
    | Gep(dst: Reg, base: Reg, off: Operand, allZero: bool)
    | PtrToInt(dst: Reg, src: Operand, bits: nat)
    | ICmp(dst: Reg, pred: Pred, pointers: bool, a: Operand, c: Operand)
    | Load(dst: Reg, ptr: Reg)
    | Store(ptr: Reg, val: Operand)
    | MemSet(ptr: Reg, val: Operand, len: Operand)
    | LoadByte(dst: Reg, addr: Reg)
    | CallSlowPath(dst: Reg, base: Reg, p: Reg)
    | Phi(dst: Reg, from1: BlockId, val1: Reg, from2: BlockId, val2: Reg)

  datatype Terminator = Br(to: BlockId) | CondBr(c: Reg, yes: BlockId, no: BlockId) | Ret(val: Operand)

  datatype Block = Block(id: BlockId, body: seq<Instr>, term: Terminator)

  function Find(f: seq<Block>, l: BlockId): (i: nat)
    ensures i <= |f| && (i < |f| ==> f[i].id == l)
  {
    if f == [] then 0 else if f[0].id == l then 0 else 1 + Find(f[1..], l)
  }

  // --------------------------------------------------------------------- operations

  function BinWord(op: Op, a: Word, c: Word): Word {
    match op
    case Add => ToWord(a + c)
    case Sub => ToWord(a - c)
    case Mul => ToWord(a * c)
    case And => AndWord(a, c)
    case LShr => ShrWord(a, c % 32)
    case XorOp => XorWord(a, c)
    case AShrOp => ToWord(AShr(a, c % 32))
  }

  function AndBits(a: nat, c: nat): (r: nat)
    ensures r <= a
  {
    if a == 0 || c == 0 then 0
    else (if a % 2 == 1 && c % 2 == 1 then 1 else 0) + 2 * AndBits(a / 2, c / 2)
  }

  function AndWord(a: Word, c: Word): Word {
    AndBits(a, c)
  }

  function ShrWord(a: Word, k: nat): Word {
    ShrBound(a, k);
    Shr(a, k)
  }

  lemma {:induction false} ShrBound(a: nat, k: nat)
    ensures Shr(a, k) <= a
  {
    if k != 0 {
      ShrBound(a / 2, k - 1);
    }
  }

  function Holds(pred: Pred, a: Word, c: Word): bool {
    match pred
    case EQ => a == c
    case NE => a != c
    case ULT => a < c
    case ULE => a <= c
    case UGT => a > c
    case UGE => a >= c
    case SLT => ToSigned(a) < ToSigned(c)
    case SLE => ToSigned(a) <= ToSigned(c)
    case SGT => ToSigned(a) > ToSigned(c)
    case SGE => ToSigned(a) >= ToSigned(c)
  }

  function Bit(x: bool): Word {
    if x then 1 else 0
  }

  predicate IsEquality(pred: Pred) {
    pred.EQ? || pred.NE?
  }

  /** A conversion to fewer bits truncates. */
  function Truncate(w: Word, bits: nat): Word {
    if bits >= 32 then w else w - Floor32(w, bits)
  }

  function Floor32(w: Word, bits: nat): (f: nat)
    ensures f <= w
  {
    FloorAround(w, bits);
    Floor(w, bits)
  }

  // ------------------------------------------------------------------ source programs

  /** A pointer is an address together with the block it belongs to; Int(0) also
      serves as the null pointer. */
  datatype Val = Int(w: Word) | Ref(b: nat, a: int)

  /** The blocks pointers may point into: start and log of the size. */
  type Regions = map<nat, nat>

  /** The table shows them all, and they lie below it. */
  ghost predicate RegionsOk(t: seq<Byte>, rs: Regions) {
    forall b | b in rs :: Region(t, b, rs[b]) && b + Pow2(rs[b]) <= TABLE_START
  }

  predicate RefOk(rs: Regions, v: Val) {
    v.Ref? ==> v.b in rs && InWindow(v.b, rs[v.b], v.a)
  }

  datatype SourceResult = Next(regs: map<Reg, Val>, mem: map<nat, Val>) | LeftWindow | BadAccess | Undefined

  predicate HasVal(regs: map<Reg, Val>, o: Operand) {
    o.R? ==> o.reg in regs
  }

  function ValOf(regs: map<Reg, Val>, o: Operand): Val
    requires HasVal(regs, o)
  {
    match o
    case R(reg) => regs[reg]
    case Imm(w) => Int(w)
  }

  predicate IsPointer(v: Val) {
    v.Ref? || v == Int(0)
  }

  function AddressIn(v: Val): int
    requires IsPointer(v)
  {
    if v.Ref? then v.a else 0
  }

  /** Out of its own block. */
  predicate Strays(rs: Regions, v: Val)
    requires IsPointer(v) && RefOk(rs, v)
  {
    v.Ref? && !InBlock(v.b, rs[v.b], v.a)
  }

  /** Comparing pointers compares addresses.  Equality of the same address
      reached from two blocks, inside one and outside the other, is left
      undefined. */
  function PointerCompare(rs: Regions, pred: Pred, v: Val, w: Val): (r: SourceCompare)
    requires IsPointer(v) && IsPointer(w) && RefOk(rs, v) && RefOk(rs, w)
  {
    var (x, y) := (AddressIn(v), AddressIn(w));
    if IsEquality(pred) && x == y && Strays(rs, v) != Strays(rs, w) then Unspecified
    else Result(if !(0 <= x < MARK && 0 <= y < MARK) then false else Holds(pred, x, y))
  }

  datatype SourceCompare = Result(x: bool) | Unspecified

  /** Pointer arithmetic: a step stays within half a slot of its block, or it
      goes too far.  Only offsets that are so large that the machine's sum wraps
      around into the window again are left undefined. */
  function Step(rs: Regions, v: Val, off: Word): SourcePointer
  {
    if !v.Ref? || v.b !in rs then Bad
    else
      var (k, d) := (rs[v.b], ToSigned(off));
      if InWindow(v.b, k, v.a + d) then Good(Ref(v.b, v.a + d))
      else if InWindow(v.b, k, SeenAddress(v.b, k, v.a, d)) then Bad
      else Far
  }

  datatype SourcePointer = Good(v: Val) | Far | Bad

  /** A memset of n > 0 cells through the pointer v.  The pass refuses it when
      its end leaves the window; an end between the block's and the window's, or
      in the size table, is left undefined. */
  function SourceMemSet(rs: Regions, regs: map<Reg, Val>, mem: map<nat, Val>, v: Val, val: Val, n: nat): SourceResult
    requires v.Ref? && RefOk(rs, v)
  {
    var end := v.b + Pow2(rs[v.b]);
    if Strays(rs, v) then BadAccess
    else if v.a + n <= end then Next(regs, Fill(mem, v.a, n, val))
    else if end + HALF_SLOT <= v.a + n <= TABLE_START then LeftWindow
    else Undefined
  }

  function SourceExec(rs: Regions, regs: map<Reg, Val>, mem: map<nat, Val>, i: Instr): SourceResult {
    match i
    case AddressOf(dst, b) => if b in rs then Next(regs[dst := Ref(b, b)], mem) else Undefined
    case Bin(dst, op, a, c) =>
      if HasVal(regs, a) && HasVal(regs, c) && ValOf(regs, a).Int? && ValOf(regs, c).Int?
      then Next(regs[dst := Int(BinWord(op, ValOf(regs, a).w, ValOf(regs, c).w))], mem) else Undefined
    case Gep(dst, base, off, allZero) =>
      if base in regs && HasVal(regs, off) && ValOf(regs, off).Int? then
        if allZero then Next(regs[dst := regs[base]], mem)
        else
          match Step(rs, regs[base], ValOf(regs, off).w) {
            case Good(v) => Next(regs[dst := v], mem)
            case Far => LeftWindow
            case Bad => Undefined
          }
      else Undefined
    case PtrToInt(dst, src, bits) =>
      if HasVal(regs, src) && IsPointer(ValOf(regs, src)) && 0 <= AddressIn(ValOf(regs, src)) < MARK
      then Next(regs[dst := Int(Truncate(AddressIn(ValOf(regs, src)), bits))], mem) else Undefined
    case ICmp(dst, pred, pointers, a, c) =>
      if !HasVal(regs, a) || !HasVal(regs, c) then Undefined
      else
        var (v, w) := (ValOf(regs, a), ValOf(regs, c));
        if !pointers && v.Int? && w.Int? then Next(regs[dst := Int(Bit(Holds(pred, v.w, w.w)))], mem)
        else if pointers && IsPointer(v) && IsPointer(w) && RefOk(rs, v) && RefOk(rs, w) then
          match PointerCompare(rs, pred, v, w) {
            case Result(x) => Next(regs[dst := Int(Bit(x))], mem)
            case Unspecified => Undefined
          }
        else Undefined
    case Load(dst, ptr) =>
      if ptr in regs && regs[ptr].Ref? && RefOk(rs, regs[ptr]) then
        if Strays(rs, regs[ptr]) then BadAccess
        else Next(regs[dst := if regs[ptr].a in mem then mem[regs[ptr].a] else Int(0)], mem)
      else Undefined
    case Store(ptr, val) =>
      if ptr in regs && regs[ptr].Ref? && RefOk(rs, regs[ptr]) && HasVal(regs, val) && regs[ptr].a >= 0 then
        if Strays(rs, regs[ptr]) then BadAccess else Next(regs, mem[regs[ptr].a := ValOf(regs, val)])
      else Undefined
    case MemSet(ptr, val, len) =>
      if ptr in regs && regs[ptr].Ref? && RefOk(rs, regs[ptr]) && HasVal(regs, val) && HasVal(regs, len)
         && ValOf(regs, len).Int? then
        if ValOf(regs, len).w == 0 then Next(regs, mem)
        else SourceMemSet(rs, regs, mem, regs[ptr], ValOf(regs, val), ValOf(regs, len).w)
      else Undefined
    case LoadByte(_, _) => Undefined
    case CallSlowPath(_, _, _) => Undefined
    case Phi(_, _, _, _, _) => Undefined
  }

  datatype SourceState = SourceState(id: BlockId, pc: nat, regs: map<Reg, Val>, mem: map<nat, Val>)

  datatype SourceOutcome =
    | Running(s: SourceState) | Done(v: Val) | PointerError | AccessError | NoMeaning

  function SourceStep(f: seq<Block>, rs: Regions, s: SourceState): SourceOutcome {
    var i := Find(f, s.id);
    if i == |f| || s.pc > |f[i].body| then NoMeaning
    else if s.pc < |f[i].body| then
      match SourceExec(rs, s.regs, s.mem, f[i].body[s.pc]) {
        case Next(regs, mem) => Running(SourceState(s.id, s.pc + 1, regs, mem))
        case LeftWindow => PointerError
        case BadAccess => AccessError
        case Undefined => NoMeaning
      }
    else
      match f[i].term
      case Br(to) => Running(SourceState(to, 0, s.regs, s.mem))
      case CondBr(c, yes, no) =>
        if c in s.regs && s.regs[c].Int?
        then Running(SourceState(if s.regs[c].w != 0 then yes else no, 0, s.regs, s.mem)) else NoMeaning
      case Ret(val) => if HasVal(s.regs, val) then Done(ValOf(s.regs, val)) else NoMeaning
  }

  function SourceRun(f: seq<Block>, rs: Regions, o: SourceOutcome, n: nat): SourceOutcome
    decreases n
  {
    if n == 0 || !o.Running? then o else SourceRun(f, rs, SourceStep(f, rs, o.s), n - 1)
  }

  // ---------------------------------------------------------------------- the machine

  datatype MachineResult = Ok(regs: map<Reg, Word>, mem: map<nat, Word>) | Refused | Trap | Stuck

  predicate HasWord(regs: map<Reg, Word>, o: Operand) {
    o.R? ==> o.reg in regs
  }

  function WordOf(regs: map<Reg, Word>, o: Operand): Word
    requires HasWord(regs, o)
  {
    match o
    case R(reg) => regs[reg]
    case Imm(w) => w
  }

  /** One instruction; prev is the block control came from, t the size table.
      Accesses above 2^31 trap; what happens to a program that gets at the table
      by itself is not said. */
  function Exec(t: seq<Byte>, prev: BlockId, regs: map<Reg, Word>, mem: map<nat, Word>, i: Instr): MachineResult {
    match i
    case AddressOf(dst, b) => if b < WORDS then Ok(regs[dst := b], mem) else Stuck
    case Bin(dst, op, a, c) =>
      if HasWord(regs, a) && HasWord(regs, c)
      then Ok(regs[dst := BinWord(op, WordOf(regs, a), WordOf(regs, c))], mem) else Stuck
    case Gep(dst, base, off, allZero) =>
      if base in regs && HasWord(regs, off)
      then Ok(regs[dst := if allZero then regs[base] else ToWord(regs[base] + WordOf(regs, off))], mem) else Stuck
    case PtrToInt(dst, src, bits) =>
      if HasWord(regs, src) then Ok(regs[dst := Truncate(WordOf(regs, src), bits)], mem) else Stuck
    case ICmp(dst, pred, _, a, c) =>
      if HasWord(regs, a) && HasWord(regs, c)
      then Ok(regs[dst := Bit(Holds(pred, WordOf(regs, a), WordOf(regs, c)))], mem) else Stuck
    case Load(dst, ptr) =>
      if ptr !in regs then Stuck
      else if regs[ptr] >= MARK then Trap
      else if regs[ptr] >= TABLE_START then Stuck
      else Ok(regs[dst := if regs[ptr] in mem then mem[regs[ptr]] else 0], mem)
    case Store(ptr, val) =>
      if ptr !in regs || !HasWord(regs, val) then Stuck
      else if regs[ptr] >= MARK then Trap
      else if regs[ptr] >= TABLE_START then Stuck
      else Ok(regs, mem[regs[ptr] := WordOf(regs, val)])
    case MemSet(ptr, val, len) =>
      if ptr !in regs || !HasWord(regs, val) || !HasWord(regs, len) then Stuck
      else if WordOf(regs, len) == 0 then Ok(regs, mem)
      else if regs[ptr] >= MARK then Trap
      else if regs[ptr] + WordOf(regs, len) > TABLE_START then Stuck
      else Ok(regs, Fill(mem, regs[ptr], WordOf(regs, len), WordOf(regs, val)))
    case LoadByte(dst, addr) =>
      if addr in regs then Ok(regs[dst := ReadTable(t, regs[addr] - TABLE_START)], mem) else Stuck
    case CallSlowPath(dst, base, p) =>
      if base !in regs || p !in regs then Stuck
      else
        match SlowPath(t, regs[base], regs[p]) {
          case Ptr(q) => Ok(regs[dst := q], mem)
          case Abort => Refused
        }
    case Phi(dst, from1, val1, from2, val2) =>
      if prev == from1 && val1 in regs then Ok(regs[dst := regs[val1]], mem)
      else if prev == from2 && prev != from1 && val2 in regs then Ok(regs[dst := regs[val2]], mem)
      else Stuck
  }

  datatype MachineState = MachineState(id: BlockId, pc: nat, prev: BlockId, regs: map<Reg, Word>, mem: map<nat, Word>)

  datatype MachineOutcome = Live(s: MachineState) | Returned(w: Word) | Aborted | Trapped | Wedged

  function MachineStep(f: seq<Block>, t: seq<Byte>, s: MachineState): MachineOutcome {
    var i := Find(f, s.id);
    if i == |f| || s.pc > |f[i].body| then Wedged
    else if s.pc < |f[i].body| then
      match Exec(t, s.prev, s.regs, s.mem, f[i].body[s.pc]) {
        case Ok(regs, mem) => Live(MachineState(s.id, s.pc + 1, s.prev, regs, mem))
        case Refused => Aborted
        case Trap => Trapped
        case Stuck => Wedged
      }
    else
      match f[i].term
      case Br(to) => Live(MachineState(to, 0, s.id, s.regs, s.mem))
      case CondBr(c, yes, no) =>
        if c in s.regs then Live(MachineState(if s.regs[c] != 0 then yes else no, 0, s.id, s.regs, s.mem)) else Wedged
      case Ret(val) => if HasWord(s.regs, val) then Returned(WordOf(s.regs, val)) else Wedged
  }

  function MachineRun(f: seq<Block>, t: seq<Byte>, o: MachineOutcome, n: nat): MachineOutcome
    decreases n
  {
    if n == 0 || !o.Live? then o else MachineRun(f, t, MachineStep(f, t, o.s), n - 1)
  }

  lemma {:induction false} RunAdd(f: seq<Block>, t: seq<Byte>, o: MachineOutcome, m: nat, n: nat)
    ensures MachineRun(f, t, o, m + n) == MachineRun(f, t, MachineRun(f, t, o, m), n)
    decreases m
  {
    if m != 0 && o.Live? {
      RunAdd(f, t, MachineStep(f, t, o.s), m - 1, n);
    } else if m != 0 {
      FinalStays(f, t, o, m + n);
      FinalStays(f, t, o, n);
    }
  }

  lemma FinalStays(f: seq<Block>, t: seq<Byte>, o: MachineOutcome, n: nat)
    requires !o.Live?
    ensures MachineRun(f, t, o, n) == o
  {
  }
}
