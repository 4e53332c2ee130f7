/** A small RV64 machine: 32 integer and 32 floating-point registers, a byte
    memory, and a program that maps an address to the instruction there.
    Meanings are those of The RISC-V Instruction Set Manual, Volume I
    (20191213), sections 2.4 to 2.6, 5.2 and 5.3. */
module Machine {
  import opened Words

  type Reg = r: int | 0 <= r < 32
  type Regs = s: seq<Word> | |s| == 32 ghost witness seq(32, i => 0)
  /** Bytes never written read as zero. */
  type Memory = map<Word, Byte>

  datatype State = State(pc: Word, x: Regs, f: Regs, mem: Memory)

  // ---- instructions ----

  datatype MemKind =
    | LB | LH | LW | LD | LBU | LHU | LWU | SB | SH | SW | SD | FLW | FLD | FSW | FSD
  {
    predicate IsStore() {
      SB? || SH? || SW? || SD? || FSW? || FSD?
    }

    predicate IsFp() {
      FLW? || FLD? || FSW? || FSD?
    }

    function Width(): nat {
      match this
      case LB | LBU | SB => 1
      case LH | LHU | SH => 2
      case LW | LWU | SW | FLW | FSW => 4
      case _ => 8
    }
  }

  datatype AluOp =
    | Add | Sub | Sll | Slt | Sltu | Xor | Srl | Sra | Or | And | Mul
    | Addw | Subw | Sllw | Srlw | Sraw | Mulw
    | SextB | SextH | ZextH | ZextW                 // one operand
    | ShaddUw(shift: nat)                           // add.uw and shNadd.uw
    | SlliUw

  /** The second operand of a computation. An immediate form computes what the
      register form does on the sign-extended immediate. */
  datatype Src = R(r: Reg) | K(k: int)

  datatype Cond = Beq | Bne | Blt | Bge | Bltu | Bgeu

  datatype Insn =
    | Nop
    | Alu(op: AluOp, rd: Reg, rs1: Reg, src: Src)
    | Lui(rd: Reg, imm: int)                        // the shifted immediate
    | Auipc(rd: Reg, imm: int)
    | Load(kind: MemKind, rd: Reg, base: Reg, off: int)
    | Store(kind: MemKind, data: Reg, base: Reg, off: int)
    | FmvXD(rd: Reg, fs: Reg)
    | FmvXW(rd: Reg, fs: Reg)
    | FmvDX(fd: Reg, rs: Reg)
    | FmvWX(fd: Reg, rs: Reg)
    | Branch(cond: Cond, rs1: Reg, rs2: Reg, off: int)
    | Jal(rd: Reg, off: int)
    | Jalr(rd: Reg, rs1: Reg, imm: int)
    | Then(first: Insn, rest: Insn)                 // only in rewritten programs

  // ---- values ----

  function Ushift(b: Word): nat { b % 64 }

  function Wshift(b: Word): nat { b % 32 }

  function AluVal(op: AluOp, a: Word, b: Word): Word {
    match op
    case Add => Wrap(a + b)
    case Sub => Wrap(a - b)
    case Sll => Wrap(a * Pow2(Ushift(b)))
    case Slt => if Signed(a) < Signed(b) then 1 else 0
    case Sltu => if a < b then 1 else 0
    case Xor => BitWord(BXor, a, b)
    case Srl => Wrap(a / Pow2(Ushift(b)))
    case Sra => Wrap(Signed(a) / Pow2(Ushift(b)))
    case Or => BitWord(BOr, a, b)
    case And => BitWord(BAnd, a, b)
    case Mul => Wrap(a * b)
    case Addw => Sext(a + b, W32)
    case Subw => Sext(a - b, W32)
    case Sllw => Sext(a * Pow2(Wshift(b)), W32)
    case Srlw => Sext((a % W32) / Pow2(Wshift(b)), W32)
    case Sraw => Sext(Signed(Sext(a, W32)) / Pow2(Wshift(b)), W32)
    case Mulw => Sext(a * b, W32)
    case SextB => Sext(a, 0x100)
    case SextH => Sext(a, 0x1_0000)
    case ZextH => a % 0x1_0000
    case ZextW => a % W32
    case ShaddUw(n) => Wrap(b + (a % W32) * Pow2(n))
    case SlliUw => Wrap((a % W32) * Pow2(Ushift(b)))
  }

  function Taken(c: Cond, a: Word, b: Word): bool {
    match c
    case Beq => a == b
    case Bne => a != b
    case Blt => Signed(a) < Signed(b)
    case Bge => Signed(a) >= Signed(b)
    case Bltu => a < b
    case Bgeu => a >= b
  }

  /** x0 reads as zero and ignores writes. */
  function X(s: State, r: Reg): Word {
    if r == 0 then 0 else s.x[r]
  }

  function SetX(s: State, r: Reg, v: Word): State {
    if r == 0 then s else s.(x := s.x[r := v])
  }

  function SrcVal(src: Src, s: State): Word {
    match src
    case R(r) => X(s, r)
    case K(k) => Wrap(k)
  }

  // ---- memory ----

  /** How far `b` lies above `a`, modulo the address space. */
  function Gap(a: Word, b: Word): Word {
    if a <= b then b - a else b - a + W64
  }

  predicate InRange(a: Word, w: nat, b: Word) {
    Gap(a, b) < w
  }

  function Byte0(m: Memory, a: Word): Byte {
    if a in m then m[a] else 0
  }

  function Next(a: Word): Word {
    if a + 1 < W64 then a + 1 else 0
  }

  /** The little-endian value of the `w` bytes from `a` on. */
  function LoadLE(m: Memory, a: Word, w: nat): (v: nat)
    decreases w
  {
    if w == 0 then 0 else Byte0(m, a) + 256 * LoadLE(m, Next(a), w - 1)
  }

  ghost function StoreLE(m: Memory, a: Word, w: nat, v: nat): (m': Memory) {
    map b: Word | b in m || InRange(a, w, b) :: if InRange(a, w, b) then Digit(v, Gap(a, b)) else m[b]
  }

  /** A single-precision value in a 64-bit register is NaN-boxed. */
  function Box(v: int): Word {
    v % W32 + (W64 - W32)
  }

  /** What a load leaves in its register, given the bytes it read. */
  function Extend(k: MemKind, v: nat): Word
    requires !k.IsStore()
  {
    match k
    case LB => Sext(v, 0x100)
    case LH => Sext(v, 0x1_0000)
    case LW => Sext(v, W32)
    case FLW => Box(v)
    case _ => Wrap(v)
  }

  function Address(s: State, base: Reg, off: int): Word {
    Wrap(X(s, base) + off)
  }

  ghost function LoadAt(k: MemKind, s: State, base: Reg, off: int): nat {
    LoadLE(s.mem, Address(s, base, off), k.Width())
  }

  /** The register a store of kind `k` writes to memory from. */
  function StoredReg(k: MemKind, s: State, data: Reg): Word {
    if k.IsFp() then s.f[data] else X(s, data)
  }

  // ---- one instruction ----

  /** The integer register an instruction writes, x0 for none. */
  function XDest(i: Insn): Reg {
    match i
    case Alu(_, rd, _, _) => rd
    case Lui(rd, _) => rd
    case Auipc(rd, _) => rd
    case Load(k, rd, _, _) => if k.IsFp() then 0 else rd
    case FmvXD(rd, _) => rd
    case FmvXW(rd, _) => rd
    case Jal(rd, _) => rd
    case Jalr(rd, _, _) => rd
    case _ => 0
  }

  /** The value it writes there. */
  ghost function XResult(i: Insn, len: nat, s: State): Word {
    match i
    case Alu(op, _, rs1, src) => AluVal(op, X(s, rs1), SrcVal(src, s))
    case Lui(_, imm) => Wrap(imm)
    case Auipc(_, imm) => Wrap(s.pc + imm)
    case Load(k, _, base, off) => if k.IsStore() then 0 else Extend(k, LoadAt(k, s, base, off))
    case FmvXD(_, fs) => s.f[fs]
    case FmvXW(_, fs) => Sext(s.f[fs], W32)
    case Jal(_, _) => Wrap(s.pc + len)
    case Jalr(_, _, _) => Wrap(s.pc + len)
    case _ => 0
  }

  /** The floating-point register an instruction writes, 32 for none. */
  function FDest(i: Insn): (r: int)
    ensures 0 <= r <= 32
  {
    match i
    case Load(k, rd, _, _) => if k.IsFp() then rd else 32
    case FmvDX(fd, _) => fd
    case FmvWX(fd, _) => fd
    case _ => 32
  }

  ghost function FResult(i: Insn, s: State): Word {
    match i
    case Load(k, _, base, off) => if k.IsStore() then 0 else Extend(k, LoadAt(k, s, base, off))
    case FmvDX(_, rs) => X(s, rs)
    case FmvWX(_, rs) => Box(X(s, rs))
    case _ => 0
  }

  ghost function MemResult(i: Insn, s: State): Memory {
    match i
    case Store(k, data, base, off) =>
      StoreLE(s.mem, Address(s, base, off), k.Width(), StoredReg(k, s, data))
    case _ => s.mem
  }

  ghost function XRegs(i: Insn, len: nat, s: State): Regs {
    if XDest(i) == 0 then s.x else s.x[XDest(i) := XResult(i, len, s)]
  }

  ghost function FRegs(i: Insn, s: State): Regs {
    if FDest(i) == 32 then s.f else s.f[FDest(i) := FResult(i, s)]
  }

  /** Everything the instruction does except move the program counter. */
  ghost function Effect(i: Insn, len: nat, s: State): State
    decreases i
  {
    if i.Then? then Effect(i.rest, len, Effect(i.first, len, s))
    else State(s.pc, XRegs(i, len, s), FRegs(i, s), MemResult(i, s))
  }

  function ClearBit0(v: Word): Word {
    v - v % 2
  }

  ghost function NextPc(i: Insn, len: nat, s: State): Word {
    match i
    case Branch(c, rs1, rs2, off) => if Taken(c, X(s, rs1), X(s, rs2)) then Wrap(s.pc + off) else Wrap(s.pc + len)
    case Jal(_, off) => Wrap(s.pc + off)
    case Jalr(_, rs1, imm) => ClearBit0(Wrap(X(s, rs1) + imm))
    case Then(a, b) => NextPc(b, len, Effect(a, len, s))
    case _ => Wrap(s.pc + len)
  }

  /** A transfer of control: the effect ends the straight line. */
  predicate IsTransfer(i: Insn) {
    i.Branch? || i.Jal? || i.Jalr? || (i.Then? && IsTransfer(i.rest))
  }

  /** Control goes on to the next instruction. */
  predicate IsStraight(i: Insn) {
    !IsTransfer(i)
  }

  predicate IsIndirect(i: Insn) {
    i.Jalr? || (i.Then? && IsIndirect(i.rest))
  }

  // ---- what an instruction names ----

  function NonZero(r: Reg): set<Reg> {
    if r == 0 then {} else {r}
  }

  function SrcReads(src: Src): set<Reg> {
    match src
    case R(r) => NonZero(r)
    case K(_) => {}
  }

  /** The integer registers an instruction reads before writing them; x0 is never
      counted. */
  function Reads(i: Insn): set<Reg> {
    match i
    case Alu(_, _, rs1, src) => NonZero(rs1) + SrcReads(src)
    case Load(_, _, base, _) => NonZero(base)
    case Store(k, data, base, _) => NonZero(base) + if k.IsFp() then {} else NonZero(data)
    case FmvDX(_, rs) => NonZero(rs)
    case FmvWX(_, rs) => NonZero(rs)
    case Branch(_, rs1, rs2, _) => NonZero(rs1) + NonZero(rs2)
    case Jalr(_, rs1, _) => NonZero(rs1)
    case Then(a, b) => Reads(a) + (Reads(b) - Writes(a))
    case _ => {}
  }

  function Writes(i: Insn): set<Reg> {
    if i.Then? then Writes(i.first) + Writes(i.rest) else NonZero(XDest(i))
  }

  function FWrites(i: Insn): set<Reg> {
    if i.Then? then FWrites(i.first) + FWrites(i.rest)
    else if FDest(i) < 32 then {FDest(i)} else {}
  }

  predicate TouchesMem(i: Insn) {
    i.Load? || i.Store? || (i.Then? && (TouchesMem(i.first) || TouchesMem(i.rest)))
  }

  predicate WritesMem(i: Insn) {
    i.Store? || (i.Then? && (WritesMem(i.first) || WritesMem(i.rest)))
  }

  // ---- programs ----

  /** `names` holds every register some field of the encoding spells, whether or
      not this format reads it as a register. */
  datatype Decoded = Decoded(insn: Insn, len: nat, names: set<Reg>)

  /** One section. `code` has the instruction starts of the linear sweep;
      `landings` are the addresses an indirect jump is assumed to reach. */
  datatype Program = Program(vaddr: Word, size: nat, code: map<Word, Decoded>, landings: set<Word>)

  /** An instruction of the original code, as the decoders hand it over. */
  predicate PlainInsn(i: Insn) {
    match i
    case Alu(_, _, _, K(k)) => -2048 <= k <= 2047
    case Lui(_, imm) => -0x8000_0000 <= imm <= 0x7fff_ffff
    case Load(k, _, _, off) => !k.IsStore() && -2048 <= off <= 2047
    case Store(k, _, _, off) => k.IsStore() && -2048 <= off <= 2047
    case Branch(_, _, _, off) => -4096 <= off <= 4094
    case Jal(_, off) => -0x10_0000 <= off <= 0xf_fffe
    case Then(_, _) => false
    case _ => true
  }

  /** Four bytes can be read at `a`; the checks look at nothing closer to the end. */
  predicate Readable(p: Program, a: Word) {
    p.vaddr <= a && a + 4 <= p.vaddr + p.size
  }

  ghost predicate WellFormed(p: Program) {
    && p.vaddr + p.size < W64
    && (forall a :: a in p.code ==> WellPlaced(p, a, p.code[a]))
    && (forall a, b :: a in p.code && b in p.code && a < b ==> a + p.code[a].len <= b)
  }

  ghost predicate WellPlaced(p: Program, a: Word, d: Decoded) {
    && (d.len == 2 || d.len == 4)
    && (a - p.vaddr) % 2 == 0
    && p.vaddr <= a && a + d.len <= p.vaddr + p.size
    && PlainInsn(d.insn)
    && Reads(d.insn) + Writes(d.insn) <= d.names
  }

  ghost function Exec(d: Decoded, s: State): State {
    Effect(d.insn, d.len, s).(pc := NextPc(d.insn, d.len, s))
  }

  /** Execution goes on at `s` unless there is no instruction there or an
      indirect jump leaves the assumed landings; then the machine halts. */
  ghost predicate Runs(p: Program, s: State) {
    s.pc in p.code && (IsIndirect(p.code[s.pc].insn) ==> Exec(p.code[s.pc], s).pc in p.landings)
  }

  ghost function Step(p: Program, s: State): State {
    if Runs(p, s) then Exec(p.code[s.pc], s) else s
  }

  ghost function Run(p: Program, s: State, n: nat): State {
    if n == 0 then s else Step(p, Run(p, s, n - 1))
  }

  // ---- frame lemmas ----

  /** A register the instruction does not write keeps its value. */
  lemma {:induction false} EffectKeeps(i: Insn, len: nat, s: State, r: Reg)
    ensures r !in Writes(i) ==> X(Effect(i, len, s), r) == X(s, r)
    ensures r !in FWrites(i) ==> Effect(i, len, s).f[r] == s.f[r]
    ensures !WritesMem(i) ==> Effect(i, len, s).mem == s.mem
    ensures Effect(i, len, s).pc == s.pc
    decreases i
  {
    if i.Then? {
      EffectKeeps(i.first, len, s, r);
      EffectKeeps(i.rest, len, Effect(i.first, len, s), r);
    }
  }

  lemma {:induction false} StraightNext(i: Insn, len: nat, s: State)
    requires IsStraight(i)
    ensures NextPc(i, len, s) == Wrap(s.pc + len) && !IsIndirect(i)
    decreases i
  {
    hide Taken, ClearBit0, Wrap;
    if i.Then? {
      EffectKeeps(i.first, len, s, 1);
      StraightNext(i.rest, len, Effect(i.first, len, s));
    }
  }

  lemma XIgnores(s: State, r: Reg, v: Word, q: Reg)
    ensures q != r ==> X(SetX(s, r, v), q) == X(s, q)
  {
  }

  lemma XResultIgnores(i: Insn, len: nat, s: State, r: Reg, v: Word)
    requires r !in Reads(i) && !i.Then?
    ensures XResult(i, len, SetX(s, r, v)) == XResult(i, len, s)
  {
    hide AluVal, Sext, Extend, LoadLE, Writes;
    forall q: Reg | q != r ensures X(SetX(s, r, v), q) == X(s, q) { XIgnores(s, r, v, q); }
  }

  lemma ResultsIgnore(i: Insn, len: nat, s: State, r: Reg, v: Word)
    requires r !in Reads(i) && !i.Then?
    ensures FResult(i, SetX(s, r, v)) == FResult(i, s)
    ensures MemResult(i, SetX(s, r, v)) == MemResult(i, s)
    ensures NextPc(i, len, SetX(s, r, v)) == NextPc(i, len, s)
  {
    hide Taken, Box, Extend, LoadLE, StoreLE, ClearBit0, Effect, Writes;
    forall q: Reg | q != r ensures X(SetX(s, r, v), q) == X(s, q) { XIgnores(s, r, v, q); }
  }

  /** A register the instruction does not read cannot influence it. */
  lemma {:induction false} EffectIgnores(i: Insn, len: nat, s: State, r: Reg, v: Word)
    requires r !in Reads(i)
    ensures r in Writes(i) ==> Effect(i, len, SetX(s, r, v)) == Effect(i, len, s)
    ensures r !in Writes(i) ==> Effect(i, len, SetX(s, r, v)) == SetX(Effect(i, len, s), r, v)
    ensures NextPc(i, len, SetX(s, r, v)) == NextPc(i, len, s)
    decreases i
  {
    hide XResult, FResult, MemResult;
    if i.Then? {
      EffectIgnores(i.first, len, s, r, v);
      if r !in Writes(i.first) {
        EffectIgnores(i.rest, len, Effect(i.first, len, s), r, v);
      }
    } else {
      hide Reads, NextPc;
      XResultIgnores(i, len, s, r, v);
      ResultsIgnore(i, len, s, r, v);
    }
  }

  /** An instruction that touches no memory does not depend on it. */
  lemma EffectIgnoresMemory(i: Insn, len: nat, s: State, m: Memory)
    requires !TouchesMem(i) && !i.Then?
    ensures Effect(i, len, s.(mem := m)) == Effect(i, len, s).(mem := m)
    ensures NextPc(i, len, s.(mem := m)) == NextPc(i, len, s)
  {
    hide AluVal, Sext, Box, Taken, ClearBit0, Wrap;
    forall q: Reg ensures X(s.(mem := m), q) == X(s, q) {}
  }

  /** A load depends on memory through the value it reads, and only there. */
  lemma LoadSees(i: Insn, len: nat, s: State, m: Memory)
    requires i.Load? && LoadAt(i.kind, s.(mem := m), i.base, i.off) == LoadAt(i.kind, s, i.base, i.off)
    ensures Effect(i, len, s.(mem := m)) == Effect(i, len, s).(mem := m)
  {
    hide LoadLE, Extend;
  }

  lemma StoreEffect(i: Insn, len: nat, s: State)
    requires i.Store?
    ensures Effect(i, len, s) == s.(mem := MemResult(i, s)) && NextPc(i, len, s) == Wrap(s.pc + len)
  {
    hide MemResult, Wrap;
  }

  /** Two instructions do not overlap. */
  lemma Apart(p: Program, a: Word, b: Word)
    requires WellFormed(p) && a in p.code && b in p.code
    ensures a < b ==> a + p.code[a].len <= b
    ensures b < a ==> b + p.code[b].len <= a
  {
  }

  lemma Placed(p: Program, a: Word)
    requires WellFormed(p) && a in p.code
    ensures PlainInsn(p.code[a].insn) && (p.code[a].len == 2 || p.code[a].len == 4)
    ensures p.vaddr <= a && a + p.code[a].len <= p.vaddr + p.size < W64
  {
    assert WellPlaced(p, a, p.code[a]);
  }
}
