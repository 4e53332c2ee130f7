/** Which instructions the cores take as pairs, in the instructions' own terms: each pair,
    the register to rename or the operands to swap that would make it one, and each core. */
module FusionExact {
  import opened Machine
  import opened Fusion

  const LOGICS: set<AluOp> := {And, Or, Xor}

  /** `op rd, rs1, rs2`, and `op rd, rs1, imm`. */
  predicate Regs(i: Insn, ops: set<AluOp>) {
    i.Alu? && i.src.R? && i.op in ops
  }

  predicate Imms(i: Insn, ops: set<AluOp>) {
    i.Alu? && i.src.K? && i.op in ops
  }

  /** A two-byte `mv`. */
  predicate IsMv(i: Insn, len: nat) {
    len == 2 && Regs(i, {Add}) && i.rs1 == 0
  }


  /** The operations of the pairs that are tied by a register. */
  predicate Halves(p: Pair, i: Insn, j: Insn) {
    match p
    case LogicRR => Regs(i, LOGICS) && Regs(j, LOGICS)
    case LogicRI => Regs(i, LOGICS) && Imms(j, LOGICS)
    case LogicIR => Imms(i, LOGICS) && Regs(j, LOGICS)
    case MulAdd => (Regs(i, {Mul}) && Regs(j, {Add})) || (Regs(i, {Mulw}) && Regs(j, {Addw}))
    case ShiftPair =>
      || (Imms(i, {Sll}) && Imms(j, {Srl, Sra}) && i.src.k <= j.src.k)
      || (Imms(i, {Sllw}) && Imms(j, {Srlw, Sraw}) && i.src.k <= j.src.k)
    case LuiAddi => i.Lui? && Imms(j, {Add, Addw})
    case AuipcAddi => i.Auipc? && Imms(j, {Add})
    case ZextWPair => Imms(i, {Sll}) && Imms(j, {Srl}) && i.src.k == 32 == j.src.k
    case ShiftedZextW => Imms(i, {Sll}) && Imms(j, {Srl}) && i.src.k == 32 && j.src.k <= 31
    case ZextHPair => Imms(i, {Sll}) && Imms(j, {Srl}) && i.src.k == 48 == j.src.k
    case _ => false
  }

  predicate Second(j: Insn, r: Reg) {
    j.Alu? && j.src == R(r)
  }

  /** `op d, d, ..`. */
  predicate OnTo(d: Reg, j: Insn) {
    j.Alu? && d != 0 && j.rd == d && j.rs1 == d
  }

  /** `i` and `j` are the pair as they stand. */
  predicate Together(p: Pair, i: Insn, m: nat, j: Insn, n: nat) {
    match p
    case AddMem =>
      && Regs(i, {Add}) && !IsMv(i, m) && i.rd != 0 && i.rd != i.rs1 && !Second(i, i.rd)
      && (j.Load? || j.Store?) && j.base == i.rd && j.off == 0
    case CMov => i.Branch? && i.off == m + 2 && IsMv(j, n)
    case MulAdd => Halves(p, i, j) && OnTo(XDest(i), j) && !Second(j, XDest(i))
    case _ => Halves(p, i, j) && OnTo(XDest(i), j)
  }

  /** They are but for the destination of the second, which nothing it reads stands in the
      way of. */
  predicate ToRename(p: Pair, i: Insn, j: Insn) {
    var d := XDest(i);
    Halves(p, i, j) && d != 0 && j.rs1 == d && j.rd != d && j.rd != 0 && !Second(j, j.rd)
  }

  /** They are but for the order of the second's operands. */
  predicate ToSwap(p: Pair, i: Insn, j: Insn, n: nat) {
    var d := XDest(i);
    && (p.LogicRR? || p.LogicIR? || p.MulAdd?) && Halves(p, i, j) && !(p.MulAdd? && IsMv(j, n))
    && d != 0 && j.rd == d && j.rs1 != d && Second(j, d)
  }

  predicate IsHint(i: Insn, len: nat) {
    len == 2 && i.Alu? && i.src.K? && i.rd == 0
  }

  lemma RegsDecode(u: Unit)
    ensures var i, k := u.insn, u.Op().op;
            && (Logic(k) <==> Regs(i, LOGICS)) && (k == OpMul <==> Regs(i, {Mul})) && (k == OpMulw <==> Regs(i, {Mulw}))
            && (k == OpAdd <==> Regs(i, {Add}) && !IsMv(i, u.len)) && (k == OpAddw <==> Regs(i, {Addw}))
            && (k == OpLui <==> i.Lui?) && (k == OpAuipc <==> i.Auipc?)
  {
  }

  lemma ImmsDecode(u: Unit)
    ensures var i, k, hint := u.insn, u.Op().op, IsHint(u.insn, u.len);
            && (LogicImm(k) <==> Imms(i, LOGICS) && !hint) && (k == OpAddi <==> Imms(i, {Add}) && !hint)
            && (k == OpAddiw <==> Imms(i, {Addw}) && !hint)
            && (k == OpSlli <==> Imms(i, {Sll}) && !hint) && (k == OpSrli <==> Imms(i, {Srl}) && !hint)
            && (k == OpSrai <==> Imms(i, {Sra}) && !hint) && (k == OpSlliw <==> Imms(i, {Sllw}) && !hint)
            && (k == OpSrliw <==> Imms(i, {Srlw}) && !hint) && (k == OpSraiw <==> Imms(i, {Sraw}) && !hint)
    ensures u.insn.Alu? && u.insn.src.K? && !IsHint(u.insn, u.len) ==> u.Op().imm == u.insn.src.k
  {
  }

  /** The operations, but for the forms that stand for something else. */
  lemma ShapeIs(p: Pair, x: Unit, y: Unit)
    ensures Shape(p, x.Op(), y.Op()) <==>
            && Halves(p, x.insn, y.insn) && !IsHint(x.insn, x.len) && !IsHint(y.insn, y.len)
            && !(p.MulAdd? && IsMv(y.insn, y.len))
  {
    RegsDecode(x);
    RegsDecode(y);
    ImmsDecode(x);
    ImmsDecode(y);
    hide FuseDecode, Logic, LogicImm;
  }

  /** The registers of the halves. */
  lemma FieldsAre(p: Pair, x: Unit, y: Unit)
    requires Halves(p, x.insn, y.insn) && !IsHint(x.insn, x.len) && !IsHint(y.insn, y.len)
    ensures y.insn.Alu? && x.Op().rd == XDest(x.insn)
    ensures y.Op().rd == y.insn.rd && y.Op().rs1 == y.insn.rs1
    ensures y.Op().rs2 == match y.insn.src case R(r) => r case K(_) => NoReg
  {
    hide RegKind, ImmKind;
  }

  lemma FusesExactly(p: Pair, x: Unit, y: Unit)
    ensures Fuses(p, x, y) <==> Together(p, x.insn, x.len, y.insn, y.len)
  {
    if p.AddMem? {
      AddMemIs(x, y);
    } else if p.CMov? {
      MovesOver(x, y);
    } else {
      ShapeIs(p, x, y);
      if Shape(p, x.Op(), y.Op()) { FieldsAre(p, x, y); }
      hide Shape, Halves, FuseDecode;
    }
  }

  lemma AddMemIs(x: Unit, y: Unit)
    ensures Fuses(AddMem, x, y) <==> Together(AddMem, x.insn, x.len, y.insn, y.len)
  {
  }

  lemma MovesOver(x: Unit, y: Unit)
    ensures Fuses(CMov, x, y) <==> Together(CMov, x.insn, x.len, y.insn, y.len)
  {
  }

  lemma RenamesExactly(p: Pair, x: Unit, y: Unit)
    ensures FuseTest(p, x.Op(), x.len, y.Op(), y.len) == Rename <==> ToRename(p, x.insn, y.insn)
  {
    if !p.AddMem? && !p.CMov? {
      ShapeIs(p, x, y);
      if Shape(p, x.Op(), y.Op()) { FieldsAre(p, x, y); }
      hide Shape, FuseDecode;
    }
  }

  lemma SwapsExactly(p: Pair, x: Unit, y: Unit)
    ensures FuseTest(p, x.Op(), x.len, y.Op(), y.len) == Swap <==> ToSwap(p, x.insn, y.insn, y.len)
  {
    if !p.AddMem? && !p.CMov? {
      ShapeIs(p, x, y);
      if Shape(p, x.Op(), y.Op()) { FieldsAre(p, x, y); }
      hide Shape, FuseDecode;
    }
  }

  /** What each core takes together. */
  predicate TakenBy(c: Core, i: Insn, m: nat, j: Insn, n: nat) {
    match c
    case X100 =>
      || Together(LogicRR, i, m, j, n) || Together(LogicRI, i, m, j, n) || Together(LogicIR, i, m, j, n)
      || Together(MulAdd, i, m, j, n) || Together(AddMem, i, m, j, n) || Together(ShiftPair, i, m, j, n)
    case SiFive => Together(CMov, i, m, j, n) || Together(LuiAddi, i, m, j, n) || Together(AuipcAddi, i, m, j, n)
    case XiangShan =>
      Together(ZextWPair, i, m, j, n) || Together(ShiftedZextW, i, m, j, n) || Together(ZextHPair, i, m, j, n)
  }

  lemma TakesExactly(c: Core, x: Unit, y: Unit)
    ensures FirstPair(c, x, y, 0).Some? <==> TakenBy(c, x.insn, x.len, y.insn, y.len)
  {
    hide Together, Fuses, FirstPair;
    forall p: Pair ensures Fuses(p, x, y) <==> Together(p, x.insn, x.len, y.insn, y.len) { FusesExactly(p, x, y); }
    SearchFrom(c, x, y);
  }

  lemma SearchFrom(c: Core, x: Unit, y: Unit)
    ensures FirstPair(c, x, y, 0).Some? <==> exists p: Pair :: p.Of() == c && Fuses(p, x, y)
  {
    hide Fuses, FirstPair;
    Search(c, x, y, 0);
    if p: Pair :| p.Of() == c && Fuses(p, x, y) {
      ListedAt(p);
      assert Pairs[Position(p)].Of() == c && Fuses(Pairs[Position(p)], x, y);
    }
  }

  lemma {:induction false} Search(c: Core, x: Unit, y: Unit, from: nat)
    requires from <= |Pairs|
    ensures FirstPair(c, x, y, from).Some? <==>
            exists k :: from <= k < |Pairs| && Pairs[k].Of() == c && Fuses(Pairs[k], x, y)
    decreases |Pairs| - from
  {
    hide Fuses;
    if from < |Pairs| {
      Search(c, x, y, from + 1);
    }
  }
}
