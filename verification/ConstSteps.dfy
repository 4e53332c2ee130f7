/** The instructions a constant is built from: one step on a known value, and the
    sum or union of two. */
module ConstSteps {
  import opened Words
  import opened Wrappers
  import opened Machine

  datatype ConstStep = ConstStep(reg: Reg, dst: Reg, op: AluOp, imm: int)

  /** `addi`, `addiw` or `slli`. The compressed forms with a zero immediate are
      hints. */
  function StepOf(i: Insn, len: nat): Option<ConstStep> {
    match i
    case Alu(op, rd, rs1, K(k)) =>
      if (op == Add || op == Addw || op == Sll) && (len == 4 || (k != 0 && rd != 0 && rd == rs1)) then
        Some(ConstStep(rs1, rd, op, k))
      else None
    case _ => None
  }

  /** The value a step makes of `v`. */
  function Stepped(st: ConstStep, v: Word): Word {
    if st.op == Sll then Wrap(v * Pow2(Ushift(Wrap(st.imm))))
    else if st.op == Addw then Sext(v + st.imm, W32)
    else Wrap(v + st.imm)
  }

  datatype ConstMerge = ConstMerge(dst: Reg, a: Reg, b: Reg, isOr: bool)

  function MergeOf(i: Insn): Option<ConstMerge> {
    match i
    case Alu(op, rd, rs1, R(rs2)) =>
      if (op == Add || op == Or) && rd != 0 && rs1 != 0 && rs2 != 0 then Some(ConstMerge(rd, rs1, rs2, op == Or))
          else None
    case _ => None
  }

  function Merged(m: ConstMerge, va: Word, vb: Word): Word {
    if m.isOr then BitWord(BOr, va, vb) else Wrap(va + vb)
  }

  lemma SextShifts(u: int, v: int)
    requires u % W64 == v % W64
    ensures Sext(u, W32) == Sext(v, W32)
  {
    var q := u / W64 - v / W64;
    assert u == v + W64 * q;
    DivModUnique(u, W32, v / W32 + W32 * q, v % W32);
  }

  /** A step computes on the register what it computes on the value. */
  lemma StepRight(i: Insn, len: nat, s: State)
    requires StepOf(i, len).Some? && StepOf(i, len).value.dst != 0
    ensures var st := StepOf(i, len).value;
            X(Effect(i, len, s), st.dst) == Stepped(st, X(s, st.reg)) && Writes(i) == {st.dst}
  {
    var st := StepOf(i, len).value;
    var v := X(s, st.reg);
    assert (v + Wrap(st.imm)) % W64 == (v + st.imm) % W64 by { WrapSum(v, st.imm); }
    SextShifts(v + Wrap(st.imm), v + st.imm);
    hide Sext, Pow2, Ushift;
  }

  lemma WrapSum(v: int, k: int)
    ensures (v + Wrap(k)) % W64 == (v + k) % W64
  {
  }

  lemma MergeRight(i: Insn, len: nat, s: State)
    requires MergeOf(i).Some?
    ensures var m := MergeOf(i).value;
            X(Effect(i, len, s), m.dst) == Merged(m, X(s, m.a), X(s, m.b)) && Writes(i) == {m.dst}
  {
  }
}
