/** Which chains are open: a constant's, for as long as a straight line goes on with it. */
module ConstChainsExact {
  import opened Words
  import opened Machine
  import opened Sweep
  import opened ConstSteps
  import opened ConstChains
  import opened WindowExact
  import Lines

  /** `addi`, `addiw` or `slli` from `r` into `q`; in two bytes, in place and not by zero. */
  predicate GoesInto(d: Decoded, r: Reg, q: Reg) {
    && d.insn.Alu? && d.insn.src.K? && d.insn == Alu(d.insn.op, q, r, d.insn.src) && q != 0
    && (d.insn.op == Add || d.insn.op == Addw || d.insn.op == Sll)
    && (d.len == 4 || (q == r && d.insn.src.k != 0))
  }

  /** The constant in `r` is left there. */
  predicate StaysIn(d: Decoded, r: Reg) {
    (r !in Reads(d.insn) + Writes(d.insn) && !d.insn.Jal? && !d.insn.Jalr?)
    || (d.insn.Alu? && d.insn.rd != r && GoesInto(d, r, d.insn.rd))
  }

  /** The registers the constant is in, one after another along the line. */
  ghost predicate Along(p: Program, line: seq<Word>, regs: seq<Reg>) {
    |regs| == |line| + 1 && forall k :: 0 <= k < |line| ==> On(p, line[k], regs[k], regs[k + 1])
  }

  ghost predicate On(p: Program, c: Word, r: Reg, q: Reg) {
    c in p.code && !IsTarget(p, c) && (GoesInto(p.code[c], r, q) || (q == r && StaysIn(p.code[c], r)))
  }

  /** How often it was gone on with. */
  function Taken(p: Program, line: seq<Word>, regs: seq<Reg>): nat
    requires |regs| == |line| + 1
  {
    if line == [] then 0
    else
      var n := |line| - 1;
      Taken(p, line[..n], regs[..n + 1]) +
      if line[n] in p.code && GoesInto(p.code[line[n]], regs[n], regs[n + 1]) then 1 else 0
  }

  lemma FlowsOn(live: Live, d: Decoded, a: Word, r: Reg, q: Reg)
    requires r in live && r != 0 && (GoesInto(d, r, q) || (q == r && StaysIn(d, r)))
    ensures var after := Flows(live, d.insn, d.len, a);
            && q in after && q != 0 && after[q].start == live[r].start
            && after[q].insns == live[r].insns + if GoesInto(d, r, q) then 1 else 0
  {
    hide Stepped, Merged, Union;
  }

  lemma {:induction false} NoneInZero(p: Program, a: Word)
    ensures 0 !in LiveAt(p, a)
    decreases a
  {
    hide IsTarget, Stepped, Union, Reads, Writes;
    if Prev(p, a).Some? {
      NoneInZero(p, Prev(p, a).value);
    }
  }

  lemma Begins(live: Live, i: Insn, len: nat, a: Word, r: Reg, k: int)
    requires 0 !in live && Puts(i, r, k)
    ensures var after := Flows(live, i, len, a); r in after && after[r] == Chain(Wrap(k), 1, a)
  {
    hide Stepped, Merged, Union;
  }

  /** The chain of a constant is open wherever a straight line has gone on with it, as long as
      it has been gone on with. */
  lemma {:induction false} ChainsGoOn(p: Program, a: Word, r: Reg, k: int, line: seq<Word>, regs: seq<Reg>)
    requires WellFormed(p) && a in p.code && Puts(p.code[a].insn, r, k)
    requires a + p.code[a].len < W64 && Lines.Chain(p, a + p.code[a].len, line) && Along(p, line, regs) && regs[0] == r
    requires !IsTarget(p, Lines.AfterAll(p, a + p.code[a].len, line))
    ensures var live, q := LiveAt(p, Lines.AfterAll(p, a + p.code[a].len, line)), regs[|line|];
            q in live && q != 0 && live[q].start == a && live[q].insns == 1 + Taken(p, line, regs)
    decreases |line|
  {
    hide WellFormed, IsTarget, Flows, GoesInto, StaysIn, Puts, Lines.Chain;
    var at := a + p.code[a].len;
    if line == [] {
      PrevOfNext(p, a);
      NoneInZero(p, a);
      Begins(LiveAt(p, a), p.code[a].insn, p.code[a].len, a, r, k);
      PutsNonZero(p.code[a].insn, r, k);
    } else {
      var n := |line| - 1;
      Lines.ChainInit(p, at, line);
      assert On(p, line[n], regs[n], regs[n + 1]);
      forall j | 0 <= j < n ensures On(p, line[..n][j], regs[..n + 1][j], regs[..n + 1][j + 1]) {
        assert On(p, line[j], regs[j], regs[j + 1]);
      }
      ChainsGoOn(p, a, r, k, line[..n], regs[..n + 1]);
      PrevOfNext(p, line[n]);
      FlowsOn(LiveAt(p, line[n]), p.code[line[n]], line[n], regs[n], regs[n + 1]);
    }
  }

  lemma PutsNonZero(i: Insn, r: Reg, k: int)
    requires Puts(i, r, k)
    ensures r != 0
  {
  }

  /** Two chains are joined by `add` and `or` in the register they write. */
  lemma Joins(p: Program, c: Word, ra: Reg, rb: Reg, q: Reg, op: AluOp)
    requires WellFormed(p) && c in p.code && p.code[c].insn == Alu(op, q, ra, R(rb)) && (op == Add || op == Or)
             && q != 0
    requires ra in LiveAt(p, c) && rb in LiveAt(p, c) && !IsTarget(p, Wrap(c + p.code[c].len))
    ensures var live, after := LiveAt(p, c), LiveAt(p, Wrap(c + p.code[c].len));
            && q in after && after[q].insns > live[ra].insns && after[q].insns > live[rb].insns
            && (live[ra].start != live[rb].start ==> after[q].insns == live[ra].insns + live[rb].insns + 1)
            && (q != ra ==> ra !in after) && (q != rb ==> rb !in after)
  {
    hide WellFormed, IsTarget, Merged;
    Placed(p, c);
    PrevOfNext(p, c);
    NoneInZero(p, c);
    assert Wrap(c + p.code[c].len) == c + p.code[c].len;
  }
}
