/** Macro-op fusion: which adjacent instructions a core issues as one, and that
    pairing them greedily in address order pairs as many as can be. */
module Fusion {
  import opened Words
  import opened Wrappers
  import opened Machine

  datatype FuseKind =
    | Other | OpLui | OpAuipc | OpAddi | OpAddiw | OpAdd | OpAddw | OpAnd | OpOr | OpXor | OpAndi | OpOri | OpXori
    | OpMul | OpMulw | OpSlli | OpSlliw | OpSrli | OpSrai | OpSrliw | OpSraiw | OpLoad | OpStore | OpBranch | OpMv

  type Field = r: int | 0 <= r <= 32

  /** A register field that is absent or names no integer register. */
  const NoReg: Field := 32

  /** An access's base is `rs1`, a store's data `rs2`. */
  datatype FuseOp = FuseOp(op: FuseKind, rd: Field, rs1: Field, rs2: Field, imm: int)

  function RegKind(op: AluOp): FuseKind {
    match op
    case Add => OpAdd
    case Addw => OpAddw
    case And => OpAnd
    case Or => OpOr
    case Xor => OpXor
    case Mul => OpMul
    case Mulw => OpMulw
    case _ => Other
  }

  function ImmKind(op: AluOp): FuseKind {
    match op
    case Add => OpAddi
    case Addw => OpAddiw
    case And => OpAndi
    case Or => OpOri
    case Xor => OpXori
    case Sll => OpSlli
    case Srl => OpSrli
    case Sra => OpSrai
    case Sllw => OpSlliw
    case Srlw => OpSrliw
    case Sraw => OpSraiw
    case _ => Other
  }

  function FuseDecode(i: Insn, len: nat): FuseOp {
    match i
    case Lui(rd, imm) => FuseOp(OpLui, rd, NoReg, NoReg, imm)
    case Auipc(rd, imm) => FuseOp(OpAuipc, rd, NoReg, NoReg, imm)
    case Alu(op, rd, rs1, K(k)) =>
      if len == 2 && rd == 0 then FuseOp(Other, NoReg, NoReg, NoReg, 0) else FuseOp(ImmKind(op), rd, rs1, NoReg, k)
    case Alu(op, rd, rs1, R(rs2)) => FuseOp(if len == 2 && op == Add && rs1 == 0 then OpMv else RegKind(op), rd, rs1,
                                            rs2, 0)
    case Load(k, rd, base, off) => FuseOp(OpLoad, if k.IsFp() then NoReg else rd, base, NoReg, off)
    case Store(k, data, base, off) => FuseOp(OpStore, NoReg, base, if k.IsFp() then NoReg else data, off)
    case Branch(_, rs1, rs2, off) => FuseOp(OpBranch, NoReg, rs1, rs2, off)
    case _ => FuseOp(Other, NoReg, NoReg, NoReg, 0)
  }

  datatype Core = X100 | SiFive | XiangShan

  datatype Pair =
    | LogicRR | LogicRI | LogicIR | MulAdd | AddMem | ShiftPair
    | CMov | LuiAddi | AuipcAddi | ZextWPair | ShiftedZextW | ZextHPair
  {
    function Of(): Core {
      match this
      case LogicRR | LogicRI | LogicIR | MulAdd | AddMem | ShiftPair => X100
      case CMov | LuiAddi | AuipcAddi => SiFive
      case _ => XiangShan
    }
  }

  const Pairs: seq<Pair> :=
    [LogicRR, LogicRI, LogicIR, MulAdd, AddMem, ShiftPair, CMov, LuiAddi, AuipcAddi, ZextWPair, ShiftedZextW, ZextHPair]

  function Position(p: Pair): nat {
    match p
    case LogicRR => 0
    case LogicRI => 1
    case LogicIR => 2
    case MulAdd => 3
    case AddMem => 4
    case ShiftPair => 5
    case CMov => 6
    case LuiAddi => 7
    case AuipcAddi => 8
    case ZextWPair => 9
    case ShiftedZextW => 10
    case ZextHPair => 11
  }

  lemma ListedAt(p: Pair)
    ensures Position(p) < |Pairs| && Pairs[Position(p)] == p
  {
  }

  datatype Verdict = No | Yes | Rename | Swap

  predicate Logic(k: FuseKind) { k == OpAnd || k == OpOr || k == OpXor }

  predicate LogicImm(k: FuseKind) { k == OpAndi || k == OpOri || k == OpXori }

  predicate Commutes(p: Pair) {
    p == LogicRR || p == LogicIR || p == MulAdd
  }

  /** The operations and immediates of the pair, registers aside. */
  predicate Shape(p: Pair, x: FuseOp, y: FuseOp) {
    match p
    case LogicRR => Logic(x.op) && Logic(y.op)
    case LogicRI => Logic(x.op) && LogicImm(y.op)
    case LogicIR => LogicImm(x.op) && Logic(y.op)
    case MulAdd => (x.op == OpMul && y.op == OpAdd) || (x.op == OpMulw && y.op == OpAddw)
    case ShiftPair =>
      && ((x.op == OpSlli && (y.op == OpSrli || y.op == OpSrai))
          || (x.op == OpSlliw && (y.op == OpSrliw || y.op == OpSraiw)))
      && x.imm <= y.imm
    case LuiAddi => x.op == OpLui && (y.op == OpAddi || y.op == OpAddiw)
    case AuipcAddi => x.op == OpAuipc && y.op == OpAddi
    case ZextWPair => x.op == OpSlli && y.op == OpSrli && x.imm == 32 && y.imm == 32
    case ShiftedZextW => x.op == OpSlli && y.op == OpSrli && x.imm == 32 && y.imm <= 31
    case ZextHPair => x.op == OpSlli && y.op == OpSrli && x.imm == 48 && y.imm == 48
    case _ => false
  }

  /** How the registers must be tied: the destination of the one is an operand of the
      other, and its destination too. */
  function Tied(p: Pair, x: FuseOp, y: FuseOp): Verdict {
    var d := x.rd;
    if d == 0 || d == NoReg then No
    else
      var first := y.rs1 == d;
      var second := !first && Commutes(p) && y.rs2 == d;
      var other := if first then y.rs2 else y.rs1;
      if !first && !second then No
      else if p == MulAdd && other == y.rd then No
      else if y.rd != d then (if first && y.rd != 0 && y.rd != NoReg && other != y.rd then Rename else No)
      else if first then Yes else Swap
  }

  function FuseTest(p: Pair, x: FuseOp, xlen: nat, y: FuseOp, ylen: nat): Verdict {
    if p == AddMem then
      (if x.op == OpAdd && (y.op == OpLoad || y.op == OpStore) && x.rd != 0 && x.rd != x.rs1 && x.rd != x.rs2 &&
          y.rs1 == x.rd && y.imm == 0 then Yes else No)
    else if p == CMov then
      (if x.op == OpBranch && y.op == OpMv && ylen == 2 && x.imm == xlen + 2 then Yes else No)
    else if Shape(p, x, y) then Tied(p, x, y) else No
  }

  // ---- pairing a section ----

  /** An instruction the scan has decoded. */
  datatype Unit = Unit(addr: Word, insn: Insn, len: nat, target: bool) {
    function Op(): FuseOp { FuseDecode(insn, len) }
  }

  /** A section; None is a halfword nothing decodes. */
  type Section = seq<Option<Unit>>

  predicate Fuses(p: Pair, x: Unit, y: Unit) {
    FuseTest(p, x.Op(), x.len, y.Op(), y.len) == Yes
  }

  /** The first pair of the core that `k` and its successor make. */
  function FirstPair(c: Core, x: Unit, y: Unit, from: nat): Option<Pair>
    requires from <= |Pairs|
    decreases |Pairs| - from
  {
    if from == |Pairs| then None
    else if Pairs[from].Of() == c && Fuses(Pairs[from], x, y) then Some(Pairs[from])
    else FirstPair(c, x, y, from + 1)
  }

  predicate Fusible(c: Core, s: Section, k: int) {
    0 <= k && k + 1 < |s| && s[k].Some? && s[k + 1].Some? && FirstPair(c, s[k].value, s[k + 1].value, 0).Some?
  }

  /** `k` and `k + 1` are paired: they fuse and `k` is not taken already. */
  predicate Paired(c: Core, s: Section, k: int)
    decreases k
  {
    Fusible(c, s, k) && (k > 0 ==> !Paired(c, s, k - 1))
  }

  /** How many are paired among the first `n`. */
  function Fused(c: Core, s: Section, n: nat): (f: nat)
    requires n <= |s|
  {
    if n < 2 then 0 else Fused(c, s, n - 1) + if Paired(c, s, n - 2) then 1 else 0
  }

  /** A choice of pairs, by their first members, that a core could make. */
  ghost predicate Matching(c: Core, s: Section, m: set<int>, n: nat) {
    forall k :: k in m ==> Fusible(c, s, k) && k + 1 < n && k + 1 !in m
  }

  /** No instruction is in two pairs. */
  lemma PairedOnce(c: Core, s: Section, k: int)
    ensures !(Paired(c, s, k) && Paired(c, s, k + 1)) || k < 0
  {
  }

  ghost function PairedSet(c: Core, s: Section, n: nat): (m: set<int>)
    requires n <= |s|
  {
    if n < 2 then {} else PairedSet(c, s, n - 1) + if Paired(c, s, n - 2) then {n - 2} else {}
  }

  lemma {:induction false} InPairedSet(c: Core, s: Section, n: nat, k: int)
    requires n <= |s|
    ensures k in PairedSet(c, s, n) <==> 0 <= k < n - 1 && Paired(c, s, k)
  {
    hide Paired;
    if n >= 2 {
      InPairedSet(c, s, n - 1, k);
    }
  }

  lemma {:induction false} PairedSetSize(c: Core, s: Section, n: nat)
    requires n <= |s|
    ensures |PairedSet(c, s, n)| == Fused(c, s, n)
  {
    hide Paired;
    if n >= 2 {
      PairedSetSize(c, s, n - 1);
      InPairedSet(c, s, n - 1, n - 2);
    }
  }

  lemma PairedMatches(c: Core, s: Section, n: nat)
    requires n <= |s|
    ensures Matching(c, s, PairedSet(c, s, n), n)
  {
    hide Fusible, PairedSet;
    forall k | k in PairedSet(c, s, n) ensures Fusible(c, s, k) && k + 1 < n && k + 1 !in PairedSet(c, s, n) {
      InPairedSet(c, s, n, k);
      InPairedSet(c, s, n, k + 1);
      PairedOnce(c, s, k);
    }
  }

  lemma {:induction false} NoneBetter(c: Core, s: Section, m: set<int>, n: nat)
    requires n <= |s| && Matching(c, s, m, n)
    ensures |m| <= Fused(c, s, n)
    decreases n
  {
    hide Fusible;
    if n < 2 {
      forall k | k in m ensures false { Positive(c, s, k); }
      assert m == {};
    } else if n - 2 !in m {
      NoneBetter(c, s, m, n - 1);
    } else {
      var rest := m - {n - 2};
      assert n - 3 !in m;
      assert |m| == |rest| + 1;
      NoneBetter(c, s, rest, n - 2);
      assert Fusible(c, s, n - 2);
    }
  }

  lemma Positive(c: Core, s: Section, k: int)
    requires Fusible(c, s, k)
    ensures k >= 0
  {
  }

  /** Greedy pairing is itself a choice a core could make, and none pairs more. */
  lemma GreedyIsBest(c: Core, s: Section)
    ensures Matching(c, s, PairedSet(c, s, |s|), |s|) && |PairedSet(c, s, |s|)| == Fused(c, s, |s|)
    ensures forall m :: Matching(c, s, m, |s|) ==> |m| <= Fused(c, s, |s|)
  {
    PairedMatches(c, s, |s|);
    PairedSetSize(c, s, |s|);
    forall m | Matching(c, s, m, |s|) ensures |m| <= Fused(c, s, |s|) { NoneBetter(c, s, m, |s|); }
  }
}
