/** The changes that make a near miss of fusion fuse, and what each leaves the same: a
    swap of operands, another destination, or one half moved to the other. */
module Reorder {
  import opened Words
  import opened Machine
  import opened Fusion

  // ---- straight-line code ----

  datatype Coded = Coded(insn: Insn, len: nat)

  /** The code, executed from its first instruction on. */
  ghost function Through(code: seq<Coded>, s: State): State {
    if code == [] then s else Through(code[1..], One(code[0], s))
  }

  ghost function One(d: Coded, s: State): State {
    Effect(d.insn, d.len, s).(pc := Wrap(s.pc + d.len))
  }

  lemma {:induction false} ThroughAppend(a: seq<Coded>, b: seq<Coded>, s: State)
    ensures Through(a + b, s) == Through(b, Through(a, s))
  {
    if a == [] {
      assert a + b == b;
    } else {
      assert (a + b)[1..] == a[1..] + b;
      ThroughAppend(a[1..], b, One(a[0], s));
    }
  }

  /** Writes one register and does nothing else; `auipc` depends on where it is. */
  predicate PureDef(i: Insn) {
    (i.Alu? || i.Lui? || i.Auipc?) && i.rd != 0
  }

  predicate ReadsPc(i: Insn) {
    i.Auipc? || i.Jal? || i.Jalr? || i.Branch? || i.Then?
  }

  lemma EffectIgnoresPc(i: Insn, len: nat, len': nat, s: State, pc: Word)
    requires !ReadsPc(i)
    ensures Effect(i, len', s.(pc := pc)) == Effect(i, len, s).(pc := pc)
  {
    hide AluVal, Sext, Box, LoadLE, StoreLE, Wrap, Extend;
    forall q: Reg ensures X(s.(pc := pc), q) == X(s, q) {}
  }

  /** Neither register effect sees the other. */
  predicate Independent(x: Insn, m: Insn) {
    Writes(x) !! (Reads(m) + Writes(m)) && Writes(m) !! Reads(x)
  }

  lemma PureResult(x: Insn, len: nat, s: State, m: Insn, mlen: nat)
    requires PureDef(x) && !ReadsPc(x) && Independent(x, m)
    ensures XResult(x, len, Effect(m, mlen, s)) == XResult(x, len, s)
  {
    hide Effect, AluVal, Writes, Wrap;
    forall r | r in Reads(x) ensures X(Effect(m, mlen, s), r) == X(s, r) { EffectKeeps(m, mlen, s, r); }
    assert X(Effect(m, mlen, s), 0) == X(s, 0);
  }

  lemma PureEffect(x: Insn, len: nat, s: State)
    requires PureDef(x)
    ensures Effect(x, len, s) == SetX(s, x.rd, XResult(x, len, s)) && Writes(x) == {x.rd}
  {
    hide XResult;
  }

  /** A pure definition and an instruction apart from it may trade places. */
  lemma Trade(x: Coded, m: Coded, s: State)
    requires PureDef(x.insn) && !ReadsPc(x.insn) && !ReadsPc(m.insn) && Independent(x.insn, m.insn)
    ensures One(m, One(x, s)) == One(x, One(m, s))
  {
    hide Effect, Reads, Writes, XResult, Wrap, SetX;
    var v := XResult(x.insn, x.len, s);
    PureEffect(x.insn, x.len, s);
    PureEffect(x.insn, x.len, Effect(m.insn, m.len, s));
    PureResult(x.insn, x.len, s, m.insn, m.len);
    EffectIgnores(m.insn, m.len, s, x.insn.rd, v);
    EffectIgnoresPc(m.insn, m.len, m.len, Effect(x.insn, x.len, s), Wrap(s.pc + x.len));
    EffectIgnoresPc(x.insn, x.len, x.len, Effect(m.insn, m.len, s), Wrap(s.pc + m.len));
    PcSum(s.pc, x.len, m.len);
  }

  lemma PcSum(pc: int, a: nat, b: nat)
    ensures Wrap(Wrap(pc + a) + b) == Wrap(Wrap(pc + b) + a)
  {
  }

  /** One of the two is pure, and neither names what the other writes. */
  predicate MayTrade(x: Insn, m: Insn) {
    && !ReadsPc(x) && !ReadsPc(m)
    && ((PureDef(x) && Independent(x, m)) || (PureDef(m) && Independent(m, x)))
  }

  lemma {:induction false} MovePast(x: Coded, between: seq<Coded>, s: State)
    requires forall k :: 0 <= k < |between| ==> MayTrade(x.insn, between[k].insn)
    ensures Through([x] + between, s) == Through(between + [x], s)
  {
    hide One, ReadsPc, PureDef;
    if between == [] {
      assert [x] + between == between + [x];
    } else {
      var m, rest := between[0], between[1..];
      assert MayTrade(x.insn, m.insn);
      assert One(m, One(x, s)) == One(x, One(m, s)) by { TradeEither(x, m, s); }
      MovePast(x, rest, One(m, s));
      assert ([x] + between)[1..] == between && between[1..] == rest;
      assert ([x] + rest)[1..] == rest;
      assert (between + [x])[1..] == rest + [x];
    }
  }

  lemma TradeEither(x: Coded, m: Coded, s: State)
    requires MayTrade(x.insn, m.insn)
    ensures One(m, One(x, s)) == One(x, One(m, s))
  {
    hide One, ReadsPc, PureDef;
    if PureDef(x.insn) && Independent(x.insn, m.insn) {
      Trade(x, m, s);
    } else {
      Trade(m, x, s);
    }
  }

  // ---- a split pair ----

  /** A pair whose halves may stand apart: all but the branch over a move. */
  predicate MaySplit(p: Pair) {
    p != CMov
  }

  function AllReads(between: seq<Unit>): set<int> {
    if between == [] then {} else Reads(between[0].insn) + AllReads(between[1..])
  }

  function AllWrites(between: seq<Unit>): set<int> {
    if between == [] then {} else Writes(between[0].insn) + AllWrites(between[1..])
  }

  function Sources(o: FuseOp): set<int> {
    {o.rs1, o.rs2} - {NoReg}
  }

  function AllNamed(between: seq<Unit>): set<int> {
    AllReads(between) + AllWrites(between)
  }

  predicate AllPure(between: seq<Unit>) {
    forall k :: 0 <= k < |between| ==> PureDef(between[k].insn)
  }

  /** The first half may move down past all of `between`. */
  predicate MaySink(x: Unit, between: seq<Unit>) {
    x.Op().rd !in AllNamed(between) && AllWrites(between) !! Sources(x.Op())
  }

  /** The second half may move up past them. */
  predicate MayHoist(x: Unit, between: seq<Unit>, b: Unit) {
    var o := b.Op();
    && !b.target && x.Op().rd !in AllNamed(between) && AllWrites(between) !! (Sources(o) - {o.rs1})
    && o.rd !in AllNamed(between) && (o.op == OpLoad || o.op == OpStore ==> AllPure(between))
  }

  function Plain(u: Unit): Coded {
    Coded(u.insn, u.len)
  }

  function Plains(us: seq<Unit>): (r: seq<Coded>)
    ensures |r| == |us| && forall k :: 0 <= k < |us| ==> r[k] == Plain(us[k])
  {
    seq(|us|, k requires 0 <= k < |us| => Plain(us[k]))
  }

  ghost predicate NoPc(us: seq<Unit>) {
    forall k :: 0 <= k < |us| ==> !ReadsPc(us[k].insn)
  }

  lemma {:induction false} AllHold(between: seq<Unit>, k: nat)
    requires k < |between|
    ensures Reads(between[k].insn) <= AllReads(between) && Writes(between[k].insn) <= AllWrites(between)
  {
    hide Reads, Writes;
    if k > 0 {
      assert between[1..][k - 1] == between[k];
      AllHold(between[1..], k - 1);
    }
  }

  /** The decoded fields are the registers the instruction names. */
  lemma FirstHalf(p: Pair, x: Unit, b: Unit)
    requires Fuses(p, x, b) && MaySplit(p)
    ensures PureDef(x.insn) && Reads(x.insn) <= Sources(x.Op()) && x.insn.rd == x.Op().rd
            && Writes(x.insn) == {x.insn.rd}
    ensures x.Op().op == OpAuipc <==> ReadsPc(x.insn)
  {
  }

  lemma SecondHalf(p: Pair, x: Unit, b: Unit)
    requires Fuses(p, x, b) && MaySplit(p)
    ensures Reads(b.insn) <= Sources(b.Op()) && Writes(b.insn) <= {b.Op().rd} && !ReadsPc(b.insn)
    ensures b.Op().rs1 == x.Op().rd
    ensures PureDef(b.insn) || b.Op().op == OpLoad || b.Op().op == OpStore
  {
  }

  /** Sinking leaves the same state, unless it moves something that reads where it
      stands. */
  lemma SinkIsLegal(p: Pair, x: Unit, between: seq<Unit>, b: Unit, s: State)
    requires Fuses(p, x, b) && MaySplit(p) && MaySink(x, between) && NoPc(between) && x.Op().op != OpAuipc
    ensures Through([Plain(x)] + Plains(between) + [Plain(b)], s) == Through(Plains(between) + [Plain(x), Plain(b)], s)
  {
    hide Fuses, Reads, Writes, Sources, Through, FuseDecode;
    FirstHalf(p, x, b);
    hide PureDef;
    forall k | 0 <= k < |between| ensures MayTrade(x.insn, Plains(between)[k].insn) { AllHold(between, k); }
    MovePast(Plain(x), Plains(between), s);
    ThroughAppend([Plain(x)] + Plains(between), [Plain(b)], s);
    ThroughAppend(Plains(between) + [Plain(x)], [Plain(b)], s);
    assert Plains(between) + [Plain(x)] + [Plain(b)] == Plains(between) + [Plain(x), Plain(b)];
  }

  /** Hoisting does; the second half reads the first's result as before. */
  lemma HoistIsLegal(p: Pair, x: Unit, between: seq<Unit>, b: Unit, s: State)
    requires Fuses(p, x, b) && MaySplit(p) && MayHoist(x, between, b) && NoPc(between)
    ensures Through([Plain(x)] + Plains(between) + [Plain(b)], s) == Through([Plain(x), Plain(b)] + Plains(between), s)
  {
    hide Fuses, Reads, Writes, Sources, Through, FuseDecode, ReadsPc;
    SecondHalf(p, x, b);
    hide PureDef;
    forall k | 0 <= k < |between| ensures MayTrade(b.insn, Plains(between)[k].insn) {
      AllHold(between, k);
      assert b.Op().rs1 !in AllWrites(between);
      if PureDef(b.insn) {
        assert Independent(b.insn, between[k].insn);
      } else {
        assert PureDef(between[k].insn) && Independent(between[k].insn, b.insn);
      }
    }
    var t := Through([Plain(x)], s);
    MovePast(Plain(b), Plains(between), t);
    assert [Plain(x)] + Plains(between) + [Plain(b)] == [Plain(x)] + (Plains(between) + [Plain(b)]);
    ThroughAppend([Plain(x)], Plains(between) + [Plain(b)], s);
    ThroughAppend([Plain(x)], [Plain(b)] + Plains(between), s);
    assert [Plain(x)] + ([Plain(b)] + Plains(between)) == [Plain(x), Plain(b)] + Plains(between);
  }

  const AndBefore: Unit := Unit(0x1000, Alu(And, 5, 6, R(7)), 4, false)
  const AuipcBetween: Unit := Unit(0x1004, Auipc(10, 0), 4, false)
  const AndAfter: Unit := Unit(0x1008, Alu(And, 5, 5, R(7)), 4, false)

  lemma AuipcPasses()
    ensures Fuses(LogicRR, AndBefore, AndAfter)
    ensures MaySink(AndBefore, [AuipcBetween]) && MayHoist(AndBefore, [AuipcBetween], AndAfter)
  {
    assert [AuipcBetween][1..] == [] && AllReads([]) == {} && AllWrites([]) == {};
    assert AllReads([AuipcBetween]) == {} && AllWrites([AuipcBetween]) == {10};
  }

  lemma AuipcAfter(u: Coded, v: Coded, s: State)
    requires u.insn.Alu? && v.insn.Alu? && u.insn.rd == 5 == v.insn.rd && u.len == 4 && s.pc == 0x1000
    ensures X(Through([u, Plain(AuipcBetween), v], s), 10) == 0x1004
    ensures X(Through([Plain(AuipcBetween), u, v], s), 10) == 0x1000
    ensures v.len == 4 ==> X(Through([u, v, Plain(AuipcBetween)], s), 10) == 0x1008
  {
    hide AluVal;
    var m := Plain(AuipcBetween);
    Three(u, m, v, s);
    Three(m, u, v, s);
    Three(u, v, m, s);
    hide Through;
    EffectKeeps(v.insn, v.len, One(m, One(u, s)), 10);
    EffectKeeps(v.insn, v.len, One(u, One(m, s)), 10);
    EffectKeeps(u.insn, u.len, One(m, s), 10);
    assert One(u, s).pc == 0x1004;
    assert v.len == 4 ==> One(v, One(u, s)).pc == 0x1008;
  }

  lemma Three(a: Coded, b: Coded, c: Coded, s: State)
    ensures Through([a, b, c], s) == One(c, One(b, One(a, s)))
  {
    hide One;
    assert [a, b, c][1..] == [b, c] && [b, c][1..] == [c] && [c][1..] == [];
    assert Through([c], One(b, One(a, s))) == Through([], One(c, One(b, One(a, s))));
  }

  /** An `auipc` that something moves past computes another address: nothing in the
      test asks. */
  lemma AuipcMoves(s: State)
    requires s.pc == 0x1000
    ensures Fuses(LogicRR, AndBefore, AndAfter)
    ensures MaySink(AndBefore, [AuipcBetween]) && MayHoist(AndBefore, [AuipcBetween], AndAfter)
    ensures X(Through([Plain(AndBefore), Plain(AuipcBetween), Plain(AndAfter)], s), 10) == 0x1004
    ensures X(Through([Plain(AuipcBetween), Plain(AndBefore), Plain(AndAfter)], s), 10) == 0x1000
    ensures X(Through([Plain(AndBefore), Plain(AndAfter), Plain(AuipcBetween)], s), 10) == 0x1008
  {
    AuipcPasses();
    AuipcAfter(Plain(AndBefore), Plain(AndAfter), s);
  }

  // ---- the wrong operand order, the wrong destination ----

  function SwapOperands(i: Insn): Insn {
    match i
    case Alu(op, rd, rs1, R(rs2)) => Alu(op, rd, rs2, R(rs1))
    case _ => i
  }

  lemma Commuting(op: AluOp, a: Word, b: Word)
    requires op == Add || op == Addw || op == And || op == Or || op == Xor
    ensures AluVal(op, a, b) == AluVal(op, b, a)
  {
    BitsCommute(64, BAnd, a, b);
    BitsCommute(64, BOr, a, b);
    BitsCommute(64, BXor, a, b);
    assert (a as int) + b == (b as int) + a;
    hide Bits, Sext, Wrap;
  }

  /** The operands the other way round, the pair fuses and computes the same. */
  lemma SwapMends(p: Pair, x: Unit, y: Unit, s: State)
    requires FuseTest(p, x.Op(), x.len, y.Op(), y.len) == Swap
    ensures FuseTest(p, x.Op(), x.len, FuseDecode(SwapOperands(y.insn), 4), 4) == Yes
    ensures Effect(SwapOperands(y.insn), y.len, s) == Effect(y.insn, y.len, s)
  {
    SwapShape(p, x, y);
    var i := y.insn;
    Commuting(i.op, X(s, i.rs1), X(s, i.src.r));
    hide AluVal, FuseTest;
  }

  lemma SwapShape(p: Pair, x: Unit, y: Unit)
    requires FuseTest(p, x.Op(), x.len, y.Op(), y.len) == Swap
    ensures var i := y.insn;
            i.Alu? && i.src.R? && (i.op == Add || i.op == Addw || i.op == And || i.op == Or || i.op == Xor)
    ensures FuseTest(p, x.Op(), x.len, FuseDecode(SwapOperands(y.insn), 4), 4) == Yes
  {
  }

  function Other(d: Reg, e: Reg, r: Reg): Reg {
    if r == d then e else r
  }

  /** `x` with another destination. */
  function WithDest(i: Insn, e: Reg): Insn {
    match i
    case Alu(op, _, rs1, src) => Alu(op, e, rs1, src)
    case Lui(_, imm) => Lui(e, imm)
    case Auipc(_, imm) => Auipc(e, imm)
    case _ => i
  }

  /** `y` reading `e` where it read `d`. */
  function Reading(i: Insn, d: Reg, e: Reg): Insn {
    match i
    case Alu(op, rd, rs1, R(rs2)) => Alu(op, rd, Other(d, e, rs1), R(Other(d, e, rs2)))
    case Alu(op, rd, rs1, K(k)) => Alu(op, rd, Other(d, e, rs1), K(k))
    case _ => i
  }

  lemma RenameShape(p: Pair, x: Unit, y: Unit)
    requires FuseTest(p, x.Op(), x.len, y.Op(), y.len) == Rename
    ensures PureDef(x.insn) && y.insn.Alu? && y.insn.rs1 == x.insn.rd && y.insn.rd != 0 && y.insn.rd != x.insn.rd
    ensures y.insn.src != R(y.insn.rd)
  {
  }

  /** With the second's destination in the first, the two leave every register but
      the old destination, and memory, as they did. */
  lemma RenameKeeps(p: Pair, x: Unit, y: Unit, s: State)
    requires FuseTest(p, x.Op(), x.len, y.Op(), y.len) == Rename
    ensures x.insn.Alu? || x.insn.Lui? || x.insn.Auipc?
    ensures y.insn.Alu?
    ensures var d, e := x.insn.rd, y.insn.rd;
            var was := Effect(y.insn, y.len, Effect(x.insn, x.len, s));
            var now := Effect(Reading(y.insn, d, e), y.len, Effect(WithDest(x.insn, e), x.len, s));
            now == SetX(was, d, X(s, d))
  {
    RenameShape(p, x, y);
    var d, e := x.insn.rd, y.insn.rd;
    var x', y' := WithDest(x.insn, e), Reading(y.insn, d, e);
    var v := XResult(x.insn, x.len, s);
    assert XResult(x', x.len, s) == v by { SameResult(x.insn, e, x.len, s); }
    PureEffect(x.insn, x.len, s);
    PureEffect(x', x.len, s);
    var t, t' := SetX(s, d, v), SetX(s, e, v);
    PureEffect(y.insn, y.len, t);
    PureEffect(y', y.len, t');
    assert XResult(y', y.len, t') == XResult(y.insn, y.len, t) by { SameReading(y.insn, d, e, y.len, s, v); }
    hide XResult, Effect, WithDest, Reading, FuseTest, FuseDecode;
    var w := XResult(y.insn, y.len, t);
    assert SetX(SetX(s, e, v), e, w).x == SetX(SetX(SetX(s, d, v), e, w), d, X(s, d)).x;
  }

  lemma SameResult(i: Insn, e: Reg, len: nat, s: State)
    requires PureDef(i)
    ensures XResult(WithDest(i, e), len, s) == XResult(i, len, s)
  {
    hide AluVal;
  }

  lemma SameReading(i: Insn, d: Reg, e: Reg, len: nat, s: State, v: Word)
    requires i.Alu? && d != 0 && e != 0 && d != e && i.rs1 == d && i.src != R(e)
    ensures XResult(Reading(i, d, e), len, SetX(s, e, v)) == XResult(i, len, SetX(s, d, v))
  {
    hide AluVal, Wrap;
  }

  /** The renamed pair fuses, but for a multiply whose result is added to itself:
      its addend is the destination then. */
  lemma RenameMends(p: Pair, x: Unit, y: Unit)
    requires FuseTest(p, x.Op(), x.len, y.Op(), y.len) == Rename
    ensures y.insn.Alu? && (x.insn.Alu? || x.insn.Lui? || x.insn.Auipc?)
    ensures var d, e := x.insn.rd, y.insn.rd;
            FuseTest(p, FuseDecode(WithDest(x.insn, e), 4), 4, FuseDecode(Reading(y.insn, d, e), 4), 4) == Yes
            <==> !(p == MulAdd && y.insn.src == R(d))
  {
  }
}
