/** The matcher recognises the longhand bit count: twelve operations on whatever registers,
    in whatever order their results allow, of either width and with anything between that
    keeps off their registers. */
module MatcherFinds {
  import opened Words
  import opened Wrappers
  import opened Machine
  import opened Sweep
  import opened ConstSteps
  import opened Popcount
  import opened Liveness
  import opened Matcher
  import opened MatcherState

  // ---- the sequence ----

  /** The addresses of its operations, the registers of their results, and the registers of
      the masks at the operations that take one. */
  datatype Longhand = Longhand(wide: bool, src: Reg, at: seq<Word>, to: seq<Reg>, mask: seq<Reg>, rd: Reg)

  predicate Sized(l: Longhand) {
    |l.at| == 12 && |l.to| == 11 && |l.mask| == 11
  }

  /** `op rd, x, y`, or `op rd, y, x`. */
  predicate Either(i: Insn, op: AluOp, rd: Reg, x: Reg, y: Reg) {
    i == Alu(op, rd, x, R(y)) || i == Alu(op, rd, y, R(x))
  }

  /** Operation `k`. */
  predicate IsOperation(l: Longhand, k: nat, i: Insn)
    requires Sized(l) && k < 12
  {
    match k
    case 0 => i == Alu(Srl, l.to[0], l.src, K(1)) && l.to[0] != l.src
    case 1 => Either(i, And, l.to[1], l.to[0], l.mask[1])
    case 2 => i == Alu(Sub, l.to[2], l.src, R(l.to[1]))
    case 3 => Either(i, And, l.to[3], l.to[2], l.mask[3])
    case 4 => i == Alu(Srl, l.to[4], l.to[2], K(2))
    case 5 => Either(i, And, l.to[5], l.to[4], l.mask[5])
    case 6 => Either(i, Add, l.to[6], l.to[3], l.to[5])
    case 7 => i == Alu(Srl, l.to[7], l.to[6], K(4))
    case 8 => Either(i, Add, l.to[8], l.to[6], l.to[7])
    case 9 => Either(i, And, l.to[9], l.to[8], l.mask[9])
    case 10 => Either(i, Mul, l.to[10], l.to[9], l.mask[10])
    case _ => i == if l.wide then Alu(Srl, l.rd, l.to[10], K(56)) else Alu(Srlw, l.rd, l.to[10], K(24))
  }

  /** Which mask operation `k` takes. */
  function MaskAt(k: nat, wide: bool): Option<Word> {
    if k == 1 then Some(M55(wide)) else if k == 3 || k == 5 then Some(M33(wide))
    else if k == 9 then Some(M0F(wide)) else if k == 10 then Some(M01(wide)) else None
  }

  /** Operation `m` takes the result of operation `k`. */
  predicate Takes(m: nat, k: nat) {
    match m
    case 0 => false
    case 4 => k == 2
    case 5 => k == 4
    case 6 => k == 3 || k == 5
    case 8 => k == 6 || k == 7
    case _ => k + 1 == m
  }

  predicate Spelled(l: Longhand, k: nat, t: Tables, i: Insn)
    requires Sized(l) && k < 12
  {
    && IsOperation(l, k, i)
    && (MaskAt(k, l.wide).Some? ==> IsMask(t, l.mask[k], MaskAt(k, l.wide).value))
  }

  /** Between the two nothing writes the register. */
  ghost predicate Untouched(p: Program, r: Reg, from: Word, to: Word) {
    forall c :: c in p.code && from < c < to ==> XDest(p.code[c].insn) != r
  }

  /** Each operation stands at its address with its mask known, and the results it takes are
      still in their registers; on the way from the first to the last nothing but they
      writes the source. */
  ghost predicate LaidOut(p: Program, l: Longhand) {
    && Sized(l)
    && (forall j, k :: 0 <= j < k < 12 ==> l.at[j] != l.at[k])
    && (forall k :: 0 <= k < 12 ==>
          && l.at[k] in p.code && l.at[0] <= l.at[k] <= l.at[11]
          && Spelled(l, k, TablesAt(p, l.at[k]), p.code[l.at[k]].insn))
    && (forall k :: 0 <= k < 11 ==> l.to[k] != 0)
    && (forall k, m :: 0 <= k < m < 12 && Takes(m, k) ==> l.at[k] < l.at[m] && Untouched(p, l.to[k], l.at[k], l.at[m]))
    && (forall c :: c in p.code && l.at[0] < c < l.at[11] && c !in l.at ==> XDest(p.code[c].insn) != l.src)
    && OnLine(p, l.at[0], l.at[11])
  }

  /** The source was written over by the operations that lead to result `k`. */
  function Clobbers(l: Longhand, k: nat): bool
    requires Sized(l) && k < 11
    decreases k
  {
    match k
    case 0 => false
    case 4 => Clobbers(l, 2) || l.to[4] == l.src
    case 5 => Clobbers(l, 4) || l.to[5] == l.src
    case 6 => Clobbers(l, 3) || Clobbers(l, 5) || l.to[6] == l.src
    case 8 => Clobbers(l, 6) || Clobbers(l, 7) || l.to[8] == l.src
    case _ => Clobbers(l, k - 1) || l.to[k] == l.src
  }

  function StageOf(k: nat): Stage {
    match k
    case 0 => Shr1
    case 1 => And55
    case 2 => Stage1
    case 3 => And33
    case 4 => Shr2
    case 5 => And33S
    case 6 => Stage2
    case 7 => Shr4
    case 8 => Sum4
    case 9 => Stage3
    case _ => Product
  }

  /** The entry result `k` has. */
  predicate Shows(l: Longhand, k: nat, e: Entry)
    requires Sized(l) && k < 11
  {
    && e.stage == StageOf(k) && e.src == l.src && (k > 0 ==> e.wide == l.wide)
    && e.clobbered == Clobbers(l, k) && e.start == l.at[0] && Counted(e)
  }

  predicate Has(l: Longhand, k: nat, t: Tables)
    requires Sized(l) && k < 11
  {
    l.to[k] in t.entry && Shows(l, k, t.entry[l.to[k]])
  }

  // ---- a register is a stage or a constant ----

  predicate Disjoint(t: Tables) {
    t.entry.Keys !! t.known.Keys
  }

  lemma AfterDisjoint(t: Tables, m: Move, len: nat, a: Word)
    requires Disjoint(t)
    ensures Disjoint(After(t, m, len, a))
  {
    hide Written;
  }

  lemma {:induction false} AlwaysDisjoint(p: Program, a: Word)
    ensures Disjoint(TablesAt(p, a))
    decreases a
  {
    hide MoveOf, After, Resets, Prev;
    if !Resets(p, a) {
      BackOne(p, a);
      var b := Prev(p, a).value;
      AlwaysDisjoint(p, b);
      AfterDisjoint(TablesAt(p, b), MoveAt(p, b), p.code[b].len, b);
    }
  }

  // ---- each operation is the move it should be ----

  lemma OpensAt(l: Longhand, t: Tables, i: Insn, len: nat)
    requires Sized(l) && Spelled(l, 0, t, i)
    ensures MoveOf(t, i, len) == Open(l.to[0], l.src)
  {
  }

  lemma MaskFound(t: Tables, rd: Reg, r: Reg, mask: Reg, give: Stage, m: bool -> Word, wide: bool)
    requires r in t.entry && IsMask(t, mask, m(wide)) && m(false) != m(true)
             && (give == And55 || t.entry[r].wide == wide)
    ensures MaskMove(t, rd, r, mask, give, m) == Some(Advance(rd, t.entry[r].(wide := wide), give, r, r))
  {
  }

  lemma MasksDiffer()
    ensures M55(false) != M55(true) && M33(false) != M33(true) && M0F(false) != M0F(true) && M01(false) != M01(true)
  {
  }

  /** The mask on the stage before it. */
  lemma AndFinds(t: Tables, rd: Reg, a: Reg, b: Reg, r: Reg, mask: Reg, st: Stage, wide: bool)
    requires (a == r && b == mask) || (a == mask && b == r)
    requires st == And55 || st == And33 || st == And33S || st == Stage3
    requires r in t.entry && t.entry[r].stage == FromOne(st) && mask !in t.entry && IsMask(t, mask, MaskOf(st, wide))
    requires st == And55 || t.entry[r].wide == wide
    ensures AndMove(t, rd, a, b) == Advance(rd, t.entry[r].(wide := wide), st, r, r)
  {
    hide M55, M33, M0F, MaskMove;
    MasksDiffer();
    match st {
      case And55 => MaskFound(t, rd, r, mask, And55, M55, wide);
      case And33 => MaskFound(t, rd, r, mask, And33, M33, wide);
      case And33S => MaskFound(t, rd, r, mask, And33S, M33, wide);
      case _ => MaskFound(t, rd, r, mask, Stage3, M0F, wide);
    }
  }

  /** The mask operations: 1, 3, 5 and 9. */
  lemma MasksAt(l: Longhand, k: nat, f: nat, t: Tables, i: Insn, len: nat)
    requires Sized(l) && k in {1, 3, 5, 9} && f < 11 && Spelled(l, k, t, i) && Takes(k, f) && Has(l, f, t)
             && Disjoint(t)
    requires l.to[k] != 0
    ensures MoveOf(t, i, len) ==
            Advance(l.to[k], t.entry[l.to[f]].(wide := l.wide), StageOf(k), l.to[f], l.to[f])
  {
    hide Counted, Clobbers, M55, M33, M0F, M01, AndMove;
    assert l.mask[k] !in t.entry;
    assert i.Alu? && i.op == And && i.src.R? && i.rd == l.to[k];
    AndFinds(t, i.rd, i.rs1, i.src.r, l.to[f], l.mask[k], StageOf(k), l.wide);
    AndsMove(t, i, len);
  }

  lemma AndsMove(t: Tables, i: Insn, len: nat)
    requires i.Alu? && i.op == And && i.src.R? && i.rd != 0
    ensures MoveOf(t, i, len) == AndMove(t, i.rd, i.rs1, i.src.r)
  {
    hide AndMove;
  }

  lemma SubAt(l: Longhand, t: Tables, i: Insn, len: nat)
    requires Sized(l) && Spelled(l, 2, t, i) && Has(l, 1, t) && l.to[2] != 0
    ensures MoveOf(t, i, len) == Advance(l.to[2], t.entry[l.to[1]], Stage1, l.to[1], l.to[1])
  {
    hide Counted, Clobbers, Stepped, Merged;
  }

  lemma ShiftsAt(l: Longhand, k: nat, f: nat, t: Tables, i: Insn, len: nat)
    requires Sized(l) && (k == 4 || k == 7) && f < 11 && Spelled(l, k, t, i) && Takes(k, f) && Has(l, f, t)
    ensures MoveOf(t, i, len) == Advance(l.to[k], t.entry[l.to[f]], StageOf(k), l.to[f], l.to[f])
  {
    hide Counted, Clobbers, Stepped, Merged;
  }

  lemma MulAt(l: Longhand, t: Tables, i: Insn, len: nat)
    requires Sized(l) && Spelled(l, 10, t, i) && Has(l, 9, t) && Disjoint(t) && l.to[10] != 0
    ensures MoveOf(t, i, len) == Advance(l.to[10], t.entry[l.to[9]], Product, l.to[9], l.to[9])
  {
    hide Counted, Clobbers, M55, M33, M0F, M01, MaskMove, Stepped, Merged;
    MasksDiffer();
    MaskFound(t, l.to[10], l.to[9], l.mask[10], Product, M01, l.wide);
    assert l.mask[10] !in t.entry;
    assert t.entry[l.to[9]].(wide := l.wide) == t.entry[l.to[9]];
  }

  lemma JoinsAt(l: Longhand, t: Tables, i: Insn, len: nat)
    requires Sized(l) && Spelled(l, 6, t, i) && Has(l, 3, t) && Has(l, 5, t) && Disjoint(t) && l.to[6] != 0
    ensures var m := MoveOf(t, i, len);
            && m.Advance? && m.rd == l.to[6] && m.stage == Stage2
            && (m.from == Joined(t.entry[l.to[3]], t.entry[l.to[5]])
                || m.from == Joined(t.entry[l.to[5]], t.entry[l.to[3]]))
  {
    hide Clobbers, Joined, Stepped, Merged;
    assert l.to[3] !in t.known && l.to[5] !in t.known;
  }

  lemma SumsAt(l: Longhand, t: Tables, i: Insn, len: nat)
    requires Sized(l) && Spelled(l, 8, t, i) && Has(l, 6, t) && Has(l, 7, t) && Disjoint(t) && l.to[8] != 0
    ensures var m, x, y := MoveOf(t, i, len), t.entry[l.to[6]], t.entry[l.to[7]];
            && m.Advance? && m.rd == l.to[8] && m.stage == Sum4
            && m.from == y.(clobbered := x.clobbered || y.clobbered)
  {
    hide Clobbers, Stepped, Merged;
    assert l.to[6] !in t.known && l.to[7] !in t.known;
  }

  // ---- and makes the entry it should ----

  lemma WrittenShows(l: Longhand, k: nat, e: Entry, len: nat)
    requires Sized(l) && 0 < k < 11 && e.src == l.src && e.wide == l.wide && e.start == l.at[0]
    requires Clobbers(l, k) == (e.clobbered || l.to[k] == l.src)
    requires e.insns + 1 == Count(StageOf(k)) && (Depth(StageOf(k)) > 2 ==> e.base == 3)
    ensures Shows(l, k, Written(e, l.to[k], StageOf(k), len))
  {
    hide Clobbers;
  }

  /** The move, to its entry. */
  ghost predicate MovesTo(l: Longhand, k: nat, t: Tables, i: Insn, len: nat, a: Word)
    requires Sized(l) && k < 11
  {
    var m := MoveOf(t, i, len);
    && (m.Open? || m.Advance?) && m.rd == l.to[k] && (k > 0 ==> m.Advance?)
    && Has(l, k, After(t, m, len, a))
  }

  lemma AdvanceTo(l: Longhand, k: nat, t: Tables, i: Insn, len: nat, a: Word)
    requires Sized(l) && 0 < k < 11 && MoveOf(t, i, len).Advance?
    requires var m := MoveOf(t, i, len);
             m.rd == l.to[k] && m.stage == StageOf(k) && Shows(l, k, Written(m.from, m.rd, m.stage, len))
    ensures MovesTo(l, k, t, i, len, a)
  {
    hide MoveOf, Shows, Written, StageOf;
  }

  lemma MaskMakes(l: Longhand, k: nat, f: nat, t: Tables, i: Insn, len: nat, a: Word)
    requires Sized(l) && k in {1, 3, 5, 9} && f < 11 && Spelled(l, k, t, i) && Takes(k, f) && Has(l, f, t)
             && Disjoint(t)
    requires l.to[k] != 0
    ensures MovesTo(l, k, t, i, len, a)
  {
    hide MoveOf, Spelled, Written;
    MasksAt(l, k, f, t, i, len);
    WrittenShows(l, k, t.entry[l.to[f]].(wide := l.wide), len);
    AdvanceTo(l, k, t, i, len, a);
  }

  lemma ShiftMakes(l: Longhand, k: nat, f: nat, t: Tables, i: Insn, len: nat, a: Word)
    requires Sized(l) && (k == 4 || k == 7) && f < 11 && Spelled(l, k, t, i) && Takes(k, f) && Has(l, f, t)
    ensures MovesTo(l, k, t, i, len, a)
  {
    hide MoveOf, Spelled, Written;
    ShiftsAt(l, k, f, t, i, len);
    WrittenShows(l, k, t.entry[l.to[f]], len);
    AdvanceTo(l, k, t, i, len, a);
  }

  lemma OpenMakes(l: Longhand, t: Tables, i: Insn, len: nat, a: Word)
    requires Sized(l) && Spelled(l, 0, t, i) && a == l.at[0]
    ensures MovesTo(l, 0, t, i, len, a)
  {
    hide MoveOf, Spelled;
    OpensAt(l, t, i, len);
    OpenedShows(l, len, a);
  }

  lemma SubMakes(l: Longhand, t: Tables, i: Insn, len: nat, a: Word)
    requires Sized(l) && Spelled(l, 2, t, i) && Has(l, 1, t) && l.to[2] != 0
    ensures MovesTo(l, 2, t, i, len, a)
  {
    hide MoveOf, Spelled, Written;
    SubAt(l, t, i, len);
    WrittenShows(l, 2, t.entry[l.to[1]], len);
    AdvanceTo(l, 2, t, i, len, a);
  }

  lemma MulMakes(l: Longhand, t: Tables, i: Insn, len: nat, a: Word)
    requires Sized(l) && Spelled(l, 10, t, i) && Has(l, 9, t) && Disjoint(t) && l.to[10] != 0
    ensures MovesTo(l, 10, t, i, len, a)
  {
    hide MoveOf, Spelled, Written;
    MulAt(l, t, i, len);
    WrittenShows(l, 10, t.entry[l.to[9]], len);
    AdvanceTo(l, 10, t, i, len, a);
  }

  lemma JoinMakes(l: Longhand, t: Tables, i: Insn, len: nat, a: Word)
    requires Sized(l) && Spelled(l, 6, t, i) && Has(l, 3, t) && Has(l, 5, t) && Disjoint(t) && l.to[6] != 0
    ensures MovesTo(l, 6, t, i, len, a)
  {
    hide MoveOf, Spelled, Joined, Written;
    JoinsAt(l, t, i, len);
    JoinedIs(t.entry[l.to[3]], t.entry[l.to[5]]);
    JoinedIs(t.entry[l.to[5]], t.entry[l.to[3]]);
    WrittenShows(l, 6, MoveOf(t, i, len).from, len);
    AdvanceTo(l, 6, t, i, len, a);
  }

  lemma SumMakes(l: Longhand, t: Tables, i: Insn, len: nat, a: Word)
    requires Sized(l) && Spelled(l, 8, t, i) && Has(l, 6, t) && Has(l, 7, t) && Disjoint(t) && l.to[8] != 0
    ensures MovesTo(l, 8, t, i, len, a)
  {
    hide MoveOf, Spelled, Written;
    SumsAt(l, t, i, len);
    WrittenShows(l, 8, MoveOf(t, i, len).from, len);
    AdvanceTo(l, 8, t, i, len, a);
  }

  /** After operation `k` its result has its entry. */
  lemma Makes(l: Longhand, k: nat, t: Tables, i: Insn, len: nat, a: Word)
    requires Sized(l) && k < 11 && Spelled(l, k, t, i) && Disjoint(t) && a == l.at[k] && l.to[k] != 0
    requires forall f :: 0 <= f < k && Takes(k, f) ==> Has(l, f, t)
    ensures MovesTo(l, k, t, i, len, a)
  {
    hide MovesTo, Spelled, Has, Disjoint;
    match k {
      case 0 => OpenMakes(l, t, i, len, a);
      case 1 => MaskMakes(l, 1, 0, t, i, len, a);
      case 2 => SubMakes(l, t, i, len, a);
      case 3 => MaskMakes(l, 3, 2, t, i, len, a);
      case 4 => ShiftMakes(l, 4, 2, t, i, len, a);
      case 5 => MaskMakes(l, 5, 4, t, i, len, a);
      case 6 => JoinMakes(l, t, i, len, a);
      case 7 => ShiftMakes(l, 7, 6, t, i, len, a);
      case 8 => SumMakes(l, t, i, len, a);
      case 9 => MaskMakes(l, 9, 8, t, i, len, a);
      case _ => MulMakes(l, t, i, len, a);
    }
  }

  lemma OpenedShows(l: Longhand, len: nat, a: Word)
    requires Sized(l) && a == l.at[0]
    ensures Shows(l, 0, Opened(l.src, len, a))
  {
  }

  lemma JoinedIs(x: Entry, y: Entry)
    requires x.insns + y.insns == 9 && x.base == 3 == y.base
    ensures var j := Joined(x, y);
            && j.insns == 6 && j.base == 3 && j.src == x.src && j.wide == x.wide
            && j.clobbered == (x.clobbered || y.clobbered) && (x.start == y.start ==> j.start == x.start)
  {
  }

  // ---- along the line ----

  lemma EntryKept(t: Tables, m: Move, len: nat, b: Word, r: Reg)
    requires r in t.entry && (m.Leave? || m.rd != r) && (m.Advance? || m.Leave? || m.rd != t.entry[r].src)
    ensures r in After(t, m, len, b).entry && After(t, m, len, b).entry[r] == t.entry[r]
  {
    hide Written;
  }

  lemma MoveDest(t: Tables, i: Insn, len: nat)
    requires PlainInsn(i)
    ensures MoveOf(t, i, len).Leave? || MoveOf(t, i, len).rd == XDest(i)
  {
    hide AndMove, SubMove, AddMove, MulMove, ShiftMove, Stepped, Merged;
  }

  /** Every result whose register nothing has written since has its entry. */
  ghost predicate Kept(p: Program, l: Longhand, a: Word)
    requires Sized(l)
  {
    forall k :: 0 <= k < 11 && l.at[k] < a && Untouched(p, l.to[k], l.at[k], a) ==> Has(l, k, TablesAt(p, a))
  }

  lemma OperandsKept(p: Program, l: Longhand, k: nat)
    requires LaidOut(p, l) && k < 11 && Kept(p, l, l.at[k])
    ensures forall f :: 0 <= f < k && Takes(k, f) ==> Has(l, f, TablesAt(p, l.at[k]))
  {
    hide Spelled, Has, TablesAt, OnLine, Untouched, Takes;
  }

  lemma MadeAt(p: Program, l: Longhand, k: nat)
    requires LaidOut(p, l) && k < 11 && Kept(p, l, l.at[k])
    ensures l.at[k] in p.code
    ensures var d := p.code[l.at[k]]; MovesTo(l, k, TablesAt(p, l.at[k]), d.insn, d.len, l.at[k])
  {
    hide Spelled, Has, TablesAt, OnLine, Untouched, Takes, After, MoveOf;
    OperandsKept(p, l, k);
    AlwaysDisjoint(p, l.at[k]);
    var b := l.at[k];
    Makes(l, k, TablesAt(p, b), p.code[b].insn, p.code[b].len, b);
  }

  lemma NoneBetween(p: Program, b: Word, a: Word, c: Word)
    requires WellFormed(p) && !Resets(p, a) && Prev(p, a) == Some(b) && c in p.code
    ensures b in p.code && b < a && (c < a <==> c <= b)
  {
    BackOne(p, a);
    Apart(p, b, c);
  }

  lemma TablesAfter(p: Program, b: Word, a: Word)
    requires !Resets(p, a) && Prev(p, a) == Some(b) && b in p.code
    ensures TablesAt(p, a) == After(TablesAt(p, b), MoveAt(p, b), p.code[b].len, b)
  {
    hide MoveOf, After;
  }

  /** One result, over one instruction of the line. */
  lemma KeptOn(p: Program, l: Longhand, k: nat, b: Word, a: Word)
    requires WellFormed(p) && LaidOut(p, l) && k < 11 && Kept(p, l, b) && l.at[0] <= b && a <= l.at[11]
    requires !Resets(p, a) && Prev(p, a) == Some(b) && l.at[k] < a && Untouched(p, l.to[k], l.at[k], a)
    ensures Has(l, k, TablesAt(p, a))
  {
    hide WellFormed, Spelled, TablesAt, OnLine, Resets, Prev, After, MoveOf, Takes, Shows, PlainInsn;
    BackOne(p, a);
    TablesAfter(p, b, a);
    forall c | c in p.code ensures b < a && (c < a <==> c <= b) { NoneBetween(p, b, a, c); }
    if l.at[k] == b {
      MadeAt(p, l, k);
    } else {
      assert l.at[k] < b && Untouched(p, l.to[k], l.at[k], b);
      assert Has(l, k, TablesAt(p, b));
      var t, m, d := TablesAt(p, b), MoveAt(p, b), p.code[b];
      Placed(p, b);
      MoveDest(t, d.insn, d.len);
      if b in l.at {
        var j :| 0 <= j < 12 && l.at[j] == b;
        assert j != 0 && j < 11;
        MadeAt(p, l, j);
      }
      EntryKept(t, m, d.len, b, l.to[k]) by { assert t.entry[l.to[k]].src ==
                                             l.src by { ShowsSrc(l, k, t.entry[l.to[k]]); } }
    }
  }

  lemma ShowsSrc(l: Longhand, k: nat, e: Entry)
    requires Sized(l) && k < 11 && Shows(l, k, e)
    ensures e.src == l.src
  {
    hide Clobbers;
  }

  lemma {:induction false} AllKept(p: Program, l: Longhand, a: Word)
    requires WellFormed(p) && LaidOut(p, l) && OnLine(p, l.at[0], a) && a <= l.at[11]
    ensures Kept(p, l, a)
    decreases a
  {
    hide WellFormed, LaidOut, TablesAt, Resets, Prev, Has, Untouched;
    FirstIsFirst(p, l);
    if a != l.at[0] {
      BackOne(p, a);
      var b := Prev(p, a).value;
      AllKept(p, l, b);
      Backwards(p, l.at[0], b);
      forall k | 0 <= k < 11 && l.at[k] < a && Untouched(p, l.to[k], l.at[k], a) ensures Has(l, k, TablesAt(p, a)) {
        KeptOn(p, l, k, b, a);
      }
    }
  }

  lemma FirstIsFirst(p: Program, l: Longhand)
    requires LaidOut(p, l)
    ensures Sized(l) && forall k :: 0 <= k < 12 ==> l.at[0] <= l.at[k]
  {
    hide Spelled, Untouched, Takes, OnLine, TablesAt;
  }

  /** Some operation after the first writes the source. */
  predicate InPlace(l: Longhand)
    requires Sized(l)
  {
    exists k :: 0 < k < 11 && l.to[k] == l.src
  }

  lemma InPlaceIs(l: Longhand)
    requires Sized(l)
    ensures Clobbers(l, 10) <==> InPlace(l)
  {
    ClobbersMiddle(l);
    assert Clobbers(l, 9) == (Clobbers(l, 8) || l.to[9] == l.src);
    assert Clobbers(l, 8) == (Clobbers(l, 6) || Clobbers(l, 7) || l.to[8] == l.src);
    assert Clobbers(l, 7) == (Clobbers(l, 6) || l.to[7] == l.src);
  }

  lemma ClobbersMiddle(l: Longhand)
    requires Sized(l)
    ensures Clobbers(l, 6) <==> exists k :: 0 < k <= 6 && l.to[k] == l.src
  {
    assert Clobbers(l, 1) == (l.to[1] == l.src);
    assert Clobbers(l, 2) == (Clobbers(l, 1) || l.to[2] == l.src);
    assert Clobbers(l, 3) == (Clobbers(l, 2) || l.to[3] == l.src);
    assert Clobbers(l, 4) == (Clobbers(l, 2) || l.to[4] == l.src);
    assert Clobbers(l, 5) == (Clobbers(l, 4) || l.to[5] == l.src);
  }

  /** A bit count laid out so is found: with its source, width and start, counted as twelve
      instructions, unless it writes over its source and that is not answered dead. */
  lemma Recognised(p: Program, l: Longhand)
    requires WellFormed(p) && LaidOut(p, l) && Readable(p, l.at[11])
    ensures var a := l.at[11];
            BitCountAt(p, a) ==
            if InPlace(l) && WalkAnswer(p, Wrap(a + p.code[a].len), l.src) != Dead then None
            else Some(BitCount(l.rd, l.src, l.wide, l.at[0], 12))
  {
    hide LaidOut, WellFormed, TablesAt, WalkAnswer, Clobbers, IsTarget, Prev, Closes, InPlace, IsOperation, OnLine,
         Shows;
    FirstIsFirst(p, l);
    var a := l.at[11];
    LastHas(p, l);
    InPlaceIs(l);
    ClosesThere(l, TablesAt(p, a), p.code[a].insn);
    OnlineNoTarget(p, l.at[0], a);
  }

  lemma LastHas(p: Program, l: Longhand)
    requires WellFormed(p) && LaidOut(p, l)
    ensures var a := l.at[11];
            && a in p.code && Has(l, 10, TablesAt(p, a)) && IsOperation(l, 11, p.code[a].insn)
            && OnLine(p, l.at[0], a) && l.at[0] != a
  {
    hide WellFormed, TablesAt, Untouched, OnLine, Spelled, Has;
    AllKept(p, l, l.at[11]);
    assert Takes(11, 10);
    assert Spelled(l, 11, TablesAt(p, l.at[11]), p.code[l.at[11]].insn);
    SpelledIs(l, 11, TablesAt(p, l.at[11]), p.code[l.at[11]].insn);
  }

  lemma SpelledIs(l: Longhand, k: nat, t: Tables, i: Insn)
    requires Sized(l) && k < 12 && Spelled(l, k, t, i)
    ensures IsOperation(l, k, i)
  {
  }

  lemma ClosesThere(l: Longhand, t: Tables, i: Insn)
    requires Sized(l) && IsOperation(l, 11, i) && Has(l, 10, t)
    ensures Closes(t, i) == Some(l.to[10]) && XDest(i) == l.rd && l.to[10] in t.entry
    ensures var e := t.entry[l.to[10]];
            e.src == l.src && e.wide == l.wide && e.start == l.at[0] && e.clobbered == Clobbers(l, 10) && e.insns == 11
  {
    hide Clobbers;
  }

  lemma OnlineNoTarget(p: Program, x: Word, a: Word)
    requires OnLine(p, x, a) && x != a
    ensures !IsTarget(p, a)
  {
  }

  // ---- which constants are known ----

  /** What an instruction makes of constants alone: `li` and `lui`, `addi`, `addiw` and
      `slli` of one that is known, but for the hints, and the sum and union of two. */
  function Computed(i: Insn, len: nat, known: map<Reg, Word>): Option<Word> {
    match i
    case Lui(rd, k) => if rd != 0 then Some(Wrap(k)) else None
    case Alu(op, rd, a, K(k)) =>
      if rd == 0 then None
      else if op == Add && a == 0 then Some(Wrap(k))
      else if (op == Add || op == Addw || op == Sll) && a in known && (len == 4 || (k != 0 && rd == a))
      then Some(AluVal(op, known[a], Wrap(k)))
      else None
    case Alu(op, rd, a, R(b)) =>
      if (op == Add || op == Or) && rd != 0 && a != 0 && b != 0 && a in known && b in known
      then Some(AluVal(op, known[a], known[b]))
      else None
    case _ => None
  }

  lemma ConstantIs(t: Tables, i: Insn, len: nat)
    ensures MoveOf(t, i, len).Constant? <==> Computed(i, len, t.known).Some?
    ensures MoveOf(t, i, len).Constant? ==>
              MoveOf(t, i, len).rd == XDest(i) != 0 && MoveOf(t, i, len).v == Computed(i, len, t.known).value
  {
    hide AndMove, SubMove, AddMove, MulMove, ShiftMove, Sext, Pow2, Ushift, BitWord;
    var st := StepOf(i, len);
    if st.Some? && st.value.reg in t.known { SteppedIs(st.value, t.known[st.value.reg]); }
    hide Stepped, Wrap;
  }

  lemma SteppedIs(st: ConstStep, v: Word)
    requires st.op == Add || st.op == Addw || st.op == Sll
    ensures Stepped(st, v) == AluVal(st.op, v, Wrap(st.imm))
  {
    assert (v + Wrap(st.imm)) % W64 == (v + st.imm) % W64 by { WrapSum(v, st.imm); }
    SextShifts(v + Wrap(st.imm), v + st.imm);
    hide Sext, Pow2, Ushift;
  }

  /** The constants known after one instruction of a line are those there were, less its
      destination, and what it makes of them. */
  lemma KnownExactly(p: Program, b: Word, a: Word)
    requires WellFormed(p) && !Resets(p, a) && Prev(p, a) == Some(b) && b in p.code
    ensures var i, was := p.code[b].insn, TablesAt(p, b).known;
            TablesAt(p, a).known ==
            match Computed(i, p.code[b].len, was)
            case Some(v) => was[XDest(i) := v]
            case None => was - {XDest(i)}
  {
    hide WellFormed, TablesAt, Resets, Prev, MoveOf, Computed, Written;
    Placed(p, b);
    TablesAfter(p, b, a);
    var t, i, len := TablesAt(p, b), p.code[b].insn, p.code[b].len;
    ConstantIs(t, i, len);
    MoveDest(t, i, len);
    if MoveOf(t, i, len).Leave? { LeaveDest(t, i, len); }
    ZeroUnknown(p, b);
    var m := MoveOf(t, i, len);
    if m.Constant? { assert (t.known - {m.rd})[m.rd := m.v] == t.known[m.rd := m.v]; }
  }

  lemma LeaveDest(t: Tables, i: Insn, len: nat)
    requires PlainInsn(i) && MoveOf(t, i, len).Leave?
    ensures XDest(i) == 0
  {
    hide AndMove, SubMove, AddMove, MulMove, ShiftMove, Stepped, Merged;
  }

  lemma {:induction false} ZeroUnknown(p: Program, a: Word)
    requires WellFormed(p)
    ensures 0 !in TablesAt(p, a).known
    decreases a
  {
    hide WellFormed, MoveOf, Resets, Prev, Written;
    if !Resets(p, a) {
      BackOne(p, a);
      var b := Prev(p, a).value;
      ZeroUnknown(p, b);
      ConstantIs(TablesAt(p, b), p.code[b].insn, p.code[b].len);
    }
  }
}
