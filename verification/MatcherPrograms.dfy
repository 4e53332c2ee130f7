/** Whole programs whose longhand bit count the check reports and which count something
    else. */
module MatcherPrograms {
  import opened Words
  import opened Wrappers
  import opened Machine
  import opened Sweep
  import opened Liveness
  import opened ConstSteps
  import opened Popcount
  import opened Matcher
  import opened MatcherExact
  import opened MatcherState

  // ---- straight code from address 0 ----

  /** Register code, every instruction of four bytes. */
  predicate Simple(code: seq<Insn>) {
    |code| < 1000 && forall k :: 0 <= k < |code| ==> (code[k].Alu? || code[k].Lui?) && PlainInsn(code[k])
  }

  function Placed4(i: Insn): Decoded {
    Decoded(i, 4, Reads(i) + Writes(i))
  }

  function Straight(code: seq<Insn>): Program {
    Program(0, 4 * |code|, map a: Word | 0 <= a < 4 * |code| && a % 4 == 0 :: Placed4(code[a / 4]), {})
  }

  lemma StraightPlaced(code: seq<Insn>)
    requires Simple(code)
    ensures WellFormed(Straight(code)) && QuietLandings(Straight(code)) && Quiet(Straight(code), 0)
  {
    hide Reads, Writes, Quiet, PlainInsn;
    var p := Straight(code);
    forall a | a in p.code ensures WellPlaced(p, a, p.code[a]) {
      StraightFits(code, a);
    }
    forall a, b | a in p.code && b in p.code && a < b ensures a + p.code[a].len <= b { FoursApart(a, b); }
    hide WellPlaced;
    QuietAtZero(p);
  }

  lemma StraightFits(code: seq<Insn>, a: Word)
    requires Simple(code) && a in Straight(code).code
    ensures WellPlaced(Straight(code), a, Straight(code).code[a])
  {
    hide Reads, Writes, PlainInsn;
    assert Straight(code).code[a] == Placed4(code[a / 4]);
  }

  lemma FoursApart(a: int, b: int)
    requires a % 4 == 0 && b % 4 == 0 && a < b
    ensures a + 4 <= b
  {
  }

  lemma QuietAtZero(p: Program)
    ensures Quiet(p, 0)
  {
  }

  lemma StraightAt(code: seq<Insn>, k: nat)
    requires Simple(code) && k < |code|
    ensures 4 * k in Straight(code).code && Straight(code).code[4 * k] == Placed4(code[k])
  {
    assert 4 * k / 4 == k && 4 * k % 4 == 0;
  }

  lemma NoEntries(code: seq<Insn>, a: Word)
    requires Simple(code)
    ensures !IsTarget(Straight(code), a)
  {
    hide PlainInsn;
    var p := Straight(code);
    forall b | b in p.code ensures !TransfersTo(p.code[b].insn, b, a) {
      assert p.code[b] == Placed4(code[b / 4]);
    }
  }

  lemma StraightOn(code: seq<Insn>, k: nat)
    requires Simple(code) && k < |code|
    ensures var p := Straight(code);
            && 4 * k in p.code && !Resets(p, 4 * k + 4) && Prev(p, 4 * k + 4) == Some(4 * k as Word)
            && Readable(p, 4 * k) && p.code[4 * k].insn == code[k] && p.code[4 * k].len == 4
  {
    hide PlainInsn, IsTarget;
    var p := Straight(code);
    StraightAt(code, k);
    NoEntries(code, 4 * k + 4);
    assert (4 * k + 2) % 4 == 2;
    assert 4 * k + 4 - 2 !in p.code;
  }

  // ---- one instruction of it ----

  function New(t: Tables, m: Move, a: Word): Entry
    requires m.Open? || m.Advance?
  {
    if m.Open? then Opened(m.src, 4, a) else Written(m.from, m.rd, m.stage, 4)
  }

  predicate Spares(t: Tables, m: Move) {
    (m.Open? || m.Advance?) && m.rd !in t.known && (m.Open? ==> forall q :: q in t.entry ==> t.entry[q].src != m.rd)
  }

  lemma AfterStage(t: Tables, m: Move, a: Word)
    requires Spares(t, m)
    ensures After(t, m, 4, a) == Tables(t.entry[m.rd := New(t, m, a)], t.known)
  {
    hide Written;
    assert t.known - {m.rd} == t.known;
    var kept := if m.Open? then Kill(t, m.rd) else ClearDst(t, m.rd);
    assert kept.entry[m.rd := New(t, m, a)] == t.entry[m.rd := New(t, m, a)];
  }

  /** A stage is made in a register that holds no constant and is the source of none. */
  lemma StageStep(code: seq<Insn>, k: nat, m: Move)
    requires Simple(code) && k < |code|
    requires var t := TablesAt(Straight(code), 4 * k);
             MoveOf(t, code[k], 4) == m && Spares(t, m) && (m.Open? || m.Advance?)
    ensures var p := Straight(code);
            var t := TablesAt(p, 4 * k);
            && TablesAt(p, 4 * k + 4) == Tables(t.entry[m.rd := New(t, m, 4 * k)], t.known)
            && TracesAt(p, 4 * k + 4) == TracesAt(p, 4 * k)[m.rd := Traced(TracesAt(p, 4 * k), m, 4 * k)]
  {
    hide Resets, Prev, MoveOf, Written, Traced, PlainInsn, Spares, After, New;
    var p := Straight(code);
    StraightOn(code, k);
    hide Straight;
    var t := TablesAt(p, 4 * k);
    assert TablesAt(p, 4 * k + 4) == After(t, m, 4, 4 * k);
    AfterStage(t, m, 4 * k);
    TracesStep(p, 4 * k, 4 * k + 4, m);
  }

  lemma TracesStep(p: Program, b: Word, a: Word, m: Move)
    requires b in p.code && !Resets(p, a) && Prev(p, a) == Some(b) && MoveAt(p, b) == m && (m.Open? || m.Advance?)
    requires TablesAt(p, a).entry.Keys == TablesAt(p, b).entry.Keys + {m.rd}
    ensures TracesAt(p, a) == TracesAt(p, b)[m.rd := Traced(TracesAt(p, b), m, b)]
  {
    hide Resets, Prev, MoveAt, Traced, TablesAt;
    TracesFor(p, b);
    TracesFor(p, a);
  }

  lemma ConstantStep(code: seq<Insn>, k: nat, rd: Reg, v: Word)
    requires Simple(code) && k < |code| && MoveOf(TablesAt(Straight(code), 4 * k), code[k], 4) == Constant(rd, v)
    requires TablesAt(Straight(code), 4 * k).entry == map[]
    ensures var p := Straight(code); TablesAt(p, 4 * k + 4) == Tables(map[], TablesAt(p, 4 * k).known[rd := v])
    ensures TracesAt(Straight(code), 4 * k + 4) == map[]
  {
    hide Resets, Prev, MoveOf, PlainInsn;
    var p := Straight(code);
    StraightOn(code, k);
    hide Straight;
    var t := TablesAt(p, 4 * k);
    assert TablesAt(p, 4 * k + 4) == After(t, Constant(rd, v), 4, 4 * k);
    assert (t.known - {rd})[rd := v] == t.known[rd := v];
  }

  // ---- the masks ----

  const Masking: seq<Insn> :=
    [Lui(24, 0x5555_5000), Alu(Add, 24, 24, K(0x555)), Lui(25, 0x3333_3000), Alu(Add, 25, 25, K(0x333)),
     Lui(26, 0x0f0f_1000), Alu(Add, 26, 26, K(-0xf1)), Lui(27, 0x0101_0000), Alu(Add, 27, 27, K(0x101))]

  const MasksHeld: map<Reg, Word> := map[24 := 0x5555_5555, 25 := 0x3333_3333, 26 := 0x0f0f_0f0f, 27 := 0x0101_0101]

  /** `lui` and `addi`. */
  lemma PairStep(code: seq<Insn>, k: nat, rd: Reg, hi: int, lo: int)
    requires Simple(code) && k + 1 < |code| && rd != 0 && 0 <= hi < W32 && -2048 <= lo <= 2047 && 0 <= hi + lo < W32
    requires code[k] == Lui(rd, hi) && code[k + 1] == Alu(Add, rd, rd, K(lo))
             && TablesAt(Straight(code), 4 * k).entry == map[]
    ensures var p := Straight(code); TablesAt(p, 4 * k + 8) == Tables(map[], TablesAt(p, 4 * k).known[rd := hi + lo])
    ensures TracesAt(Straight(code), 4 * k + 8) == map[]
  {
    hide TablesAt, TracesAt, PlainInsn;
    var t := TablesAt(Straight(code), 4 * k);
    ConstantStep(code, k, rd, hi);
    var u := TablesAt(Straight(code), 4 * k + 4);
    assert Stepped(ConstStep(rd, rd, Add, lo), hi) == hi + lo;
    ConstantStep(code, k + 1, rd, hi + lo);
    assert u.known[rd := hi + lo] == t.known[rd := hi + lo];
  }

  ghost predicate MasksReady(code: seq<Insn>) {
    Simple(code) && |code| > 8 && code[..8] == Masking
  }

  lemma MasksBuilt(code: seq<Insn>)
    requires MasksReady(code)
    ensures TablesAt(Straight(code), 32) == Tables(map[], MasksHeld) && TracesAt(Straight(code), 32) == map[]
  {
    hide TablesAt, TracesAt, Simple, Straight;
    var p := Straight(code);
    assert TablesAt(p, 0) == NoTables by { NothingFirst(p); }
    forall k | 0 <= k < 8 ensures code[k] == Masking[k] { assert code[..8][k] == code[k]; }
    PairStep(code, 0, 24, 0x5555_5000, 0x555);
    PairStep(code, 2, 25, 0x3333_3000, 0x333);
    PairStep(code, 4, 26, 0x0f0f_1000, -0xf1);
    PairStep(code, 6, 27, 0x0101_0000, 0x101);
    assert TablesAt(p, 32).known == MasksHeld;
  }

  lemma NothingFirst(p: Program)
    ensures TablesAt(p, 0) == NoTables && TracesAt(p, 0) == map[]
  {
  }

  // ---- its moves ----

  /** The entry of a narrow sequence of x10 in four-byte instructions. */
  function Narrow(st: Stage, clobbered: bool, insns: nat, base: nat, start: Word): Entry {
    Entry(st, 10, false, clobbered, insns, 4 * insns, base, 4 * base, start)
  }

  lemma OpenMove(t: Tables, rd: Reg)
    requires t.known == MasksHeld && rd != 10
    ensures MoveOf(t, Alu(Srl, rd, 10, K(1)), 4) == Open(rd, 10)
  {
  }

  lemma ShiftStage(t: Tables, rd: Reg, a: Reg, k: int)
    requires t.known == MasksHeld && ((k == 2 && At(t, a, Stage1)) || (k == 4 && At(t, a, Stage2)))
    ensures MoveOf(t, Alu(Srl, rd, a, K(k)), 4) == Advance(rd, t.entry[a], if k == 2 then Shr2 else Shr4, a, a)
  {
  }

  lemma MaskStage(t: Tables, rd: Reg, a: Reg, st: Stage)
    requires t.known == MasksHeld && rd != 0 && a in t.entry && !t.entry[a].wide
    requires st == And55 || st == And33 || st == And33S || st == Stage3
    requires t.entry[a].stage == FromOne(st)
    requires var b := if st == And55 then 24 else if st == Stage3 then 26 else 25; b !in t.entry
    ensures var b := if st == And55 then 24 else if st == Stage3 then 26 else 25;
            MoveOf(t, Alu(And, rd, a, R(b)), 4) == Advance(rd, t.entry[a], st, a, a)
  {
    var b: Reg := if st == And55 then 24 else if st == Stage3 then 26 else 25;
    assert MoveOf(t, Alu(And, rd, a, R(b)), 4) == AndMove(t, rd, a, b);
    assert t.entry[a].(wide := false) == t.entry[a];
    var want := FromOne(st);
    assert ArmMove(t, rd, a, b, Shr1, And55, M55).Some? <==> st == And55;
    assert ArmMove(t, rd, a, b, Stage1, And33, M33).Some? <==> st == And33;
    assert ArmMove(t, rd, a, b, Shr2, And33S, M33).Some? <==> st == And33S;
  }

  lemma SubStage(t: Tables, rd: Reg, b: Reg)
    requires rd != 0 && At(t, b, And55) && t.entry[b].src == 10
    ensures MoveOf(t, Alu(Sub, rd, 10, R(b)), 4) == Advance(rd, t.entry[b], Stage1, b, b)
  {
  }

  /** The first of the two registers has the earlier stage. */
  lemma JoinStage(t: Tables, rd: Reg, a: Reg, b: Reg)
    requires t.known == MasksHeld && rd != 0 && a !in t.known && At(t, a, And33) && At(t, b, And33S)
    requires t.entry[a].src == t.entry[b].src && t.entry[a].wide == t.entry[b].wide
             && t.entry[a].base == t.entry[b].base
    ensures MoveOf(t, Alu(Add, rd, a, R(b)), 4) == Advance(rd, Joined(t.entry[a], t.entry[b]), Stage2, a, b)
  {
    hide Joined;
    assert MoveOf(t, Alu(Add, rd, a, R(b)), 4) == AddMove(t, rd, a, b);
  }

  lemma SumStage(t: Tables, rd: Reg, a: Reg, b: Reg)
    requires t.known == MasksHeld && rd != 0 && a !in t.known && At(t, a, Stage2) && At(t, b, Shr4)
    requires t.entry[a].src == t.entry[b].src && t.entry[a].wide == t.entry[b].wide
             && t.entry[b].insns > t.entry[a].insns
    requires t.entry[b].clobbered == (t.entry[a].clobbered || t.entry[b].clobbered)
    ensures MoveOf(t, Alu(Add, rd, a, R(b)), 4) == Advance(rd, t.entry[b], Sum4, a, b)
  {
    assert MoveOf(t, Alu(Add, rd, a, R(b)), 4) == AddMove(t, rd, a, b);
  }

  lemma MulStage(t: Tables, rd: Reg, a: Reg)
    requires t.known == MasksHeld && rd != 0 && At(t, a, Stage3) && !t.entry[a].wide && 27 !in t.entry
    ensures MoveOf(t, Alu(Mul, rd, a, R(27)), 4) == Advance(rd, t.entry[a], Product, a, a)
  {
    assert MoveOf(t, Alu(Mul, rd, a, R(27)), 4) == MulMove(t, rd, a, 27);
    assert t.entry[a].(wide := false) == t.entry[a];
  }

  // ---- from the nibbles to the count ----

  const Ending: seq<Insn> :=
    [Alu(Srl, 7, 12, K(4)), Alu(Add, 12, 12, R(7)), Alu(And, 12, 12, R(26)), Alu(Mul, 12, 12, R(27)),
     Alu(Srlw, 14, 12, K(24)), Alu(Add, 10, 0, K(0))]

  /** The masks are held and every sequence is of x10 and in another register. */
  predicate Ready(t: Tables) {
    t.known == MasksHeld && forall r :: r in t.entry ==> r < 24 && t.entry[r].src == 10
  }

  ghost predicate HasStage(p: Program, a: Word, r: Reg, e: Entry, parts: seq<Part>) {
    && Ready(TablesAt(p, a)) && r in TablesAt(p, a).entry && TablesAt(p, a).entry[r] == e
    && TraceOf(TracesAt(p, a), r) == Trace(parts, false)
  }

  /** The other registers keep theirs. */
  ghost predicate Others(p: Program, b: Word, a: Word, rd: Reg) {
    forall q, e, parts :: q != rd && HasStage(p, b, q, e, parts) ==> HasStage(p, a, q, e, parts)
  }

  /** What a stage's instruction does to the tables. */
  lemma StageMade(code: seq<Insn>, k: nat, m: Move)
    requires Simple(code) && k < |code| && (m.Open? || m.Advance?) && m.rd < 24 && (m.Open? ==> m.rd != 10)
    requires var t := TablesAt(Straight(code), 4 * k);
             Ready(t) && MoveOf(t, code[k], 4) == m && New(t, m, 4 * k).src == 10
               && !Traced(TracesAt(Straight(code), 4 * k), m, 4 * k).lost
    ensures var p := Straight(code);
            && HasStage(p, 4 * k + 4, m.rd, New(TablesAt(p, 4 * k), m, 4 * k),
                        Traced(TracesAt(p, 4 * k), m, 4 * k).parts)
            && Others(p, 4 * k, 4 * k + 4, m.rd)
  {
    hide TablesAt, TracesAt, Simple, Straight, MoveOf, New, Traced;
    StageStep(code, k, m);
  }

  lemma OpenMade(code: seq<Insn>, k: nat, rd: Reg)
    requires Simple(code) && k < |code| && code[k] == Alu(Srl, rd, 10, K(1)) && 0 < rd < 24 && rd != 10
    requires Ready(TablesAt(Straight(code), 4 * k))
    ensures HasStage(Straight(code), 4 * k + 4, rd, Narrow(Shr1, false, 1, 0, 4 * k), [])
    ensures Others(Straight(code), 4 * k, 4 * k + 4, rd)
  {
    assert 4 * k + 4 < W64;
    hide TablesAt, TracesAt, Simple, Straight, HasStage, Others;
    OpenMove(TablesAt(Straight(code), 4 * k), rd);
    hide MoveOf;
    StageMade(code, k, Open(rd, 10));
  }

  /** A stage made from one register. */
  lemma AdvanceMade(code: seq<Insn>, k: nat, rd: Reg, a: Reg, st: Stage, e: Entry, parts: seq<Part>)
    requires Simple(code) && k < |code| && 0 < rd < 24 && HasStage(Straight(code), 4 * k, a, e, parts)
    requires st != Stage2 && st != Sum4 && MoveOf(TablesAt(Straight(code), 4 * k), code[k], 4) ==
             Advance(rd, e, st, a, a)
    ensures HasStage(Straight(code), 4 * k + 4, rd, Written(e, rd, st, 4), if st == Stage1 then [Part(e.start, 4 * k)]
                     else parts)
    ensures Others(Straight(code), 4 * k, 4 * k + 4, rd)
  {
    hide TablesAt, TracesAt, Simple, Straight, MoveOf, Others, Written;
    var m := Advance(rd, e, st, a, a);
    WrittenIs(e, rd, st, 4);
    StageMade(code, k, m) by { assert e.src == 10; }
  }

  lemma MaskMade(code: seq<Insn>, k: nat, rd: Reg, a: Reg, st: Stage, e: Entry, parts: seq<Part>)
    requires Simple(code) && k < |code| && 0 < rd < 24 && HasStage(Straight(code), 4 * k, a, e, parts) && !e.wide
    requires (st == And55 || st == And33 || st == And33S || st == Stage3) && e.stage == FromOne(st)
    requires code[k] == Alu(And, rd, a, R(if st == And55 then 24 else if st == Stage3 then 26 else 25))
    ensures HasStage(Straight(code), 4 * k + 4, rd, Written(e, rd, st, 4), parts)
            && Others(Straight(code), 4 * k, 4 * k + 4, rd)
  {
    assert 4 * k + 4 < W64;
    hide TablesAt, TracesAt, Simple, Straight, Others, Written, MoveOf;
    MaskStage(TablesAt(Straight(code), 4 * k), rd, a, st);
    AdvanceMade(code, k, rd, a, st, e, parts);
  }

  lemma ShiftMade(code: seq<Insn>, k: nat, rd: Reg, a: Reg, e: Entry, parts: seq<Part>)
    requires Simple(code) && k < |code| && 0 < rd < 24 && HasStage(Straight(code), 4 * k, a, e, parts)
    requires (e.stage == Stage1 && code[k] == Alu(Srl, rd, a, K(2)))
             || (e.stage == Stage2 && code[k] == Alu(Srl, rd, a, K(4)))
    ensures HasStage(Straight(code), 4 * k + 4, rd, Written(e, rd, if e.stage == Stage1 then Shr2 else Shr4, 4), parts)
    ensures Others(Straight(code), 4 * k, 4 * k + 4, rd)
  {
    assert 4 * k + 4 < W64;
    hide TablesAt, TracesAt, Simple, Straight, Others, Written, MoveOf;
    ShiftStage(TablesAt(Straight(code), 4 * k), rd, a, if e.stage == Stage1 then 2 else 4);
    AdvanceMade(code, k, rd, a, if e.stage == Stage1 then Shr2 else Shr4, e, parts);
  }

  lemma SubMade(code: seq<Insn>, k: nat, rd: Reg, b: Reg, e: Entry)
    requires Simple(code) && k < |code| && 0 < rd < 24 && HasStage(Straight(code), 4 * k, b, e, []) && e.stage == And55
    requires code[k] == Alu(Sub, rd, 10, R(b))
    ensures HasStage(Straight(code), 4 * k + 4, rd, Written(e, rd, Stage1, 4), [Part(e.start, 4 * k)])
    ensures Others(Straight(code), 4 * k, 4 * k + 4, rd)
  {
    assert 4 * k + 4 < W64;
    hide TablesAt, TracesAt, Simple, Straight, Others, Written, MoveOf;
    SubStage(TablesAt(Straight(code), 4 * k), rd, b);
    AdvanceMade(code, k, rd, b, Stage1, e, []);
  }

  lemma MulMade(code: seq<Insn>, k: nat, rd: Reg, a: Reg, e: Entry, parts: seq<Part>)
    requires Simple(code) && k < |code| && 0 < rd < 24 && HasStage(Straight(code), 4 * k, a, e, parts)
             && e.stage == Stage3 && !e.wide
    requires code[k] == Alu(Mul, rd, a, R(27))
    ensures HasStage(Straight(code), 4 * k + 4, rd, Written(e, rd, Product, 4), parts)
            && Others(Straight(code), 4 * k, 4 * k + 4, rd)
  {
    assert 4 * k + 4 < W64;
    hide TablesAt, TracesAt, Simple, Straight, Others, Written, MoveOf;
    MulStage(TablesAt(Straight(code), 4 * k), rd, a);
    AdvanceMade(code, k, rd, a, Product, e, parts);
  }

  lemma Held(p: Program, a: Word, r: Reg, e: Entry, parts: seq<Part>)
    requires HasStage(p, a, r, e, parts)
    ensures Ready(TablesAt(p, a)) && TablesAt(p, a).known == MasksHeld && r !in TablesAt(p, a).known
    ensures r in TablesAt(p, a).entry && TablesAt(p, a).entry[r] == e && At(TablesAt(p, a), r, e.stage) && e.src == 10
    ensures TraceOf(TracesAt(p, a), r) == Trace(parts, false)
  {
    hide TablesAt, TracesAt;
  }

  lemma Joins(t: Tables, tr: Traces, m: Move, a: Word, x: seq<Part>, y: seq<Part>)
    requires m.Advance? && (m.stage == Stage2 || m.stage == Sum4) && m.rd != 0
    requires TraceOf(tr, m.one) == Trace(x, false) && TraceOf(tr, m.two) == Trace(y, false)
    ensures Traced(tr, m, a) == Trace(x + y, false) && New(t, m, a) == Written(m.from, m.rd, m.stage, 4)
  {
    hide Written;
  }

  /** A stage made from two. */
  lemma JoinMade(code: seq<Insn>, k: nat, rd: Reg, a: Reg, b: Reg, e: Entry, f: Entry, x: seq<Part>, y: seq<Part>)
    requires Simple(code) && k < |code| && 0 < rd < 24 && code[k] == Alu(Add, rd, a, R(b))
    requires HasStage(Straight(code), 4 * k, a, e, x) && HasStage(Straight(code), 4 * k, b, f, y) && e.wide == f.wide
    requires e.stage == And33 && f.stage == And33S && e.base == f.base
    ensures HasStage(Straight(code), 4 * k + 4, rd, Written(Joined(e, f), rd, Stage2, 4), x + y)
  {
    assert 4 * k + 4 < W64;
    var p := Straight(code);
    Held(p, 4 * k, a, e, x);
    Held(p, 4 * k, b, f, y);
    JoinSource(e, f);
    WrittenIs(Joined(e, f), rd, Stage2, 4);
    var m := Advance(rd, Joined(e, f), Stage2, a, b);
    hide *;
    JoinStage(TablesAt(p, 4 * k), rd, a, b);
    Joins(TablesAt(p, 4 * k), TracesAt(p, 4 * k), m, 4 * k, x, y);
    StageMade(code, k, m);
  }

  lemma SumMade(code: seq<Insn>, k: nat, rd: Reg, a: Reg, b: Reg, e: Entry, f: Entry, x: seq<Part>, y: seq<Part>)
    requires Simple(code) && k < |code| && 0 < rd < 24 && code[k] == Alu(Add, rd, a, R(b))
    requires HasStage(Straight(code), 4 * k, a, e, x) && HasStage(Straight(code), 4 * k, b, f, y) && e.wide == f.wide
    requires e.stage == Stage2 && f.stage == Shr4 && f.insns > e.insns && f.clobbered == (e.clobbered || f.clobbered)
    ensures HasStage(Straight(code), 4 * k + 4, rd, Written(f, rd, Sum4, 4), x + y)
  {
    assert 4 * k + 4 < W64;
    var p := Straight(code);
    Held(p, 4 * k, a, e, x);
    Held(p, 4 * k, b, f, y);
    WrittenIs(f, rd, Sum4, 4);
    var m := Advance(rd, f, Sum4, a, b);
    hide *;
    SumStage(TablesAt(p, 4 * k), rd, a, b);
    Joins(TablesAt(p, 4 * k), TracesAt(p, 4 * k), m, 4 * k, x, y);
    StageMade(code, k, m);
  }

  lemma JoinSource(e: Entry, f: Entry)
    ensures Joined(e, f).src == e.src
  {
  }

  /** The entry with its counts. */
  lemma NarrowNext(st: Stage, clobbered: bool, insns: nat, base: nat, start: Word, rd: Reg, to: Stage)
    requires to != Stage1
    ensures Written(Narrow(st, clobbered, insns, base, start), rd, to, 4) ==
            Narrow(to, clobbered || rd == 10, insns + 1, base, start)
  {
  }

  lemma NarrowTaken(clobbered: bool, start: Word, rd: Reg)
    ensures Written(Narrow(And55, clobbered, 2, 0, start), rd, Stage1, 4) ==
            Narrow(Stage1, clobbered || rd == 10, 3, 3, start)
  {
  }

  lemma Sums(code: seq<Insn>, k: nat, l: nat, parts: seq<Part>)
    requires l == k + 1 && 4 * l == 4 * k + 4
    requires Simple(code) && l < |code| && code[k] == Alu(Srl, 7, 12, K(4)) && code[l] == Alu(Add, 12, 12, R(7))
    requires HasStage(Straight(code), 4 * k, 12, Narrow(Stage2, true, 7, 3, 32), parts)
    ensures HasStage(Straight(code), 4 * l + 4, 12, Narrow(Sum4, true, 9, 3, 32), parts + parts)
  {
    assert 4 * l + 4 < W64;
    var e := Narrow(Stage2, true, 7, 3, 32);
    NarrowIs(Stage2, true, 7, 3, 32);
    NarrowNext(Stage2, true, 7, 3, 32, 7, Shr4);
    NarrowIs(Shr4, true, 8, 3, 32);
    NarrowNext(Shr4, true, 8, 3, 32, 12, Sum4);
    hide HasStage, Simple, Straight, Narrow, Written;
    ShiftMade(code, k, 7, 12, e, parts);
    assert HasStage(Straight(code), 4 * l, 12, e, parts);
    SumMade(code, l, 12, 12, 7, e, Narrow(Shr4, true, 8, 3, 32), parts, parts);
  }

  lemma MasksOctets(code: seq<Insn>, k: nat, parts: seq<Part>)
    requires Simple(code) && k < |code| && code[k] == Alu(And, 12, 12, R(26))
    requires HasStage(Straight(code), 4 * k, 12, Narrow(Sum4, true, 9, 3, 32), parts)
    ensures HasStage(Straight(code), 4 * k + 4, 12, Narrow(Stage3, true, 10, 3, 32), parts)
  {
    NarrowIs(Sum4, true, 9, 3, 32);
    NarrowNext(Sum4, true, 9, 3, 32, 12, Stage3);
    assert FromOne(Stage3) == Sum4;
    hide *;
    MaskMade(code, k, 12, 12, Stage3, Narrow(Sum4, true, 9, 3, 32), parts);
  }

  lemma Multiplies(code: seq<Insn>, k: nat, parts: seq<Part>)
    requires Simple(code) && k < |code| && code[k] == Alu(Mul, 12, 12, R(27))
    requires HasStage(Straight(code), 4 * k, 12, Narrow(Stage3, true, 10, 3, 32), parts)
    ensures HasStage(Straight(code), 4 * k + 4, 12, Narrow(Product, true, 11, 3, 32), parts)
  {
    NarrowIs(Stage3, true, 10, 3, 32);
    NarrowNext(Stage3, true, 10, 3, 32, 12, Product);
    hide *;
    MulMade(code, k, 12, 12, Narrow(Stage3, true, 10, 3, 32), parts);
  }

  lemma EndingIs(code: seq<Insn>, k: nat)
    requires k + 6 == |code| && code[k..] == Ending
    ensures code[k] == Alu(Srl, 7, 12, K(4)) && code[k + 1] == Alu(Add, 12, 12, R(7))
    ensures code[k + 2] == Alu(And, 12, 12, R(26)) && code[k + 3] == Alu(Mul, 12, 12, R(27))
    ensures code[k + 4] == Alu(Srlw, 14, 12, K(24)) && code[k + 5] == Alu(Add, 10, 0, K(0))
  {
    forall j | 0 <= j < 6 ensures code[k + j] == code[k..][j] {}
  }

  lemma EndingBuilds(code: seq<Insn>, k: nat, parts: seq<Part>)
    requires Simple(code) && k + 6 == |code| && code[k..] == Ending
    requires HasStage(Straight(code), 4 * k, 12, Narrow(Stage2, true, 7, 3, 32), parts)
    ensures HasStage(Straight(code), 4 * k + 16, 12, Narrow(Product, true, 11, 3, 32), parts + parts)
  {
    EndingIs(code, k);
    EndingFrom(code, k, k + 1, k + 2, k + 3, parts);
  }

  lemma EndingFrom(code: seq<Insn>, k: nat, l: nat, m: nat, n: nat, parts: seq<Part>)
    requires Simple(code) && k < l < m < n < |code| && 4 * k + 4 == 4 * l && 4 * l + 4 == 4 * m && 4 * m + 4 == 4 * n
    requires code[k] == Alu(Srl, 7, 12, K(4)) && code[l] == Alu(Add, 12, 12, R(7))
    requires code[m] == Alu(And, 12, 12, R(26)) && code[n] == Alu(Mul, 12, 12, R(27))
    requires HasStage(Straight(code), 4 * k, 12, Narrow(Stage2, true, 7, 3, 32), parts)
    ensures HasStage(Straight(code), 4 * n + 4, 12, Narrow(Product, true, 11, 3, 32), parts + parts)
  {
    hide HasStage, Simple, Straight, Narrow;
    Sums(code, k, l, parts);
    MasksOctets(code, m, parts + parts);
    Multiplies(code, n, parts + parts);
  }

  lemma NarrowIs(st: Stage, clobbered: bool, insns: nat, base: nat, start: Word)
    ensures var e := Narrow(st, clobbered, insns, base, start);
            e.stage == st && !e.wide && e.insns == insns && e.base == base && e.clobbered == clobbered
              && e.start == start
  {
  }

  /** Then the check reports it: the source is written right after. */
  lemma EndingReported(code: seq<Insn>, k: nat, parts: seq<Part>)
    requires Simple(code) && k + 6 == |code| && code[k..] == Ending
    requires HasStage(Straight(code), 4 * k + 16, 12, Narrow(Product, true, 11, 3, 32), parts)
    ensures var p, a := Straight(code), 4 * k + 16;
            && ClosesAt(p, a) && ClosedEntry(p, a) == Narrow(Product, true, 11, 3, 32)
               && ClosedTrace(p, a).parts == parts
            && BitCountAt(p, a) == Some(BitCount(14, 10, false, 32, 12))
  {
    hide TablesAt, TracesAt, Straight, WalkAnswer;
    var p := Straight(code);
    assert code[k + 4] == code[k..][4] && code[k + 5] == code[k..][5];
    StraightOn(code, k + 4);
    NoEntries(code, 4 * k + 16);
    SourceDead(code, k + 5);
    hide Simple, IsTarget;
    assert Wrap(4 * k + 20) == 4 * k + 20;
  }

  lemma SourceDead(code: seq<Insn>, k: nat)
    requires Simple(code) && k < |code| && code[k] == Alu(Add, 10, 0, K(0))
    ensures WalkAnswer(Straight(code), 4 * k, 10) == Dead
  {
    hide IsTarget;
    var p := Straight(code);
    StraightOn(code, k);
    assert p.vaddr == 0 && p.size == 4 * |code|;
    hide Straight, Simple;
    var r := PathFrom(p, 10, 4 * k, [], LIVE_BUDGET);
    assert r.end == Done && r.queue == [];
    hide PathFrom;
    assert WalkFrom(p, 10, [4 * k as Word], [], LIVE_BUDGET) == WalkFrom(p, 10, r.queue, [4 * k as Word], r.budget);
  }

  // ---- the source written over ----

  /** The mask put into the source itself, and the subtraction from that. */
  const Over: seq<Insn> :=
    Masking +
    [Alu(Srl, 5, 10, K(1)), Alu(And, 10, 5, R(24)), Alu(Sub, 12, 10, R(10)), Alu(And, 13, 12, R(25)),
     Alu(Srl, 12, 12, K(2)),
     Alu(And, 12, 12, R(25)), Alu(Add, 12, 13, R(12))] +
    Ending

  lemma OverSimple()
    ensures MasksReady(Over) && |Over| == 21 && Over[15..] == Ending
    ensures Over[8] == Alu(Srl, 5, 10, K(1)) && Over[9] == Alu(And, 10, 5, R(24)) && Over[10] == Alu(Sub, 12, 10, R(10))
    ensures Over[11] == Alu(And, 13, 12, R(25)) && Over[12] == Alu(Srl, 12, 12, K(2))
            && Over[13] == Alu(And, 12, 12, R(25))
    ensures Over[14] == Alu(Add, 12, 13, R(12))
  {
    assert Over[..8] == Masking;
    assert Over[15..] == Ending;
  }

  lemma OverMasks()
    ensures HasStage(Straight(Over), 40, 10, Narrow(And55, true, 2, 0, 32), []) && Simple(Over)
  {
    OverSimple();
    MasksBuilt(Over);
    IsSimple(Over);
    NarrowIs(Shr1, false, 1, 0, 32);
    NarrowNext(Shr1, false, 1, 0, 32, 10, And55);
    assert FromOne(And55) == Shr1 && Ready(Tables(map[], MasksHeld));
    hide *;
    OpenMade(Over, 8, 5);
    MaskMade(Over, 9, 10, 5, And55, Narrow(Shr1, false, 1, 0, 32), []);
  }

  lemma OverSubtracts()
    ensures HasStage(Straight(Over), 44, 12, Narrow(Stage1, true, 3, 3, 32), [Part(32, 40)])
  {
    OverSimple();
    OverMasks();
    hide Simple, Straight, Over, HasStage, MasksReady, Masking, Ending;
    SubMade(Over, 10, 12, 10, Narrow(And55, true, 2, 0, 32));
  }

  lemma IsSimple(code: seq<Insn>)
    requires MasksReady(code)
    ensures Simple(code)
  {
  }

  lemma OverHalves()
    ensures HasStage(Straight(Over), 52, 12, Narrow(Shr2, true, 4, 3, 32), [Part(32, 40)])
    ensures HasStage(Straight(Over), 52, 13, Narrow(And33, true, 4, 3, 32), [Part(32, 40)])
  {
    OverSimple();
    OverMasks();
    OverSubtracts();
    hide Simple, Straight, Over, HasStage, MasksReady, Masking, Ending;
    var parts := [Part(32, 40)];
    var one, low := Narrow(Stage1, true, 3, 3, 32), Narrow(And33, true, 4, 3, 32);
    MaskMade(Over, 11, 13, 12, And33, one, parts);
    assert HasStage(Straight(Over), 48, 12, one, parts);
    ShiftMade(Over, 12, 12, 12, one, parts);
    assert HasStage(Straight(Over), 52, 13, low, parts);
  }

  lemma OverBuilds()
    ensures HasStage(Straight(Over), 60, 12, Narrow(Stage2, true, 7, 3, 32), [Part(32, 40), Part(32, 40)])
  {
    OverSimple();
    OverMasks();
    OverHalves();
    hide Simple, Straight, Over, HasStage, MasksReady, Masking, Ending;
    var parts := [Part(32, 40)];
    var low := Narrow(And33, true, 4, 3, 32);
    MaskMade(Over, 13, 12, 12, And33S, Narrow(Shr2, true, 4, 3, 32), parts);
    assert HasStage(Straight(Over), 56, 13, low, parts);
    JoinMade(Over, 14, 12, 13, 12, low, Narrow(And33S, true, 5, 3, 32), parts, parts);
    assert parts + parts == [Part(32, 40), Part(32, 40)];
  }

  // ---- runs of straight code ----

  /** The run reaches every instruction, in the state the line makes of the first. */
  lemma {:induction false} StraightRuns(code: seq<Insn>, s: State, k: nat)
    requires Simple(code) && k <= |code| && s.pc == 0
    ensures Run(Straight(code), s, k) == Arrive(Straight(code), 0, 4 * k, s) && Run(Straight(code), s, k).pc == 4 * k
    decreases k
  {
    if k == 0 {
      BeginsAtZero(Straight(code), s);
    } else {
      var j: nat := k - 1;
      StraightRuns(code, s, j);
      hide *;
      RunsOn(code, s, j, k);
    }
  }

  lemma RunsOn(code: seq<Insn>, s: State, j: nat, k: nat)
    requires Simple(code) && j < |code| && k == j + 1 && 4 * k == 4 * j + 4
    requires Run(Straight(code), s, j) == Arrive(Straight(code), 0, 4 * j, s) && Run(Straight(code), s, j).pc == 4 * j
    ensures Run(Straight(code), s, k) == Arrive(Straight(code), 0, 4 * k, s) && Run(Straight(code), s, k).pc == 4 * k
  {
    var p, a, b := Straight(code), 4 * j, 4 * k;
    assert b < W64;
    assert code[j].Alu? || code[j].Lui?;
    StraightOn(code, j);
    RunNext(p, s, j, k);
    hide *;
    StraightStep(p, Run(p, s, j));
    ArriveOn(p, a, b, s);
  }

  lemma RunNext(p: Program, s: State, j: nat, k: nat)
    requires k == j + 1
    ensures Run(p, s, k) == Step(p, Run(p, s, j))
  {
    hide Step;
  }

  lemma BeginsAtZero(p: Program, s: State)
    ensures Run(p, s, 0) == s == Arrive(p, 0, 0, s)
  {
  }

  lemma ArriveOn(p: Program, b: Word, a: Word, s: State)
    requires b in p.code && !Resets(p, a) && Prev(p, a) == Some(b) && a != 0
    ensures Arrive(p, 0, a, s) == Effect(p.code[b].insn, p.code[b].len, Arrive(p, 0, b, s)).(pc := a)
  {
    hide Resets, Prev, Effect;
  }

  lemma StraightStep(p: Program, t: State)
    requires t.pc in p.code && (p.code[t.pc].insn.Alu? || p.code[t.pc].insn.Lui?) && p.code[t.pc].len == 4
             && t.pc + 4 < W64
    ensures Step(p, t) == Effect(p.code[t.pc].insn, 4, t).(pc := t.pc + 4)
  {
    hide Effect;
  }

  /** What a run of a whole program leaves where its sequence closes. */
  lemma CountInRun(code: seq<Insn>, k: nat, s: State)
    requires Simple(code) && k < |code| && s.pc == 0 && ClosesAt(Straight(code), 4 * k)
    ensures X(Run(Straight(code), s, k + 1), code[k].rd) == CountAt(Straight(code), 0, 4 * k, s)
  {
    hide Effect, TablesAt, TracesAt, Closes;
    StraightRuns(code, s, k);
    StraightOn(code, k);
    StraightRuns(code, s, k + 1);
    hide Straight, Simple, Resets, Prev;
  }

  /** One line from the first instruction on, before which nothing is known. */
  lemma {:induction false} FromZero(code: seq<Insn>, k: nat)
    requires Simple(code) && k <= |code|
    ensures OnLine(Straight(code), 0, 4 * k)
    decreases k
  {
    if k > 0 {
      var j: nat := k - 1;
      FromZero(code, j);
      OnFromZero(code, j, k);
    }
  }

  lemma OnFromZero(code: seq<Insn>, j: nat, k: nat)
    requires Simple(code) && j < |code| && 4 * k == 4 * j + 4 && OnLine(Straight(code), 0, 4 * j)
    ensures OnLine(Straight(code), 0, 4 * k)
  {
    StraightOn(code, j);
    hide Straight, Simple, Resets, Prev;
  }

  lemma NothingKnown(p: Program, s: State)
    ensures KnownTrue(TablesAt(p, 0), s)
  {
  }

  /** What a stage stands for where the line has come from the first instruction. */
  lemma StageReads(p: Program, a: Word, r: Reg, e: Entry, parts: seq<Part>, s: State)
    requires WellFormed(p) && OnLine(p, 0, a) && HasStage(p, a, r, e, parts) && |parts| == Uses(e.stage)
    ensures Fed(e.stage, SourceAt(p, 0, e, Trace(parts, false), s))
    ensures X(Arrive(p, 0, a, s), r) == StageValue(e.stage, e.wide, SourceAt(p, 0, e, Trace(parts, false), s))
  {
    NothingKnown(p, s);
    hide WellFormed, TablesAt, TracesAt, Arrive, KnownTrue, OnLine, StageValue, SourceAt, Ready;
    SourceFed(p, 0, e, Trace(parts, false), s);
    LineIsTrue(p, 0, a, s);
    assert EntryTrue(p, 0, e, Trace(parts, false), r, a, s);
  }

  lemma FollowsZero(code: seq<Insn>, k: nat, s: State)
    requires Simple(code) && k < |code| && ClosesAt(Straight(code), 4 * k)
    ensures Follows(Straight(code), 0, 4 * k, s)
  {
    FromZero(code, k);
    NothingKnown(Straight(code), s);
    hide TablesAt, TracesAt, KnownTrue, Straight, OnLine, Closes;
  }

  // ---- the first counts nothing ----

  lemma OverCloses()
    ensures var p := Straight(Over);
            && WellFormed(p) && ClosesAt(p, 76) && ClosedEntry(p, 76) == Narrow(Product, true, 11, 3, 32)
            && ClosedTrace(p, 76).parts == [Part(32, 40), Part(32, 40), Part(32, 40), Part(32, 40)]
            && BitCountAt(p, 76) == Some(BitCount(14, 10, false, 32, 12))
  {
    hide TablesAt, TracesAt, Straight, BitCountAt;
    OverSimple();
    OverBuilds();
    var parts := [Part(32, 40), Part(32, 40)];
    hide Over;
    StraightPlaced(Over);
    EndingBuilds(Over, 15, parts);
    EndingReported(Over, 15, parts + parts);
    assert parts + parts == [Part(32, 40), Part(32, 40), Part(32, 40), Part(32, 40)];
  }

  lemma OverTakes(s: State)
    ensures Difference(Straight(Over), 0, 10, false, Part(32, 40), s) == 0
  {
    hide TablesAt, TracesAt, Straight, Over, Arrive, Odd, OnLine, WellFormed, Narrow, HasStage, Wrap;
    var p := Straight(Over);
    OverSimple();
    OverMasks();
    OverPlaced();
    FromZero(Over, 10);
    NarrowIs(And55, true, 2, 0, 32);
    NarrowSource(And55, true, 2, 0, 32);
    StageReads(p, 40, 10, Narrow(And55, true, 2, 0, 32), [], s);
    hide *;
    TakesNothing(p, Narrow(And55, true, 2, 0, 32), s);
  }

  lemma NarrowSource(st: Stage, clobbered: bool, insns: nat, base: nat, start: Word)
    ensures Narrow(st, clobbered, insns, base, start).src == 10
  {
  }

  /** The mask put on into the source: nothing is left by the subtraction. */
  lemma TakesNothing(p: Program, e: Entry, s: State)
    requires e.stage == And55 && e.src == 10 && e.start == 32 && !e.wide
    requires X(Arrive(p, 0, 40, s), 10) == StageValue(And55, false, SourceAt(p, 0, e, Trace([], false), s))
    ensures Difference(p, 0, 10, false, Part(32, 40), s) == 0
  {
    hide Arrive, Odd;
  }

  /** The subtraction put into the source leaves stage one there. */
  lemma LeavesStageOne(p: Program, e: Entry, q: Part, s: State)
    requires e.stage == Stage1 && e.src == 10 && !e.wide && Unwritten(p, q.start, 10, q.taken) && OnLine(p, 0, q.start)
    requires X(Arrive(p, 0, 48, s), 10) == StageValue(Stage1, false, SourceAt(p, 0, e, Trace([q], false), s))
    ensures X(Arrive(p, 0, 48, s), 10) == Halved(false, X(Arrive(p, 0, q.start, s), 10))
  {
    hide Arrive, Odd, Unwritten, OnLine, Difference;
    CleanDifference(p, 0, 10, false, q, s);
  }

  lemma OverPlaced()
    ensures WellFormed(Straight(Over))
  {
    OverSimple();
    StraightPlaced(Over);
  }

  /** The check reports a count of x10 into x14 and, whatever x10 is, the program leaves
      nothing there. */
  lemma SourceOverwritten(s: State)
    requires s.pc == 0
    ensures var p := Straight(Over);
            && WellFormed(p) && QuietLandings(p) && Quiet(p, s.pc)
            && BitCountAt(p, 76) == Some(BitCount(14, 10, false, 32, 12))
            && X(Run(p, s, 8), 10) == X(s, 10) && Run(p, s, 8).pc == 32
            && X(Run(p, s, 20), 14) == 0
  {
    hide TablesAt, TracesAt, Straight, Arrive, WellFormed, QuietLandings, Quiet, Difference, ClosesAt, CountAt, Run,
         Follows;
    var p := Straight(Over);
    OverSimple();
    hide Over;
    StraightPlaced(Over);
    OverCloses();
    OverTakes(s);
    FollowsZero(Over, 19, s);
    CountIs(p, 0, 76, s);
    assert Differences(p, 0, 10, false, ClosedTrace(p, 76).parts, s) == Four(0);
    NothingCounted(false);
    CountInRun(Over, 19, s);
    SourceWaits(Over, s);
  }

  /** Building the masks leaves the source alone. */
  lemma SourceWaits(code: seq<Insn>, s: State)
    requires MasksReady(code) && s.pc == 0
    ensures Run(Straight(code), s, 8).pc == 32 && X(Run(Straight(code), s, 8), 10) == X(s, 10)
    ensures X(Arrive(Straight(code), 0, 32, s), 10) == X(s, 10)
  {
    StraightRuns(code, s, 8);
    FreshSource(code, 8);
    UnwrittenKeeps(Straight(code), 0, 0, 10, 32, s);
    BeginsAtZero(Straight(code), s);
    hide Run, Arrive, Straight, Simple, Unwritten;
  }

  lemma {:induction false} FreshSource(code: seq<Insn>, k: nat)
    requires MasksReady(code) && k <= 8
    ensures Unwritten(Straight(code), 0, 10, 4 * k)
  {
    if k > 0 {
      FreshSource(code, k - 1);
      NotSource(code, k - 1);
      UnwrittenOn(code, 0, k - 1, k);
    }
  }

  lemma NotSource(code: seq<Insn>, k: nat)
    requires MasksReady(code) && k < 8
    ensures 10 !in Writes(code[k])
  {
    assert code[k] == code[..8][k];
  }

  lemma UnwrittenOn(code: seq<Insn>, x: Word, j: nat, k: nat)
    requires Simple(code) && j < |code| && 4 * k == 4 * j + 4 && 10 !in Writes(code[j])
             && Unwritten(Straight(code), x, 10, 4 * j)
    ensures Unwritten(Straight(code), x, 10, 4 * k)
  {
    StraightOn(code, j);
    hide Straight, Simple, Resets, Prev, Writes;
  }

  // ---- two sequences joined ----

  /** The first stage one put into the source, which a second sequence then reads. */
  const Mixed: seq<Insn> :=
    Masking +
    [Alu(Srl, 5, 10, K(1)), Alu(And, 5, 5, R(24)), Alu(Sub, 10, 10, R(5)), Alu(And, 12, 10, R(25)),
     Alu(Srl, 6, 10, K(1)),
     Alu(And, 6, 6, R(24)), Alu(Sub, 7, 10, R(6)), Alu(Srl, 7, 7, K(2)), Alu(And, 7, 7, R(25)),
       Alu(Add, 12, 12, R(7))] +
    Ending

  lemma MixedSimple()
    ensures MasksReady(Mixed) && |Mixed| == 24 && Mixed[18..] == Ending && Simple(Mixed)
    ensures Mixed[8] == Alu(Srl, 5, 10, K(1)) && Mixed[9] == Alu(And, 5, 5, R(24))
            && Mixed[10] == Alu(Sub, 10, 10, R(5))
    ensures Mixed[11] == Alu(And, 12, 10, R(25)) && Mixed[12] == Alu(Srl, 6, 10, K(1))
            && Mixed[13] == Alu(And, 6, 6, R(24))
    ensures Mixed[14] == Alu(Sub, 7, 10, R(6)) && Mixed[15] == Alu(Srl, 7, 7, K(2))
            && Mixed[16] == Alu(And, 7, 7, R(25))
    ensures Mixed[17] == Alu(Add, 12, 12, R(7))
  {
    assert Mixed[..8] == Masking;
    assert Mixed[18..] == Ending;
  }

  const FirstPart: Part := Part(32, 40)
  const SecondPart: Part := Part(48, 56)

  lemma MixedFirst()
    ensures HasStage(Straight(Mixed), 44, 10, Narrow(Stage1, true, 3, 3, 32), [FirstPart])
  {
    MixedSimple();
    MasksBuilt(Mixed);
    NarrowIs(Shr1, false, 1, 0, 32);
    NarrowNext(Shr1, false, 1, 0, 32, 5, And55);
    NarrowIs(And55, false, 2, 0, 32);
    NarrowTaken(false, 32, 10);
    assert FromOne(And55) == Shr1 && Ready(Tables(map[], MasksHeld)) && FirstPart == Part(32, 40);
    hide *;
    OpenMade(Mixed, 8, 5);
    MaskMade(Mixed, 9, 5, 5, And55, Narrow(Shr1, false, 1, 0, 32), []);
    SubMade(Mixed, 10, 10, 5, Narrow(And55, false, 2, 0, 32));
  }

  lemma MixedLow()
    ensures HasStage(Straight(Mixed), 48, 10, Narrow(Stage1, true, 3, 3, 32), [FirstPart])
    ensures HasStage(Straight(Mixed), 52, 12, Narrow(And33, true, 4, 3, 32), [FirstPart])
    ensures HasStage(Straight(Mixed), 52, 6, Narrow(Shr1, false, 1, 0, 48), [])
  {
    MixedSimple();
    MixedFirst();
    hide Simple, Straight, Mixed, MasksReady, Masking, Ending, TracesAt, TablesAt;
    var one := Narrow(Stage1, true, 3, 3, 32);
    MaskMade(Mixed, 11, 12, 10, And33, one, [FirstPart]);
    assert HasStage(Straight(Mixed), 48, 10, one, [FirstPart]);
    OpenMade(Mixed, 12, 6);
    assert HasStage(Straight(Mixed), 52, 12, Narrow(And33, true, 4, 3, 32), [FirstPart]);
  }

  lemma MixedSecond()
    ensures HasStage(Straight(Mixed), 60, 7, Narrow(Stage1, false, 3, 3, 48), [SecondPart])
    ensures HasStage(Straight(Mixed), 60, 12, Narrow(And33, true, 4, 3, 32), [FirstPart])
  {
    MixedSimple();
    MixedLow();
    hide Simple, Straight, Mixed, HasStage, MasksReady, Masking, Ending;
    var low := Narrow(And33, true, 4, 3, 32);
    MaskMade(Mixed, 13, 6, 6, And55, Narrow(Shr1, false, 1, 0, 48), []);
    assert HasStage(Straight(Mixed), 56, 12, low, [FirstPart]);
    SubMade(Mixed, 14, 7, 6, Narrow(And55, false, 2, 0, 48));
    assert HasStage(Straight(Mixed), 60, 12, low, [FirstPart]);
  }

  lemma MixedBuilds()
    ensures HasStage(Straight(Mixed), 72, 12, Narrow(Stage2, true, 7, 3, 32), [FirstPart, SecondPart])
  {
    MixedSimple();
    MixedSecond();
    hide Simple, Straight, Mixed, HasStage, MasksReady, Masking, Ending;
    var low := Narrow(And33, true, 4, 3, 32);
    ShiftMade(Mixed, 15, 7, 7, Narrow(Stage1, false, 3, 3, 48), [SecondPart]);
    assert HasStage(Straight(Mixed), 64, 12, low, [FirstPart]);
    MaskMade(Mixed, 16, 7, 7, And33S, Narrow(Shr2, false, 4, 3, 48), [SecondPart]);
    assert HasStage(Straight(Mixed), 68, 12, low, [FirstPart]);
    JoinMade(Mixed, 17, 12, 12, 7, low, Narrow(And33S, false, 5, 3, 48), [FirstPart], [SecondPart]);
    assert [FirstPart] + [SecondPart] == [FirstPart, SecondPart];
  }

  lemma MixedCloses()
    ensures var p := Straight(Mixed);
            && WellFormed(p) && QuietLandings(p) && Quiet(p, 0)
            && ClosesAt(p, 88) && ClosedEntry(p, 88) == Narrow(Product, true, 11, 3, 32)
            && ClosedTrace(p, 88).parts == [FirstPart, SecondPart, FirstPart, SecondPart]
            && BitCountAt(p, 88) == Some(BitCount(14, 10, false, 32, 12))
  {
    hide TablesAt, TracesAt, Straight, BitCountAt, FirstPart, SecondPart;
    MixedSimple();
    MixedBuilds();
    var parts := [FirstPart, SecondPart];
    hide Mixed;
    StraightPlaced(Mixed);
    EndingBuilds(Mixed, 18, parts);
    EndingReported(Mixed, 18, parts + parts);
    assert parts + parts == [FirstPart, SecondPart, FirstPart, SecondPart];
  }

  lemma MixedClean()
    ensures Clean(Straight(Mixed), 10, [FirstPart, SecondPart, FirstPart, SecondPart])
  {
    MixedUnwritten();
    assert FirstPart.start == 32 && FirstPart.taken == 40 && SecondPart.start == 48 && SecondPart.taken == 56;
    hide *;
    CleanFour(Straight(Mixed), 10, FirstPart, SecondPart);
  }

  lemma CleanFour(p: Program, r: Reg, q: Part, w: Part)
    requires Unwritten(p, q.start, r, q.taken) && Unwritten(p, w.start, r, w.taken)
    ensures Clean(p, r, [q, w, q, w])
  {
    hide Unwritten;
  }

  lemma MixedUnwritten()
    ensures Unwritten(Straight(Mixed), 32, 10, 40) && Unwritten(Straight(Mixed), 48, 10, 56)
  {
    MixedSimple();
    assert 10 !in Writes(Alu(Srl, 5, 10, K(1))) && 10 !in Writes(Alu(And, 5, 5, R(24)));
    assert 10 !in Writes(Alu(Srl, 6, 10, K(1))) && 10 !in Writes(Alu(And, 6, 6, R(24)));
    hide Straight, Simple, Mixed, Writes;
    UnwrittenOn(Mixed, 32, 8, 9);
    UnwrittenOn(Mixed, 32, 9, 10);
    UnwrittenOn(Mixed, 48, 12, 13);
    UnwrittenOn(Mixed, 48, 13, 14);
  }

  /** What the second shift reads. */
  lemma MixedReads(s: State)
    ensures X(Arrive(Straight(Mixed), 0, 48, s), 10) == Halved(false, X(Arrive(Straight(Mixed), 0, 32, s), 10))
  {
    hide TablesAt, TracesAt, Straight, Mixed, Arrive, Odd, Unwritten, OnLine, WellFormed, Narrow, HasStage, Clean,
         ClosesAt, BitCountAt,
         Simple, MasksReady, Quiet, QuietLandings;
    var p := Straight(Mixed);
    MixedSimple();
    FromZero(Mixed, 8);
    FromZero(Mixed, 12);
    MixedLow();
    MixedUnwritten();
    MixedCloses();
    NarrowIs(Stage1, true, 3, 3, 32);
    NarrowSource(Stage1, true, 3, 3, 32);
    StageReads(p, 48, 10, Narrow(Stage1, true, 3, 3, 32), [FirstPart], s);
    assert FirstPart.start == 32 && FirstPart.taken == 40;
    hide *;
    LeavesStageOne(p, Narrow(Stage1, true, 3, 3, 32), FirstPart, s);
  }

  lemma TwelveBits()
    ensures Ones(32, 12) == 2 && Halved(false, 12) == 8
    ensures LanePairs(0, 4, 12) == 0 && LanePairs(2, 4, 12) == 0 && LanePairs(1, 4, 8) == 1 && LanePairs(3, 4, 8) == 0
  {
    hide Ones, Halved, LanePairs, PairAt;
    OnesOfThree(false, 1);
    ThreeHalved(false, 1);
    SmallLanes(1, 4, 8);
    SmallLanes(3, 4, 8);
    TwiceLane(1, 1);
    TwiceLane(3, 1);
    assert Three(1) == 12 && Twice(1) == 8;
  }

  /** The check reports a count of x10 into x14; begun with 12, which has two bits set,
      the program leaves 1 there. */
  lemma HalvesMixed(s: State)
    requires s.pc == 0 && X(s, 10) == 12
    ensures var p := Straight(Mixed);
            && WellFormed(p) && QuietLandings(p) && Quiet(p, s.pc)
            && BitCountAt(p, 88) == Some(BitCount(14, 10, false, 32, 12))
            && X(Run(p, s, 8), 10) == 12 && Run(p, s, 8).pc == 32
            && Ones(32, 12) == 2 && X(Run(p, s, 23), 14) == 1
  {
    hide TablesAt, TracesAt, Straight, Arrive, WellFormed, QuietLandings, Quiet, Difference, ClosesAt, CountAt, Run,
         Ones, Halved, LanePairs, Clean, Follows;
    var p := Straight(Mixed);
    MixedSimple();
    hide Mixed;
    MixedCloses();
    MixedClean();
    MixedReads(s);
    SourceWaits(Mixed, s);
    TwelveBits();
    FollowsZero(Mixed, 22, s);
    CleanCount(p, 0, 88, s);
    CountInRun(Mixed, 22, s);
  }
}
