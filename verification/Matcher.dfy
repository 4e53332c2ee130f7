/** The matcher that follows the longhand bit count through the registers: its
    tables, how one instruction changes them, and which of their entries are true
    of every run. */
module Matcher {
  import opened Words
  import opened Wrappers
  import opened Machine
  import opened Window
  import opened Sweep
  import opened ConstSteps
  import opened Popcount

  /** How far the sequence in a register has come. `src` and `start` name the
      opening shift's source and address; `base` and `baseBytes` are the counts at
      stage one, where the two halves of the middle part. */
  datatype Entry = Entry(stage: Stage, src: Reg, wide: bool, clobbered: bool,
                         insns: nat, bytes: nat, base: nat, baseBytes: nat, start: Word)

  datatype Tables = Tables(entry: map<Reg, Entry>, known: map<Reg, Word>)

  const NoTables: Tables := Tables(map[], map[])

  /** What an instruction is to the matcher. `one` and `two` are the registers whose
      entries an advance continues; only a join has two. */
  datatype Move =
    | Constant(rd: Reg, v: Word)
    | Open(rd: Reg, src: Reg)
    | Advance(rd: Reg, from: Entry, stage: Stage, one: Reg, two: Reg)
    | Spoil(rd: Reg)
    | Leave

  // ---- reading one instruction ----

  predicate IsMask(t: Tables, r: Reg, mask: Word) {
    r in t.known && t.known[r] == mask
  }

  predicate At(t: Tables, r: Reg, st: Stage) {
    r in t.entry && t.entry[r].stage == st
  }

  /** `and` with the mask of the stage; the first mask decides the width and the
      others must agree with it. */
  function MaskMove(t: Tables, rd: Reg, r: Reg, mask: Reg, give: Stage, m: bool -> Word): (o: Option<Move>)
    ensures o.Some? ==>
              && r in t.entry && mask in t.known && o.value.Advance? && o.value.stage == give && o.value.rd == rd
              && o.value.one == r == o.value.two
              && t.known[mask] == m(o.value.from.wide) && (give == And55 || o.value.from.wide == t.entry[r].wide)
              && o.value.from == t.entry[r].(wide := o.value.from.wide)
  {
    if r !in t.entry then None
    else
      var e := t.entry[r];
      if IsMask(t, mask, m(false)) && (give == And55 || !e.wide) then Some(Advance(rd, e.(wide := false), give, r, r))
      else if IsMask(t, mask, m(true)) && (give == And55 || e.wide) then Some(Advance(rd, e.(wide := true), give, r, r))
      else None
  }

  function ArmMove(t: Tables, rd: Reg, a: Reg, b: Reg, want: Stage, give: Stage, m: bool -> Word): (o: Option<Move>)
    ensures o.Some? ==> o.value.Advance? && o.value.stage == give && o.value.rd == rd
  {
    if At(t, a, want) then MaskMove(t, rd, a, b, give, m)
    else if At(t, b, want) then MaskMove(t, rd, b, a, give, m)
    else None
  }

  function AndMove(t: Tables, rd: Reg, a: Reg, b: Reg): (m: Move)
    ensures m == Spoil(rd) || (m.Advance? && m.rd == rd)
  {
    var m1 := ArmMove(t, rd, a, b, Shr1, And55, M55);
    var m2 := ArmMove(t, rd, a, b, Stage1, And33, M33);
    var m3 := ArmMove(t, rd, a, b, Shr2, And33S, M33);
    var m4 := ArmMove(t, rd, a, b, Sum4, Stage3, M0F);
    if m1.Some? then m1.value else if m2.Some? then m2.value else if m3.Some? then m3.value
    else if m4.Some? then m4.value else Spoil(rd)
  }

  function SubMove(t: Tables, rd: Reg, a: Reg, b: Reg): (m: Move)
    ensures m == Spoil(rd) || (m.Advance? && m.rd == rd)
  {
    if At(t, b, And55) && t.entry[b].src == a then Advance(rd, t.entry[b], Stage1, b, b) else Spoil(rd)
  }

  predicate Halves(t: Tables, a: Reg, b: Reg, x: Stage, y: Stage) {
    && ((At(t, a, x) && At(t, b, y)) || (At(t, a, y) && At(t, b, x)))
    && t.entry[a].src == t.entry[b].src && t.entry[a].wide == t.entry[b].wide
  }

  function Joined(a: Entry, b: Entry): Entry {
    a.(insns := if a.insns + b.insns >= a.base then a.insns + b.insns - a.base else 0,
       bytes := if a.bytes + b.bytes >= a.baseBytes then a.bytes + b.bytes - a.baseBytes else 0,
       clobbered := a.clobbered || b.clobbered, start := if a.start < b.start then a.start else b.start)
  }

  function AddMove(t: Tables, rd: Reg, a: Reg, b: Reg): (m: Move)
    ensures m == Spoil(rd) || (m.Advance? && m.rd == rd)
  {
    if Halves(t, a, b, And33, And33S) && t.entry[a].base == t.entry[b].base then
      Advance(rd, Joined(t.entry[a], t.entry[b]), Stage2, if At(t, a, And33) then a else b, if At(t, a, And33) then b
              else a)
    else if Halves(t, a, b, Stage2, Shr4) then
      var x, y := t.entry[a], t.entry[b];
      Advance(rd, (if x.insns > y.insns then x else y).(clobbered := x.clobbered || y.clobbered), Sum4,
              if At(t, a, Stage2) then a else b, if At(t, a, Stage2) then b else a)
    else Spoil(rd)
  }

  function MulMove(t: Tables, rd: Reg, a: Reg, b: Reg): (m: Move)
    ensures m == Spoil(rd) || (m.Advance? && m.rd == rd)
  {
    var m := if At(t, a, Stage3) then MaskMove(t, rd, a, b, Product, M01)
             else if At(t, b, Stage3) then MaskMove(t, rd, b, a, Product, M01) else None;
    if m.Some? then m.value else Spoil(rd)
  }

  function ShiftMove(t: Tables, rd: Reg, a: Reg, k: int): (m: Move)
    ensures m == Spoil(rd) || m == Open(rd, a) || (m.Advance? && m.rd == rd)
  {
    if k == 1 then (if rd == a then Spoil(rd) else Open(rd, a))
    else if k == 2 && At(t, a, Stage1) then Advance(rd, t.entry[a], Shr2, a, a)
    else if k == 4 && At(t, a, Stage2) then Advance(rd, t.entry[a], Shr4, a, a)
    else Spoil(rd)
  }

  function OtherMove(i: Insn): Move {
    if XDest(i) == 0 then Leave else Spoil(XDest(i))
  }

  /** Constants first, then the shifts, then the register operations. */
  function MoveOf(t: Tables, i: Insn, len: nat): Move {
    var st, mg := StepOf(i, len), MergeOf(i);
    if DecodeConst(i).Some? then Constant(DecodeConst(i).value.0, Wrap(DecodeConst(i).value.1))
    else if st.Some? && st.value.dst != 0 && st.value.reg in t.known then
      Constant(st.value.dst, Stepped(st.value, t.known[st.value.reg]))
    else if mg.Some? && mg.value.a in t.known && mg.value.b in t.known then
      Constant(mg.value.dst, Merged(mg.value, t.known[mg.value.a], t.known[mg.value.b]))
    else
      match i
      case Alu(Srl, rd, rs1, K(k)) => ShiftMove(t, rd, rs1, k)
      case Alu(op, rd, rs1, R(rs2)) =>
        if rd == 0 then Leave
        else if op == And then AndMove(t, rd, rs1, rs2)
        else if op == Sub then SubMove(t, rd, rs1, rs2)
        else if op == Add then AddMove(t, rd, rs1, rs2)
        else if op == Mul then MulMove(t, rd, rs1, rs2)
        else Spoil(rd)
      case _ => OtherMove(i)
  }

  // ---- what becomes of the tables ----

  /** A write that is no stage takes every stage computed from the register. */
  function Kill(t: Tables, r: Reg): Tables {
    Tables(map q | q in t.entry && q != r && t.entry[q].src != r :: t.entry[q], t.known - {r})
  }

  /** A stage's own write takes the register's entry only. */
  function ClearDst(t: Tables, r: Reg): Tables {
    Tables(t.entry - {r}, t.known - {r})
  }

  function Written(e: Entry, rd: Reg, st: Stage, len: nat): Entry {
    var e1 := e.(stage := st, clobbered := e.clobbered || rd == e.src, insns := e.insns + 1, bytes := e.bytes + len);
    if st == Stage1 then e1.(base := e1.insns, baseBytes := e1.bytes) else e1
  }

  function Opened(src: Reg, len: nat, a: Word): Entry {
    Entry(Shr1, src, false, false, 1, len, 0, 0, a)
  }

  function After(t: Tables, m: Move, len: nat, a: Word): Tables {
    match m
    case Constant(rd, v) => var k := Kill(t, rd); k.(known := k.known[rd := v])
    case Open(rd, src) => var k := Kill(t, rd); k.(entry := k.entry[rd := Opened(src, len, a)])
    case Advance(rd, e, st, _, _) => var k := ClearDst(t, rd); k.(entry := k.entry[rd := Written(e, rd, st, len)])
    case Spoil(rd) => Kill(t, rd)
    case Leave => t
  }

  // ---- straight lines ----

  /** The matcher begins anew at `a`. */
  predicate Resets(p: Program, a: Word) {
    match Prev(p, a)
    case None => true
    case Some(b) => IsTarget(p, a) || !Readable(p, b) || EndsRegion(p.code[b].insn)
  }

  /** The tables before `a`. */
  function TablesAt(p: Program, a: Word): Tables
    decreases a, 0
  {
    if Resets(p, a) then NoTables
    else
      var b := Prev(p, a).value;
      After(TablesAt(p, b), MoveAt(p, b), p.code[b].len, b)
  }

  function MoveAt(p: Program, b: Word): Move
    requires b in p.code
    decreases b, 1
  {
    MoveOf(TablesAt(p, b), p.code[b].insn, p.code[b].len)
  }

  /** Where the line through `a` begins. */
  function Head(p: Program, a: Word): Word
    decreases a
  {
    if Resets(p, a) then a else Head(p, Prev(p, a).value)
  }

  /** The state on coming to `a` from `h`, on the same line, in state `s`. */
  ghost function Arrive(p: Program, h: Word, a: Word, s: State): State
    decreases a
  {
    if a == h || Resets(p, a) then s
    else
      var b := Prev(p, a).value;
      Effect(p.code[b].insn, p.code[b].len, Arrive(p, h, b, s)).(pc := a)
  }

  /** Control passes `x` on its way to `a`, and nothing between writes `r`. */
  predicate Unwritten(p: Program, x: Word, r: Reg, a: Word)
    decreases a
  {
    a == x || (!Resets(p, a) && r !in Writes(p.code[Prev(p, a).value].insn) && Unwritten(p, x, r, Prev(p, a).value))
  }

  predicate OnLine(p: Program, x: Word, a: Word)
    decreases a
  {
    a == x || (!Resets(p, a) && OnLine(p, x, Prev(p, a).value))
  }

  lemma BackOne(p: Program, a: Word)
    requires !Resets(p, a)
    ensures Prev(p, a).Some? && Prev(p, a).value in p.code && Prev(p, a).value < a
    ensures !EndsRegion(p.code[Prev(p, a).value].insn)
  {
  }

  lemma {:induction false} Backwards(p: Program, x: Word, a: Word)
    requires OnLine(p, x, a)
    ensures x <= a
    decreases a
  {
    hide Resets, Prev;
    if x != a {
      BackOne(p, a);
      Backwards(p, x, Prev(p, a).value);
    }
  }

  lemma {:induction false} InOrder(p: Program, h: Word, x: Word, a: Word)
    requires OnLine(p, h, a) && OnLine(p, x, a) && h <= x
    ensures OnLine(p, h, x)
    decreases a
  {
    hide Resets, Prev;
    if x != a && h != a {
      BackOne(p, a);
      InOrder(p, h, x, Prev(p, a).value);
    } else if h == a {
      Backwards(p, x, a);
    }
  }

  lemma {:induction false} UnwrittenKeeps(p: Program, h: Word, x: Word, r: Reg, a: Word, s: State)
    requires Unwritten(p, x, r, a) && OnLine(p, h, x)
    ensures OnLine(p, x, a) && X(Arrive(p, h, a, s), r) == X(Arrive(p, h, x, s), r)
    decreases a
  {
    hide Effect, Resets, Prev, Writes;
    if a != x {
      BackOne(p, a);
      var b := Prev(p, a).value;
      UnwrittenKeeps(p, h, x, r, b, s);
      Backwards(p, h, x);
      Backwards(p, x, b);
      EffectKeeps(p.code[b].insn, p.code[b].len, Arrive(p, h, b, s), r);
    }
  }

  // ---- where a sequence was opened and subtracted ----

  /** A subtraction at `taken` of what a shift at `start` began. */
  datatype Part = Part(start: Word, taken: Word)

  /** The subtractions an entry rests on, in the order of their digits; `lost` when
      something on the way was written to x0. */
  datatype Trace = Trace(parts: seq<Part>, lost: bool)

  type Traces = map<Reg, Trace>

  function TraceOf(tr: Traces, r: Reg): Trace {
    if r in tr then tr[r] else Trace([], true)
  }

  function Traced(tr: Traces, m: Move, a: Word): Trace {
    match m
    case Open(rd, _) => Trace([], rd == 0)
    case Advance(rd, e, st, one, two) =>
      var x, y := TraceOf(tr, one), TraceOf(tr, two);
      Trace(match st case Stage1 => [Part(e.start, a)] case Stage2 | Sum4 => x.parts + y.parts case _ => x.parts,
            rd == 0 || x.lost || y.lost)
    case _ => Trace([], true)
  }

  function Sets(m: Move, r: Reg): bool {
    (m.Open? || m.Advance?) && m.rd == r
  }

  /** The traces of the entries before `a`. */
  function TracesAt(p: Program, a: Word): Traces
    decreases a
  {
    if Resets(p, a) then map[]
    else
      var b := Prev(p, a).value;
      map r | r in TablesAt(p, a).entry :: if Sets(MoveAt(p, b), r) then Traced(TracesAt(p, b), MoveAt(p, b), b)
        else TraceOf(TracesAt(p, b), r)
  }

  lemma TracesFor(p: Program, a: Word)
    ensures TracesAt(p, a).Keys == TablesAt(p, a).entry.Keys
  {
  }

  function Dest(m: Move): Reg {
    if m.Leave? then 0 else m.rd
  }

  // ---- what an entry claims ----

  ghost predicate KnownTrue(t: Tables, s: State) {
    forall r :: r in t.known ==> r != 0 && X(s, r) == t.known[r]
  }

  /** What the subtraction left, the line passed from `h` on in state `s`: the source as it
      stood there, less the odd bits of the source as it stood at the shift. */
  ghost function Difference(p: Program, h: Word, src: Reg, wide: bool, q: Part, s: State): Word {
    Wrap(X(Arrive(p, h, q.taken, s), src) - Odd(wide, X(Arrive(p, h, q.start, s), src)))
  }

  ghost function Differences(p: Program, h: Word, src: Reg, wide: bool, parts: seq<Part>, s: State): (r: seq<Word>)
    ensures |r| == |parts| && forall k :: 0 <= k < |parts| ==> r[k] == Difference(p, h, src, wide, parts[k], s)
  {
    seq(|parts|, k requires 0 <= k < |parts| => Difference(p, h, src, wide, parts[k], s))
  }

  ghost function SourceAt(p: Program, h: Word, e: Entry, tr: Trace, s: State): Source {
    if Late(e.stage) then Subs(Differences(p, h, e.src, e.wide, tr.parts, s))
        else One(X(Arrive(p, h, e.start, s), e.src))
  }

  /** Nothing it rests on was begun before `h`. */
  predicate Since(h: Word, e: Entry, tr: Trace) {
    if Late(e.stage) then forall k :: 0 <= k < |tr.parts| ==> h <= tr.parts[k].start else h <= e.start
  }

  predicate Shaped(e: Entry, tr: Trace) {
    |tr.parts| == Uses(e.stage)
  }

  ghost predicate EntryTrue(p: Program, h: Word, e: Entry, tr: Trace, r: Reg, a: Word, s: State) {
    Shaped(e, tr) && (!tr.lost && Since(h, e, tr) ==>
                      X(Arrive(p, h, a, s), r) == StageValue(e.stage, e.wide, SourceAt(p, h, e, tr, s)))
  }

  ghost predicate LineTrue(p: Program, h: Word, a: Word, s: State) {
    && KnownTrue(TablesAt(p, a), Arrive(p, h, a, s))
    && forall r :: r in TablesAt(p, a).entry ==> EntryTrue(p, h, TablesAt(p, a).entry[r], TraceOf(TracesAt(p, a), r),
                                                           r, a, s)
  }

  // ---- one instruction keeps the claims true ----

  /** The stages an advance continues. */
  function FromOne(st: Stage): Stage {
    match st
    case Shr1 | And55 => Shr1
    case Stage1 => And55
    case And33 | Shr2 => Stage1
    case And33S => Shr2
    case Stage2 => And33
    case Shr4 | Sum4 => Stage2
    case Stage3 => Sum4
    case Product => Stage3
  }

  function FromTwo(st: Stage): Stage {
    match st
    case Stage2 => And33S
    case Sum4 => Shr4
    case _ => FromOne(st)
  }

  /** An entry an advance goes on from. */
  predicate GoesOn(t: Tables, m: Move, r: Reg, st: Stage)
    requires m.Advance?
  {
    At(t, r, st) && t.entry[r].src == m.from.src && (m.stage != And55 ==> t.entry[r].wide == m.from.wide)
  }

  predicate Continues(t: Tables, m: Move) {
    m.Advance? ==>
      && m.stage != Shr1 && GoesOn(t, m, m.one, FromOne(m.stage)) && GoesOn(t, m, m.two, FromTwo(m.stage))
      && (m.stage == And55 || m.stage == Stage1 ==> m.from.start == t.entry[m.one].start)
      && (m.stage != Stage2 && m.stage != Sum4 ==> m.one == m.two)
  }

  lemma AndContinues(t: Tables, rd: Reg, a: Reg, b: Reg)
    ensures Continues(t, AndMove(t, rd, a, b)) && Continues(t, MulMove(t, rd, a, b))
  {
    hide MaskMove;
  }

  lemma AddContinues(t: Tables, rd: Reg, a: Reg, b: Reg)
    ensures Continues(t, AddMove(t, rd, a, b)) && Continues(t, SubMove(t, rd, a, b))
  {
  }

  lemma ShiftContinues(t: Tables, rd: Reg, a: Reg, k: int)
    ensures Continues(t, ShiftMove(t, rd, a, k))
  {
  }

  lemma MoveContinues(t: Tables, i: Insn, len: nat)
    ensures Continues(t, MoveOf(t, i, len))
  {
    hide Stepped, Merged, AndMove, SubMove, AddMove, MulMove, ShiftMove, Continues;
    match i {
      case Alu(Srl, rd, rs1, K(k)) => ShiftContinues(t, rd, rs1, k);
      case Alu(_, rd, a, R(b)) =>
        AndContinues(t, rd, a, b);
        AddContinues(t, rd, a, b);
      case _ =>
    }
    OthersContinue(t);
  }

  lemma OthersContinue(t: Tables)
    ensures forall rd: Reg, v: Word :: Continues(t, Constant(rd, v))
    ensures forall rd: Reg, q: Reg :: Continues(t, Open(rd, q))
    ensures forall rd: Reg :: Continues(t, Spoil(rd))
    ensures Continues(t, Leave)
  {
  }

  /** The register holds its stage of `from`. */
  ghost predicate Holds(t: Tables, r: Reg, from: Source, s: State) {
    r in t.entry && Fed(t.entry[r].stage, from) && X(s, r) == StageValue(t.entry[r].stage, t.entry[r].wide, from)
  }

  /** What an advance makes of what its entries come from; `u` is the source as it
      stands. */
  function Onward(st: Stage, wide: bool, f: Source, g: Source, u: Word): Source
    requires st != Shr1 && Fed(FromOne(st), f) && Fed(FromTwo(st), g)
  {
    match st
    case Stage1 => Subs([Wrap(u - Odd(wide, f.v))])
    case Stage2 | Sum4 => Subs(f.s + g.s)
    case _ => f
  }

  lemma OnwardFed(st: Stage, wide: bool, f: Source, g: Source, u: Word)
    requires st != Shr1 && Fed(FromOne(st), f) && Fed(FromTwo(st), g)
    ensures Fed(st, Onward(st, wide, f, g, u))
  {
  }

  lemma ConstantRight(t: Tables, i: Insn, len: nat, s: State)
    requires MoveOf(t, i, len).Constant? && KnownTrue(t, s)
    ensures var m := MoveOf(t, i, len); m.rd != 0 && X(Effect(i, len, s), m.rd) == m.v && Writes(i) == {m.rd}
  {
    hide Effect, AluVal, Stepped, Merged, AndMove, SubMove, AddMove, MulMove, ShiftMove;
    if DecodeConst(i).Some? {
      ConstResult(i, len, s);
    } else if StepOf(i, len).Some? && StepOf(i, len).value.dst != 0 && StepOf(i, len).value.reg in t.known {
      StepRight(i, len, s);
    } else {
      assert MergeOf(i).Some? && MergeOf(i).value.a in t.known && MergeOf(i).value.b in t.known by {
        NotShaped(t, i, len);
      }
      MergeRight(i, len, s);
    }
  }

  lemma NotShaped(t: Tables, i: Insn, len: nat)
    requires MoveOf(t, i, len).Constant? && DecodeConst(i).None?
    requires !(StepOf(i, len).Some? && StepOf(i, len).value.dst != 0 && StepOf(i, len).value.reg in t.known)
    ensures MergeOf(i).Some? && MergeOf(i).value.a in t.known && MergeOf(i).value.b in t.known
  {
    hide Stepped, Merged, AndMove, SubMove, AddMove, MulMove, ShiftMove;
  }

  lemma AndCommutes(a: Word, b: Word)
    ensures BitWord(BAnd, a, b) == BitWord(BAnd, b, a)
  {
    BitsCommute(64, BAnd, a, b);
  }

  /** What an operation makes of the values its stages hold. */
  ghost predicate Makes(t: Tables, m: Move, f: Source, g: Source, u: Word, x: Word)
    requires m.Advance? && m.stage != Shr1 && Fed(FromOne(m.stage), f) && Fed(FromTwo(m.stage), g)
  {
    OnwardFed(m.stage, m.from.wide, f, g, u);
    x == StageValue(m.stage, m.from.wide, Onward(m.stage, m.from.wide, f, g, u))
  }

  ghost predicate Ready(t: Tables, m: Move, f: Source, g: Source, s: State) {
    m.Advance? && Continues(t, m) && Holds(t, m.one, f, s) && Holds(t, m.two, g, s) && (m.one == m.two ==> f == g)
  }

  /** The mask of the stage, on the one before it. */
  lemma MaskMakes(st: Stage, wide: bool, was: bool, f: Source)
    requires st == And55 || st == And33 || st == And33S || st == Stage3
    requires Fed(FromOne(st), f) && (st != And55 ==> was == wide)
    ensures Fed(st, f)
    ensures StageValue(st, wide, f) == BitWord(BAnd, StageValue(FromOne(st), was, f), MaskOf(st, wide))
  {
    hide BitWord, M55, M33, M0F, Wrap;
  }

  function MaskOf(st: Stage, wide: bool): Word {
    match st
    case And55 => M55(wide)
    case Stage3 => M0F(wide)
    case _ => M33(wide)
  }

  /** One operand holds the stage wanted, the other the mask. */
  lemma ArmRight(t: Tables, rd: Reg, a: Reg, b: Reg, want: Stage, give: Stage, m: bool -> Word, s: State, f: Source,
                 g: Source)
    requires ArmMove(t, rd, a, b, want, give, m).Some? && KnownTrue(t, s)
    requires Ready(t, ArmMove(t, rd, a, b, want, give, m).value, f, g, s)
    requires give == And55 || give == And33 || give == And33S || give == Stage3
    requires want == FromOne(give) && forall w :: m(w) == MaskOf(give, w)
    ensures var mv := ArmMove(t, rd, a, b, want, give, m).value;
            mv.Advance? && mv.stage == give && Makes(t, mv, f, g, X(s, mv.from.src), BitWord(BAnd, X(s, a), X(s, b)))
  {
    hide MaskMove, StageValue, BitWord, MaskOf;
    var mv := ArmMove(t, rd, a, b, want, give, m).value;
    var held, mask := if At(t, a, want) then a else b, if At(t, a, want) then b else a;
    assert mv == MaskMove(t, rd, held, mask, give, m).value;
    MaskMakes(give, mv.from.wide, t.entry[held].wide, f);
    AndCommutes(X(s, a), X(s, b));
  }

  lemma AndRight(t: Tables, rd: Reg, a: Reg, b: Reg, s: State, f: Source, g: Source)
    requires KnownTrue(t, s) && AndMove(t, rd, a, b).Advance? && Ready(t, AndMove(t, rd, a, b), f, g, s)
    ensures var m := AndMove(t, rd, a, b); Makes(t, m, f, g, X(s, m.from.src), BitWord(BAnd, X(s, a), X(s, b)))
  {
    hide BitWord, KnownTrue, Ready, Makes, ArmMove, M55, M33, M0F;
    if ArmMove(t, rd, a, b, Shr1, And55, M55).Some? {
      ArmRight(t, rd, a, b, Shr1, And55, M55, s, f, g);
    } else if ArmMove(t, rd, a, b, Stage1, And33, M33).Some? {
      ArmRight(t, rd, a, b, Stage1, And33, M33, s, f, g);
    } else if ArmMove(t, rd, a, b, Shr2, And33S, M33).Some? {
      ArmRight(t, rd, a, b, Shr2, And33S, M33, s, f, g);
    } else {
      ArmRight(t, rd, a, b, Sum4, Stage3, M0F, s, f, g);
    }
  }

  lemma SubRight(t: Tables, rd: Reg, a: Reg, b: Reg, s: State, f: Source, g: Source)
    requires SubMove(t, rd, a, b).Advance? && Ready(t, SubMove(t, rd, a, b), f, g, s)
    ensures var m := SubMove(t, rd, a, b); Makes(t, m, f, g, X(s, m.from.src), Wrap(X(s, a) - X(s, b)))
  {
    hide Odd, Wrap;
  }

  lemma JoinMakes(st: Stage, wide: bool, f: Source, g: Source, u: Word)
    requires (st == Stage2 || st == Sum4) && Fed(FromOne(st), f) && Fed(FromTwo(st), g)
    ensures Fed(st, Onward(st, wide, f, g, u))
    ensures StageValue(st, wide, Onward(st, wide, f, g, u)) ==
            Wrap(StageValue(FromOne(st), wide, f) + StageValue(FromTwo(st), wide, g))
  {
    hide Low33, High33, Wrap;
  }

  lemma AddRight(t: Tables, rd: Reg, a: Reg, b: Reg, s: State, f: Source, g: Source)
    requires AddMove(t, rd, a, b).Advance? && Ready(t, AddMove(t, rd, a, b), f, g, s)
    ensures var m := AddMove(t, rd, a, b); Makes(t, m, f, g, X(s, m.from.src), Wrap(X(s, a) + X(s, b)))
  {
    hide StageValue, Wrap, Onward;
    var m := AddMove(t, rd, a, b);
    var x: int, y: int := X(s, a), X(s, b);
    assert x + y == y + x;
    JoinMakes(m.stage, m.from.wide, f, g, X(s, m.from.src));
  }

  lemma MulRight(t: Tables, rd: Reg, a: Reg, b: Reg, s: State, f: Source, g: Source)
    requires KnownTrue(t, s) && MulMove(t, rd, a, b).Advance? && Ready(t, MulMove(t, rd, a, b), f, g, s)
    ensures var m := MulMove(t, rd, a, b); Makes(t, m, f, g, X(s, m.from.src), Wrap(X(s, a) * X(s, b)))
  {
    hide MaskMove, Wrap, Octet, M01;
    var x: int, y: int := X(s, a), X(s, b);
    assert x * y == y * x;
    var m := MulMove(t, rd, a, b);
    var held, mask := if At(t, a, Stage3) then a else b, if At(t, a, Stage3) then b else a;
    assert m == MaskMove(t, rd, held, mask, Product, M01).value;
  }

  lemma Amounts(k: nat)
    requires k < 64
    ensures Ushift(Wrap(k)) == k && (k < 32 ==> Wshift(Wrap(k)) == k)
  {
  }

  lemma Powers()
    ensures Pow2(1) == 2 && Pow2(2) == 4 && Pow2(4) == 16
    ensures Pow2(24) == 0x100_0000 && Pow2(56) == 0x100_0000_0000_0000
  {
    assert Pow2(3) == 8 && Pow2(2) == 4 && Pow2(1) == 2;
    Pow2Word();
    Pow2Add(8, 16);
    Pow2Add(24, 32);
    hide Pow2;
    var a: int, b: int := Pow2(24), Pow2(56);
    assert a == 0x100 * 0x1_0000;
    assert b == 0x100_0000 * W32;
  }

  lemma ShiftAmounts()
    ensures Pow2(Ushift(Wrap(1))) == 2 && Pow2(Ushift(Wrap(2))) == 4 && Pow2(Ushift(Wrap(4))) == 16
    ensures Pow2(Ushift(Wrap(56))) == 0x100_0000_0000_0000 && Pow2(Wshift(Wrap(24))) == 0x100_0000
  {
    Powers();
    Amounts(1);
    Amounts(2);
    Amounts(4);
    Amounts(56);
    Amounts(24);
    hide Pow2, Wrap, Ushift, Wshift;
  }

  lemma ShiftRight(t: Tables, rd: Reg, a: Reg, k: int, s: State, f: Source, g: Source)
    requires ShiftMove(t, rd, a, k).Advance? && Ready(t, ShiftMove(t, rd, a, k), f, g, s)
    ensures var m := ShiftMove(t, rd, a, k); Makes(t, m, f, g, X(s, m.from.src), Wrap(X(s, a) / Pow2(Ushift(Wrap(k)))))
  {
    ShiftAmounts();
    hide Pow2, Ushift, Nibble, Wrap;
    WrapOfWord(X(s, a) / 4);
    WrapOfWord(X(s, a) / 16);
  }

  /** What an advance of register operations leaves. */
  lemma RegisterAdvance(t: Tables, op: AluOp, rd: Reg, a: Reg, b: Reg, m: Move, x: Word, s: State, f: Source, g: Source)
    requires KnownTrue(t, s) && m.Advance? && Ready(t, m, f, g, s)
    requires (op == And && m == AndMove(t, rd, a, b) && x == BitWord(BAnd, X(s, a), X(s, b))) ||
             (op == Sub && m == SubMove(t, rd, a, b) && x == Wrap(X(s, a) - X(s, b))) ||
             (op == Add && m == AddMove(t, rd, a, b) && x == Wrap(X(s, a) + X(s, b))) ||
             (op == Mul && m == MulMove(t, rd, a, b) && x == Wrap(X(s, a) * X(s, b)))
    ensures Makes(t, m, f, g, X(s, m.from.src), x)
  {
    hide Makes, KnownTrue, AndMove, SubMove, AddMove, MulMove, BitWord, Wrap;
    match op {
      case And => AndRight(t, rd, a, b, s, f, g);
      case Sub => SubRight(t, rd, a, b, s, f, g);
      case Add => AddRight(t, rd, a, b, s, f, g);
      case Mul => MulRight(t, rd, a, b, s, f, g);
    }
  }

  /** An advance leaves the stage it claims, of what its entries come from. */
  lemma AdvanceRight(t: Tables, i: Insn, len: nat, s: State, f: Source, g: Source)
    requires KnownTrue(t, s) && MoveOf(t, i, len).Advance? && MoveOf(t, i, len).rd != 0
    requires Ready(t, MoveOf(t, i, len), f, g, s)
    ensures var m := MoveOf(t, i, len);
            Makes(t, m, f, g, X(s, m.from.src), X(Effect(i, len, s), m.rd)) && Writes(i) == {m.rd}
  {
    hide Makes, KnownTrue, AluVal, Effect, MoveOf, AndMove, SubMove, AddMove, MulMove, ShiftMove, BitWord, Wrap;
    AdvanceShape(t, i, len);
    AluResult(i, len, s);
    match i.src {
      case K(k) => ShiftRight(t, i.rd, i.rs1, k, s, f, g);
      case R(b) => RegisterAdvance(t, i.op, i.rd, i.rs1, b, MoveOf(t, i, len), X(Effect(i, len, s), i.rd), s, f, g);
    }
  }

  lemma AdvanceShape(t: Tables, i: Insn, len: nat)
    requires MoveOf(t, i, len).Advance?
    ensures var m := MoveOf(t, i, len);
            && i.Alu? && i.rd == m.rd
            && (i.src.K? ==> i.op == Srl && m == ShiftMove(t, i.rd, i.rs1, i.src.k))
            && (i.src.R? ==>
                  var a, b := i.rs1, i.src.r;
                  && (i.op == And || i.op == Sub || i.op == Add || i.op == Mul)
                  && (i.op == And ==> m == AndMove(t, i.rd, a, b)) && (i.op == Sub ==> m == SubMove(t, i.rd, a, b))
                  && (i.op == Add ==> m == AddMove(t, i.rd, a, b)) && (i.op == Mul ==> m == MulMove(t, i.rd, a, b)))
  {
    hide AndMove, SubMove, AddMove, MulMove, ShiftMove, Stepped, Merged;
  }

  lemma AluResult(i: Insn, len: nat, s: State)
    requires i.Alu? && i.rd != 0
    ensures Writes(i) == {i.rd}
    ensures var a, x := X(s, i.rs1), X(Effect(i, len, s), i.rd);
            && (i.src.R? ==>
                  var b := X(s, i.src.r);
                  && (i.op == And ==> x == BitWord(BAnd, a, b)) && (i.op == Sub ==> x == Wrap(a - b))
                  && (i.op == Add ==> x == Wrap(a + b)) && (i.op == Mul ==> x == Wrap(a * b)))
            && (i.src.K? && i.op == Srl ==> x == Wrap(a / Pow2(Ushift(Wrap(i.src.k)))))
  {
    hide BitWord, Sext, Pow2, Ushift, Wrap;
  }

  lemma OpenRight(t: Tables, i: Insn, len: nat, s: State)
    requires MoveOf(t, i, len).Open? && MoveOf(t, i, len).rd != 0
    ensures var m := MoveOf(t, i, len);
            && X(Effect(i, len, s), m.rd) == X(s, m.src) / 2 && Writes(i) == {m.rd} && m.src != m.rd
            && i == Alu(Srl, m.rd, m.src, K(1))
  {
    hide AndMove, SubMove, AddMove, MulMove, Stepped, Merged;
    OpenShape(t, i, len);
    AluResult(i, len, s);
    ShiftAmounts();
    hide AluVal, Effect, Pow2, Ushift, Wrap;
    WrapOfWord(X(s, i.rs1) / 2);
  }

  lemma OpenShape(t: Tables, i: Insn, len: nat)
    requires MoveOf(t, i, len).Open?
    ensures var m := MoveOf(t, i, len); i == Alu(Srl, m.rd, m.src, K(1)) && m.src != m.rd
  {
    hide AndMove, SubMove, AddMove, MulMove, Stepped, Merged;
  }

  lemma MoveWrites(t: Tables, i: Insn, len: nat)
    requires PlainInsn(i)
    ensures Writes(i) <= {Dest(MoveOf(t, i, len))}
  {
    hide AndMove, SubMove, AddMove, MulMove, ShiftMove, Stepped, Merged;
    var m := MoveOf(t, i, len);
    if m.Constant? {
      ConstantDest(t, i, len);
    } else {
      OtherDest(t, i, len);
    }
  }

  lemma ConstantDest(t: Tables, i: Insn, len: nat)
    requires MoveOf(t, i, len).Constant?
    ensures Writes(i) == {MoveOf(t, i, len).rd}
  {
    hide AndMove, SubMove, AddMove, MulMove, ShiftMove, Stepped, Merged;
  }

  lemma OtherDest(t: Tables, i: Insn, len: nat)
    requires PlainInsn(i) && !MoveOf(t, i, len).Constant?
    ensures Writes(i) <= {Dest(MoveOf(t, i, len))}
  {
    hide AndMove, SubMove, AddMove, MulMove, Stepped, Merged;
  }

  lemma KnownAfter(t: Tables, i: Insn, len: nat, a: Word, s: State)
    requires PlainInsn(i) && KnownTrue(t, s)
    ensures KnownTrue(After(t, MoveOf(t, i, len), len, a), Effect(i, len, s))
  {
    hide MoveOf, Effect, Writes, Written;
    var m := MoveOf(t, i, len);
    MoveWrites(t, i, len);
    if m.Constant? {
      ConstantRight(t, i, len, s);
    }
    forall r | r in After(t, m, len, a).known
      ensures r != 0 && X(Effect(i, len, s), r) == After(t, m, len, a).known[r]
    {
      EffectKeeps(i, len, s, r);
    }
  }

  // ---- along a line ----

  lemma KnownIgnoresPc(t: Tables, s: State, pc: Word)
    requires KnownTrue(t, s)
    ensures KnownTrue(t, s.(pc := pc))
  {
  }

  /** What an entry goes on from, as the next claims it. */
  lemma SourceOn(p: Program, h: Word, e: Entry, tr: Trace, w: Entry, tw: Trace, s: State)
    requires e.stage == FromOne(w.stage) && w.stage != Shr1 && w.src == e.src && Shaped(e, tr)
    requires w.stage != Stage1 && w.stage != Stage2 && w.stage != Sum4 && tw.parts == tr.parts
    requires if w.stage == And55 then w.start == e.start else w.wide == e.wide
    ensures SourceAt(p, h, w, tw, s) == SourceAt(p, h, e, tr, s)
  {
    hide Arrive;
  }

  lemma SourceTaken(p: Program, h: Word, e: Entry, w: Entry, a: Word, lost: bool, s: State)
    requires e.stage == And55 && w.stage == Stage1 && w.src == e.src && w.start == e.start && w.wide == e.wide
    ensures SourceAt(p, h, w, Trace([Part(e.start, a)], lost), s) ==
            Subs([Wrap(X(Arrive(p, h, a, s), w.src) - Odd(w.wide, SourceAt(p, h, e, Trace([], lost), s).v))])
  {
    hide Arrive, Odd;
  }

  lemma SourceJoined(p: Program, h: Word, e: Entry, te: Trace, f: Entry, tf: Trace, w: Entry, tw: Trace, s: State)
    requires (w.stage == Stage2 || w.stage == Sum4) && e.stage == FromOne(w.stage) && f.stage == FromTwo(w.stage)
    requires w.src == e.src == f.src && w.wide == e.wide == f.wide && tw.parts == te.parts + tf.parts
    ensures SourceAt(p, h, w, tw, s) == Subs(SourceAt(p, h, e, te, s).s + SourceAt(p, h, f, tf, s).s)
  {
    hide Arrive, Difference;
    assert Differences(p, h, w.src, w.wide, tw.parts, s) ==
           Differences(p, h, e.src, e.wide, te.parts, s) + Differences(p, h, f.src, f.wide, tf.parts, s);
  }

  lemma SourceFed(p: Program, h: Word, e: Entry, tr: Trace, s: State)
    requires Shaped(e, tr)
    ensures Fed(e.stage, SourceAt(p, h, e, tr, s))
  {
    hide Arrive, Difference;
  }

  lemma AdvanceShaped(tr: Traces, t: Tables, m: Move, a: Word)
    requires m.Advance? && Continues(t, m)
    requires Shaped(t.entry[m.one], TraceOf(tr, m.one)) && Shaped(t.entry[m.two], TraceOf(tr, m.two))
    ensures |Traced(tr, m, a).parts| == Uses(m.stage)
  {
  }

  /** What the advance is made from, as its entry claims it. */
  lemma AdvanceSource(p: Program, h: Word, t: Tables, tr: Traces, m: Move, len: nat, a: Word, s: State)
    requires m.Advance? && Continues(t, m)
    requires Shaped(t.entry[m.one], TraceOf(tr, m.one)) && Shaped(t.entry[m.two], TraceOf(tr, m.two))
    ensures var f := SourceAt(p, h, t.entry[m.one], TraceOf(tr, m.one), s);
            var g := SourceAt(p, h, t.entry[m.two], TraceOf(tr, m.two), s);
            && Fed(FromOne(m.stage), f) && Fed(FromTwo(m.stage), g)
            && SourceAt(p, h, Written(m.from, m.rd, m.stage, len), Traced(tr, m, a), s) ==
               Onward(m.stage, m.from.wide, f, g, X(Arrive(p, h, a, s), m.from.src))
  {
    hide Arrive, Odd, SourceAt, Shaped;
    var e, d := t.entry[m.one], t.entry[m.two];
    var x, y := TraceOf(tr, m.one), TraceOf(tr, m.two);
    var w, tw := Written(m.from, m.rd, m.stage, len), Traced(tr, m, a);
    SourceFed(p, h, e, x, s);
    SourceFed(p, h, d, y, s);
    assert w.stage == m.stage && w.src == m.from.src && w.wide == m.from.wide && w.start == m.from.start;
    if m.stage == Stage1 {
      SourceTaken(p, h, e, w, a, tw.lost, s);
      assert SourceAt(p, h, e, x, s) == SourceAt(p, h, e, Trace([], tw.lost), s) by {
        EarlySource(p, h, e, x, Trace([], tw.lost), s);
      }
    } else if m.stage == Stage2 || m.stage == Sum4 {
      SourceJoined(p, h, e, x, d, y, w, tw, s);
    } else {
      SourceOn(p, h, e, x, w, tw, s);
    }
  }

  lemma EarlySource(p: Program, h: Word, e: Entry, x: Trace, y: Trace, s: State)
    requires !Late(e.stage)
    ensures SourceAt(p, h, e, x, s) == SourceAt(p, h, e, y, s)
  {
    hide Arrive;
  }

  lemma AdvancedTrue(p: Program, h: Word, b: Word, a: Word, s: State)
    requires !Resets(p, a) && Prev(p, a) == Some(b) && b in p.code && a != h && LineTrue(p, h, b, s)
             && MoveAt(p, b).Advance?
    ensures var m := MoveAt(p, b);
            EntryTrue(p, h, Written(m.from, m.rd, m.stage, p.code[b].len), Traced(TracesAt(p, b), m, b), m.rd, a, s)
  {
    hide Resets, Prev, Effect, Writes, MoveOf, SourceAt, StageValue, KnownTrue, TablesAt, TracesAt, Written, Onward,
         Continues, Traced, Since;
    var t, tr, m, d := TablesAt(p, b), TracesAt(p, b), MoveAt(p, b), p.code[b];
    MoveContinues(t, d.insn, d.len);
    Used(t, m);
    var e, x := t.entry[m.one], TraceOf(tr, m.one);
    var e2, y := t.entry[m.two], TraceOf(tr, m.two);
    assert EntryTrue(p, h, e, x, m.one, b, s) && EntryTrue(p, h, e2, y, m.two, b, s);
    var w := Written(m.from, m.rd, m.stage, d.len);
    WrittenIs(m.from, m.rd, m.stage, d.len);
    AdvanceShaped(tr, t, m, b);
    AdvanceSource(p, h, t, tr, m, d.len, b, s);
    Loses(tr, m, b);
    SinceOn(h, t, tr, m, d.len, b);
    if !Traced(tr, m, b).lost && Since(h, w, Traced(tr, m, b)) {
      var f, g := SourceAt(p, h, e, x, s), SourceAt(p, h, e2, y, s);
      var at := Arrive(p, h, b, s);
      AdvanceRight(t, d.insn, d.len, at, f, g);
      assert X(Arrive(p, h, a, s), m.rd) == X(Effect(d.insn, d.len, at), m.rd);
    }
  }

  /** What is begun since `h` goes on from what is. */
  lemma SinceOn(h: Word, t: Tables, tr: Traces, m: Move, len: nat, a: Word)
    requires m.Advance? && Continues(t, m)
    ensures var e, f := t.entry[m.one], t.entry[m.two];
            Since(h, Written(m.from, m.rd, m.stage, len), Traced(tr, m, a)) ==>
              Since(h, e, TraceOf(tr, m.one)) && Since(h, f, TraceOf(tr, m.two))
  {
    hide Written, Since, TraceOf;
    var e, f, w := t.entry[m.one], t.entry[m.two], Written(m.from, m.rd, m.stage, len);
    var x, y, z := TraceOf(tr, m.one), TraceOf(tr, m.two), Traced(tr, m, a);
    Used(t, m);
    WrittenIs(m.from, m.rd, m.stage, len);
    if m.stage == Stage2 || m.stage == Sum4 {
      SinceBoth(h, e, f, w, x, y, z);
    } else if m.stage == And55 || m.stage == Stage1 {
      SinceStart(h, e, w, x, z);
    } else {
      SinceSame(h, e, w, x, z);
    }
  }

  lemma SinceBoth(h: Word, e: Entry, f: Entry, w: Entry, x: Trace, y: Trace, z: Trace)
    requires Late(e.stage) && Late(f.stage) && Late(w.stage) && z.parts == x.parts + y.parts
    ensures Since(h, w, z) ==> Since(h, e, x) && Since(h, f, y)
  {
    assert forall k :: 0 <= k < |x.parts| ==> z.parts[k] == x.parts[k];
    assert forall k :: 0 <= k < |y.parts| ==> z.parts[|x.parts| + k] == y.parts[k];
  }

  lemma SinceStart(h: Word, e: Entry, w: Entry, x: Trace, z: Trace)
    requires !Late(e.stage) && w.start == e.start
    requires Late(w.stage) ==> exists a :: z.parts == [Part(e.start, a)]
    ensures Since(h, w, z) ==> Since(h, e, x)
  {
    if Late(w.stage) { assert z.parts[0].start == e.start; }
  }

  lemma SinceSame(h: Word, e: Entry, w: Entry, x: Trace, z: Trace)
    requires Late(e.stage) && Late(w.stage) && z.parts == x.parts
    ensures Since(h, w, z) ==> Since(h, e, x)
  {
  }

  lemma Used(t: Tables, m: Move)
    requires m.Advance? && Continues(t, m)
    ensures m.one in t.entry && m.two in t.entry && m.stage != Shr1
    ensures t.entry[m.one].stage == FromOne(m.stage) && t.entry[m.two].stage == FromTwo(m.stage)
    ensures m.one == m.two || m.stage == Stage2 || m.stage == Sum4
  {
  }

  lemma WrittenIs(e: Entry, rd: Reg, st: Stage, len: nat)
    ensures var w := Written(e, rd, st, len); w.stage == st && w.src == e.src && w.wide == e.wide && w.start == e.start
  {
  }

  lemma Loses(tr: Traces, m: Move, a: Word)
    requires m.Advance?
    ensures Traced(tr, m, a).lost == (m.rd == 0 || TraceOf(tr, m.one).lost || TraceOf(tr, m.two).lost)
  {
  }

  lemma OpenedTrue(p: Program, h: Word, b: Word, a: Word, s: State)
    requires !Resets(p, a) && Prev(p, a) == Some(b) && b in p.code && a != h && MoveAt(p, b).Open?
    ensures var m := MoveAt(p, b);
            EntryTrue(p, h, Opened(m.src, p.code[b].len, b), Traced(TracesAt(p, b), m, b), m.rd, a, s)
  {
    hide Resets, Prev, Effect, Writes, MoveOf, TablesAt, TracesAt;
    var t, m, d := TablesAt(p, b), MoveAt(p, b), p.code[b];
    if m.rd != 0 {
      OpenRight(t, d.insn, d.len, Arrive(p, h, b, s));
      assert X(Arrive(p, h, a, s), m.rd) == X(Effect(d.insn, d.len, Arrive(p, h, b, s)), m.rd);
    }
  }

  lemma KeptTrue(p: Program, h: Word, b: Word, a: Word, e: Entry, tr: Trace, r: Reg, s: State)
    requires !Resets(p, a) && Prev(p, a) == Some(b) && b in p.code && a != h && EntryTrue(p, h, e, tr, r, b, s)
             && r !in Writes(p.code[b].insn)
    ensures EntryTrue(p, h, e, tr, r, a, s)
  {
    hide Resets, Prev, Effect, Writes, SourceAt, StageValue;
    EffectKeeps(p.code[b].insn, p.code[b].len, Arrive(p, h, b, s), r);
  }

  /** Which entries an instruction leaves as they are, and which one it makes. */
  lemma EntriesAfter(t: Tables, m: Move, len: nat, a: Word, r: Reg)
    requires r in After(t, m, len, a).entry
    ensures m.Open? && m.rd == r ==> After(t, m, len, a).entry[r] == Opened(m.src, len, a)
    ensures m.Advance? && m.rd == r ==> After(t, m, len, a).entry[r] == Written(m.from, m.rd, m.stage, len)
    ensures !Sets(m, r) ==> r in t.entry && After(t, m, len, a).entry[r] == t.entry[r] && (m.Leave? || r != Dest(m))
  {
    hide Written;
  }

  lemma LineOn(p: Program, h: Word, b: Word, a: Word, s: State)
    requires WellFormed(p) && !Resets(p, a) && Prev(p, a) == Some(b) && b in p.code && a != h && LineTrue(p, h, b, s)
    ensures LineTrue(p, h, a, s)
  {
    hide WellFormed, Resets, Prev, Effect, Writes, MoveOf, KnownTrue, EntryTrue, Written, After, Traced;
    var t, tr, m, d := TablesAt(p, b), TracesAt(p, b), MoveAt(p, b), p.code[b];
    var at := Arrive(p, h, b, s);
    Placed(p, b);
    KnownAfter(t, d.insn, d.len, b, at);
    KnownIgnoresPc(After(t, m, d.len, b), Effect(d.insn, d.len, at), a);
    MoveWrites(t, d.insn, d.len);
    forall r | r in TablesAt(p, a).entry
      ensures EntryTrue(p, h, TablesAt(p, a).entry[r], TraceOf(TracesAt(p, a), r), r, a, s)
    {
      EntriesAfter(t, m, d.len, b, r);
      if m.Open? && m.rd == r {
        OpenedTrue(p, h, b, a, s);
      } else if m.Advance? && m.rd == r {
        AdvancedTrue(p, h, b, a, s);
      } else {
        assert r !in Writes(d.insn) by { LeavesAlone(t, d.insn, d.len, r); }
        KeptTrue(p, h, b, a, t.entry[r], TraceOf(tr, r), r, s);
      }
    }
  }

  /** What leaves everything alone writes nothing. */
  lemma LeavesAlone(t: Tables, i: Insn, len: nat, r: Reg)
    requires PlainInsn(i) && (MoveOf(t, i, len).Leave? || r != Dest(MoveOf(t, i, len)))
    ensures r !in Writes(i)
  {
    hide MoveOf;
    MoveWrites(t, i, len);
    assert 0 !in Writes(i);
  }

  /** Every entry has as many parts as its stage is made from, all begun before it. */
  lemma {:induction false} ShapedAt(p: Program, a: Word, r: Reg)
    requires r in TablesAt(p, a).entry
    ensures Shaped(TablesAt(p, a).entry[r], TraceOf(TracesAt(p, a), r))
    ensures Older(a, TablesAt(p, a).entry[r], TraceOf(TracesAt(p, a), r))
    decreases a
  {
    hide Resets, Prev, MoveOf, Written, After, Traced, Continues, Older;
    BackOne(p, a);
    var b := Prev(p, a).value;
    var t, tr, m, d := TablesAt(p, b), TracesAt(p, b), MoveAt(p, b), p.code[b];
    EntriesAfter(t, m, d.len, b, r);
    if m.Advance? && m.rd == r {
      StartsFrom(t, d.insn, d.len);
      Used(t, m);
      ShapedAt(p, b, m.one);
      ShapedAt(p, b, m.two);
      WrittenIs(m.from, m.rd, m.stage, d.len);
      AdvanceShaped(tr, t, m, b);
      AdvanceOlder(t, tr, m, d.len, b, a);
    } else if m.Open? && m.rd == r {
      OpenedShaped(m, d.len, tr, b, a);
    } else {
      ShapedAt(p, b, r);
      StillOlder(b, a, t.entry[r], TraceOf(tr, r));
    }
  }

  predicate Older(a: Word, e: Entry, tr: Trace) {
    e.start < a && forall k :: 0 <= k < |tr.parts| ==> tr.parts[k].start < a
  }

  lemma StillOlder(b: Word, a: Word, e: Entry, tr: Trace)
    requires Older(b, e, tr) && b <= a
    ensures Older(a, e, tr)
  {
  }

  lemma AdvanceOlder(t: Tables, tr: Traces, m: Move, len: nat, b: Word, a: Word)
    requires m.Advance? && Continues(t, m) && m.from.start in {t.entry[m.one].start, t.entry[m.two].start} && b < a
    requires Older(b, t.entry[m.one], TraceOf(tr, m.one)) && Older(b, t.entry[m.two], TraceOf(tr, m.two))
    ensures Older(a, Written(m.from, m.rd, m.stage, len), Traced(tr, m, b))
  {
  }

  lemma OpenedShaped(m: Move, len: nat, tr: Traces, b: Word, a: Word)
    requires m.Open? && b < a
    ensures Shaped(Opened(m.src, len, b), Traced(tr, m, b)) && Older(a, Opened(m.src, len, b), Traced(tr, m, b))
  {
  }

  /** At every address of a line, passed from `h` on in whatever state the known constants
      are true of, they are true, and every entry begun since that went through no x0 holds
      what its stage makes of the subtractions it rests on. */
  lemma {:induction false} LineIsTrue(p: Program, h: Word, a: Word, s: State)
    requires WellFormed(p) && OnLine(p, h, a) && KnownTrue(TablesAt(p, h), s)
    ensures LineTrue(p, h, a, s)
    decreases a
  {
    hide WellFormed, Prev, EntryTrue, MoveAt, Effect, After, Resets, KnownTrue;
    if a == h {
      NothingSince(p, h, s);
    } else {
      BackOne(p, a);
      LineIsTrue(p, h, Prev(p, a).value, s);
      LineOn(p, h, Prev(p, a).value, a, s);
    }
  }

  lemma NothingSince(p: Program, h: Word, s: State)
    requires KnownTrue(TablesAt(p, h), s)
    ensures LineTrue(p, h, h, s)
  {
    hide TablesAt, TracesAt, KnownTrue, Resets, StageValue, SourceAt;
    forall r | r in TablesAt(p, h).entry
      ensures EntryTrue(p, h, TablesAt(p, h).entry[r], TraceOf(TracesAt(p, h), r), r, h, s)
    {
      ShapedAt(p, h, r);
      NotSince(h, TablesAt(p, h).entry[r], TraceOf(TracesAt(p, h), r));
    }
  }

  lemma NotSince(h: Word, e: Entry, tr: Trace)
    requires Shaped(e, tr) && Older(h, e, tr)
    ensures !Since(h, e, tr)
  {
    if Late(e.stage) { assert tr.parts[0].start < h; }
  }

  // ---- the finding ----

  function Closes(t: Tables, i: Insn): Option<Reg> {
    match i
    case Alu(Srl, _, rs1, K(56)) => if At(t, rs1, Product) && t.entry[rs1].wide then Some(rs1) else None
    case Alu(Srlw, _, rs1, K(24)) => if At(t, rs1, Product) && !t.entry[rs1].wide then Some(rs1) else None
    case _ => None
  }

  lemma ClosingRight(t: Tables, i: Insn, len: nat, s: State)
    requires Closes(t, i).Some? && i.rd != 0
    ensures X(Effect(i, len, s), i.rd) == Closing(t.entry[Closes(t, i).value].wide, X(s, Closes(t, i).value))
  {
    var x := X(s, i.rs1);
    ClosingShift(x);
    hide Closing, Pow2, Ushift, Wshift, Sext;
  }

  lemma ClosingShift(x: Word)
    ensures Closing(true, x) == AluVal(Srl, x, Wrap(56)) && Closing(false, x) == AluVal(Srlw, x, Wrap(24))
  {
    ShiftAmounts();
    hide Pow2, Ushift, Wshift, Wrap;
    WrapOfWord(x / 0x100_0000_0000_0000);
  }

  lemma ClosesShape(t: Tables, i: Insn)
    requires Closes(t, i).Some?
    ensures i.Alu? && Closes(t, i).value in t.entry && t.entry[Closes(t, i).value].stage == Product
  {
  }

  /** The first of the shifts the entry rests on. */
  function First(parts: seq<Part>): (x: Word)
    requires parts != []
    ensures exists k :: 0 <= k < |parts| && x == parts[k].start
  {
    if |parts| == 1 then parts[0].start
    else
      var rest := First(parts[1..]);
      assert exists k :: 0 <= k < |parts[1..]| && rest == parts[1..][k].start;
      if parts[0].start < rest then parts[0].start else rest
  }

  /** Nothing writes the source from the first shift to any other, nor from a shift to
      the subtraction of what it began. */
  predicate Steady(p: Program, src: Reg, parts: seq<Part>)
    requires parts != []
  {
    forall k :: 0 <= k < |parts| ==>
      Unwritten(p, First(parts), src, parts[k].start) && Unwritten(p, parts[k].start, src, parts[k].taken)
  }

  /** The register a closing shift reads, its entry and its trace. */
  function ClosedEntry(p: Program, a: Word): Entry
    requires a in p.code && Closes(TablesAt(p, a), p.code[a].insn).Some?
  {
    TablesAt(p, a).entry[Closes(TablesAt(p, a), p.code[a].insn).value]
  }

  function ClosedTrace(p: Program, a: Word): Trace
    requires a in p.code && Closes(TablesAt(p, a), p.code[a].insn).Some?
  {
    TraceOf(TracesAt(p, a), Closes(TablesAt(p, a), p.code[a].insn).value)
  }

  ghost predicate ClosesAt(p: Program, a: Word) {
    && a in p.code && Closes(TablesAt(p, a), p.code[a].insn).Some?
    && p.code[a].insn.rd != 0 && !ClosedTrace(p, a).lost
  }

  /** What the closing shift leaves, its line passed from `h` on in state `s`. */
  ghost function CountAt(p: Program, h: Word, a: Word, s: State): Word
    requires ClosesAt(p, a)
  {
    X(Effect(p.code[a].insn, p.code[a].len, Arrive(p, h, a, s)), p.code[a].insn.rd)
  }

  /** The line comes from `h`, which lies before every shift the finding rests on, in a
      state the known constants are true of. */
  ghost predicate Follows(p: Program, h: Word, a: Word, s: State)
    requires ClosesAt(p, a)
  {
    && OnLine(p, h, a) && KnownTrue(TablesAt(p, h), s)
    && forall k :: 0 <= k < |ClosedTrace(p, a).parts| ==> h <= ClosedTrace(p, a).parts[k].start
  }

  /** From every such state the closing shift adds up the digits of what the four
      subtractions left, each in its own place. */
  lemma CountIs(p: Program, h: Word, a: Word, s: State)
    requires WellFormed(p) && ClosesAt(p, a) && Follows(p, h, a, s)
    ensures |ClosedTrace(p, a).parts| == 4
    ensures var e := ClosedEntry(p, a);
            CountAt(p, h, a, s) == Total(Span(e.wide), Differences(p, h, e.src, e.wide, ClosedTrace(p, a).parts, s))
  {
    hide WellFormed, TablesAt, TracesAt, Effect, Arrive, Closing, StageValue, KnownTrue, Difference, Total, OnLine;
    var r := Closes(TablesAt(p, a), p.code[a].insn).value;
    var e, tr := ClosedEntry(p, a), ClosedTrace(p, a);
    LineIsTrue(p, h, a, s);
    assert EntryTrue(p, h, e, tr, r, a, s);
    ClosingRight(TablesAt(p, a), p.code[a].insn, p.code[a].len, Arrive(p, h, a, s));
    ClosingCounts(e.wide, Differences(p, h, e.src, e.wide, tr.parts, s));
  }

  /** Where nothing writes the source meanwhile, that is the number of its set bits, or
      of its low half's, as it stood at the first shift. */
  lemma SteadyCount(p: Program, h: Word, a: Word, s: State)
    requires WellFormed(p) && ClosesAt(p, a) && Follows(p, h, a, s)
    ensures |ClosedTrace(p, a).parts| == 4
    ensures var e, parts := ClosedEntry(p, a), ClosedTrace(p, a).parts;
            Steady(p, e.src, parts) ==>
              CountAt(p, h, a, s) == Ones(if e.wide then 64 else 32, X(Arrive(p, h, First(parts), s), e.src))
  {
    hide WellFormed, TablesAt, TracesAt, Effect, Arrive, Ones, Total, Steady, First, Closes, OnLine;
    CountIs(p, h, a, s);
    var e, parts := ClosedEntry(p, a), ClosedTrace(p, a).parts;
    if Steady(p, e.src, parts) {
      forall k | 0 <= k < 4 ensures OnLine(p, h, parts[k].start) { PartBehind(p, h, a, s, k); }
      SteadyTaken(p, h, e.src, e.wide, parts, s);
      OneTotal(e.wide, X(Arrive(p, h, First(parts), s), e.src));
    }
  }

  lemma PartBehind(p: Program, h: Word, a: Word, s: State, k: nat)
    requires ClosesAt(p, a) && Follows(p, h, a, s) && k < |ClosedTrace(p, a).parts|
    ensures OnLine(p, h, ClosedTrace(p, a).parts[k].start)
  {
    hide TablesAt, TracesAt, OnLine, KnownTrue;
    ClosesShape(TablesAt(p, a), p.code[a].insn);
    LiesBehind(p, a, Closes(TablesAt(p, a), p.code[a].insn).value);
    InOrder(p, h, ClosedTrace(p, a).parts[k].start, a);
  }

  lemma SteadyTaken(p: Program, h: Word, src: Reg, wide: bool, parts: seq<Part>, s: State)
    requires |parts| == 4 && Steady(p, src, parts) && forall k :: 0 <= k < 4 ==> OnLine(p, h, parts[k].start)
    ensures var v := Halved(wide, X(Arrive(p, h, First(parts), s), src));
            Differences(p, h, src, wide, parts, s) == [v, v, v, v]
  {
    hide Arrive, Odd, Unwritten, First, Wrap, OnLine;
    forall k | 0 <= k < 4
      ensures Difference(p, h, src, wide, parts[k], s) == Halved(wide, X(Arrive(p, h, First(parts), s), src))
    {
      UnwrittenKeeps(p, h, First(parts), src, parts[k].start, s);
      UnwrittenKeeps(p, h, parts[k].start, src, parts[k].taken, s);
    }
  }

  // ---- over a run ----

  /** The state on coming to `a`, its line begun with `s`. */
  ghost function FromHead(p: Program, a: Word, s: State): State {
    Arrive(p, Head(p, a), a, s)
  }

  ghost predicate Passed(p: Program, s: State, k: nat, n: nat, x: Word) {
    exists j: nat :: k <= j <= n && Run(p, s, j) == FromHead(p, x, Run(p, s, k))
  }

  /** Control has come to where it is along its line, begun at step `k`. */
  ghost predicate CameAlong(p: Program, s: State, k: nat, n: nat) {
    var a := Run(p, s, n).pc;
    && k <= n && Run(p, s, k).pc == Head(p, a) && Run(p, s, n) == FromHead(p, a, Run(p, s, k))
    && forall x :: OnLine(p, x, a) ==> Passed(p, s, k, n, x)
  }

  lemma BeginsHere(p: Program, s: State, n: nat)
    requires Resets(p, Run(p, s, n).pc)
    ensures CameAlong(p, s, n, n)
  {
    hide Run, Prev;
    var a := Run(p, s, n).pc;
    forall x | OnLine(p, x, a) ensures Passed(p, s, n, n, x) {
      assert x == a && Run(p, s, n) == FromHead(p, x, Run(p, s, n));
    }
  }

  lemma {:induction false} HeadBefore(p: Program, a: Word)
    ensures Head(p, a) <= a && OnLine(p, Head(p, a), a) && Resets(p, Head(p, a))
    decreases a
  {
    hide Resets, Prev;
    if !Resets(p, a) {
      BackOne(p, a);
      HeadBefore(p, Prev(p, a).value);
    }
  }

  lemma GoesOnFrom(p: Program, s: State, k: nat, n: nat)
    requires CameAlong(p, s, k, n)
    requires var b, a := Run(p, s, n).pc, Run(p, s, n + 1).pc;
             b in p.code && Prev(p, a) == Some(b) && !Resets(p, a) &&
             Run(p, s, n + 1) == Effect(p.code[b].insn, p.code[b].len, Run(p, s, n)).(pc := a)
    ensures CameAlong(p, s, k, n + 1)
  {
    hide Run, Prev, Effect, Resets;
    var b, a := Run(p, s, n).pc, Run(p, s, n + 1).pc;
    HeadBefore(p, b);
    assert Run(p, s, n + 1) == FromHead(p, a, Run(p, s, k));
    forall x | OnLine(p, x, a) ensures Passed(p, s, k, n + 1, x) {
      if x != a {
        assert OnLine(p, x, b) && Passed(p, s, k, n, x);
        var j: nat :| k <= j <= n && Run(p, s, j) == FromHead(p, x, Run(p, s, k));
        assert Run(p, s, j) == FromHead(p, x, Run(p, s, k));
      }
    }
  }

  lemma StandsStill(p: Program, s: State, k: nat, n: nat)
    requires CameAlong(p, s, k, n) && Run(p, s, n + 1) == Run(p, s, n)
    ensures CameAlong(p, s, k, n + 1)
  {
    hide Run, OnLine, FromHead, Head;
    forall x | OnLine(p, x, Run(p, s, n).pc) ensures Passed(p, s, k, n + 1, x) {
      assert Passed(p, s, k, n, x);
      var j: nat :| k <= j <= n && Run(p, s, j) == FromHead(p, x, Run(p, s, k));
      assert Run(p, s, j) == FromHead(p, x, Run(p, s, k));
    }
  }

  lemma QuietResets(p: Program, a: Word)
    requires Quiet(p, a)
    ensures Resets(p, a)
  {
  }

  /** A step falls through to an address whose line goes on, or begins one. */
  lemma FallOrBegin(p: Program, x: State)
    requires WellFormed(p) && QuietLandings(p) && Runs(p, x)
    ensures var d, c := p.code[x.pc], Step(p, x).pc;
            || (c in p.code ==> Resets(p, c))
            || (Prev(p, c) == Some(x.pc) && !Resets(p, c) && Step(p, x) == Effect(d.insn, d.len, x).(pc := c))
  {
    hide IsTarget, Effect, QuietLandings, Reads, Writes, NextPc, WellFormed, PlainInsn;
    var d, c := p.code[x.pc], Step(p, x).pc;
    PrevOfNext(p, x.pc);
    if c in p.code && !(c == x.pc + d.len && !EndsRegion(d.insn)) {
      Lands(p, x, c);
      QuietResets(p, c);
    }
  }

  lemma {:induction false} ComesAlong(p: Program, s: State, n: nat)
    requires WellFormed(p) && QuietLandings(p) && Quiet(p, s.pc) && Run(p, s, n).pc in p.code
    ensures exists k: nat :: CameAlong(p, s, k, n)
  {
    hide WellFormed, QuietLandings, Quiet, Resets, CameAlong, Exec, Runs, Prev;
    if n == 0 {
      QuietResets(p, s.pc);
      BeginsHere(p, s, 0);
    } else {
      var x := Run(p, s, n - 1);
      if Resets(p, Run(p, s, n).pc) {
        BeginsHere(p, s, n);
      } else if Runs(p, x) {
        RunsInCode(p, x);
        ComesAlong(p, s, n - 1);
        var k: nat :| CameAlong(p, s, k, n - 1);
        FallOrBegin(p, x);
        GoesOnFrom(p, s, k, n - 1);
      } else {
        ComesAlong(p, s, n - 1);
        var k: nat :| CameAlong(p, s, k, n - 1);
        StandsStill(p, s, k, n - 1);
      }
    }
  }

  lemma RunsInCode(p: Program, x: State)
    requires Runs(p, x)
    ensures x.pc in p.code
  {
  }

  // ---- what an entry rests on lies behind it on its line ----

  ghost predicate Behind(p: Program, e: Entry, tr: Trace, a: Word) {
    && OnLine(p, e.start, a)
    && forall k :: 0 <= k < |tr.parts| ==> OnLine(p, tr.parts[k].start, a) && OnLine(p, tr.parts[k].taken, a)
  }

  lemma BehindOn(p: Program, e: Entry, tr: Trace, b: Word, a: Word)
    requires Behind(p, e, tr, b) && !Resets(p, a) && Prev(p, a) == Some(b)
    ensures Behind(p, e, tr, a)
  {
    hide Resets, Prev;
  }

  lemma TracedBehind(p: Program, t: Tables, tr: Traces, m: Move, len: nat, b: Word)
    requires m.Advance? && Continues(t, m) && m.from.start in {t.entry[m.one].start, t.entry[m.two].start}
    requires Behind(p, t.entry[m.one], TraceOf(tr, m.one), b) && Behind(p, t.entry[m.two], TraceOf(tr, m.two), b)
    ensures Behind(p, Written(m.from, m.rd, m.stage, len), Traced(tr, m, b), b)
  {
    hide Resets, Prev;
    assert OnLine(p, b, b);
  }

  lemma StartsFrom(t: Tables, i: Insn, len: nat)
    ensures var m := MoveOf(t, i, len);
            m.Advance? ==> Continues(t, m) && m.from.start in {t.entry[m.one].start, t.entry[m.two].start}
  {
    hide MoveOf, Continues;
    MoveContinues(t, i, len);
    var m := MoveOf(t, i, len);
    if m.Advance? {
      AdvanceShape(t, i, len);
      match i.src {
        case K(k) => ShiftStart(t, i.rd, i.rs1, k);
        case R(b) => RegisterStart(t, i.rd, i.rs1, b);
      }
    }
  }

  predicate FromThose(t: Tables, m: Move) {
    m.Advance? ==> m.one in t.entry && m.two in t.entry && m.from.start in {t.entry[m.one].start, t.entry[m.two].start}
  }

  lemma ShiftStart(t: Tables, rd: Reg, a: Reg, k: int)
    ensures FromThose(t, ShiftMove(t, rd, a, k))
  {
  }

  lemma RegisterStart(t: Tables, rd: Reg, a: Reg, b: Reg)
    ensures FromThose(t, AndMove(t, rd, a, b)) && FromThose(t, MulMove(t, rd, a, b))
    ensures FromThose(t, AddMove(t, rd, a, b)) && FromThose(t, SubMove(t, rd, a, b))
  {
    hide MaskMove;
  }

  lemma {:induction false} LiesBehind(p: Program, a: Word, r: Reg)
    requires r in TablesAt(p, a).entry
    ensures Behind(p, TablesAt(p, a).entry[r], TraceOf(TracesAt(p, a), r), a)
    decreases a
  {
    hide Resets, Prev, MoveOf, Written, After, Traced, Behind, Continues;
    BackOne(p, a);
    var b := Prev(p, a).value;
    var t, tr, m, d := TablesAt(p, b), TracesAt(p, b), MoveAt(p, b), p.code[b];
    EntriesAfter(t, m, d.len, b, r);
    if Sets(m, r) {
      if m.Advance? {
        StartsFrom(t, d.insn, d.len);
        Used(t, m);
        LiesBehind(p, b, m.one);
        LiesBehind(p, b, m.two);
        TracedBehind(p, t, tr, m, d.len, b);
        BehindOn(p, Written(m.from, m.rd, m.stage, d.len), Traced(tr, m, b), b, a);
      } else {
        OpenedBehind(p, m, d.len, tr, b);
        BehindOn(p, Opened(m.src, d.len, b), Traced(tr, m, b), b, a);
      }
    } else {
      LiesBehind(p, b, r);
      BehindOn(p, t.entry[r], TraceOf(tr, r), b, a);
    }
  }

  lemma OpenedBehind(p: Program, m: Move, len: nat, tr: Traces, b: Word)
    requires m.Open?
    ensures Behind(p, Opened(m.src, len, b), Traced(tr, m, b), b)
  {
  }

  /** In every run: the closing shift leaves the digits of what the four subtractions
      left, added up, and where nothing writes the source meanwhile the number of set
      bits the source had when control was last at the first shift. */
  lemma CountIsRight(p: Program, s: State, n: nat)
    requires WellFormed(p) && QuietLandings(p) && Quiet(p, s.pc) && ClosesAt(p, Run(p, s, n).pc)
    ensures var a := Run(p, s, n).pc;
            var e, parts, rd := ClosedEntry(p, a), ClosedTrace(p, a).parts, p.code[a].insn.rd;
            && |parts| == 4
            && (exists k: nat :: CameAlong(p, s, k, n) &&
                  X(Run(p, s, n + 1), rd) == Total(Span(e.wide),
                                                   Differences(p, Head(p, a), e.src, e.wide, parts, Run(p, s, k))))
            && (Steady(p, e.src, parts) ==>
                  exists j: nat :: j <= n && CountsFrom(p, s, n, j, e, First(parts)))
  {
    hide Run, WellFormed, QuietLandings, Quiet, Effect, Ones, Total, Closes, TablesAt, TracesAt, Arrive, CameAlong,
         Steady, Differences, First,
         Head, OnLine, Follows;
    var a := Run(p, s, n).pc;
    var h := Head(p, a);
    ClosesShape(TablesAt(p, a), p.code[a].insn);
    ComesAlong(p, s, n);
    var k: nat :| CameAlong(p, s, k, n);
    FollowsHead(p, a, Run(p, s, k));
    CountIs(p, h, a, Run(p, s, k));
    SteadyCount(p, h, a, Run(p, s, k));
    ShiftRuns(p, s, n);
    assert Run(p, s, n) == FromHead(p, a, Run(p, s, k)) by { Came(p, s, k, n, a); }
    var e, parts := ClosedEntry(p, a), ClosedTrace(p, a).parts;
    if Steady(p, e.src, parts) {
      var x := First(parts);
      assert OnLine(p, x, a) by {
        FirstBehind(p, a, Closes(TablesAt(p, a), p.code[a].insn).value);
      }
      var j := PassedAt(p, s, k, n, x);
      SameHead(p, x, a);
      HeadBefore(p, x);
      if Unwritten(p, x, e.src, a) { UnwrittenKeeps(p, h, x, e.src, a, Run(p, s, k)); }
      assert CountsFrom(p, s, n, j, e, x);
    }
  }

  /** The beginning of its line lies before all a finding rests on. */
  lemma FollowsHead(p: Program, a: Word, s: State)
    requires ClosesAt(p, a)
    ensures Follows(p, Head(p, a), a, s)
  {
    hide TracesAt, OnLine, Head, Resets;
    HeadBefore(p, a);
    assert TablesAt(p, Head(p, a)) == NoTables;
    hide TablesAt;
    ClosesShape(TablesAt(p, a), p.code[a].insn);
    LiesBehind(p, a, Closes(TablesAt(p, a), p.code[a].insn).value);
    forall k | 0 <= k < |ClosedTrace(p, a).parts| ensures Head(p, a) <= ClosedTrace(p, a).parts[k].start {
      var x := ClosedTrace(p, a).parts[k].start;
      SameHead(p, x, a);
      HeadBefore(p, x);
    }
  }

  /** Step `n` leaves the bits counted the source had at step `j`, at the shift, and has
      still if nothing wrote it since. */
  ghost predicate CountsFrom(p: Program, s: State, n: nat, j: nat, e: Entry, x: Word) {
    var a, width := Run(p, s, n).pc, if e.wide then 64 else 32;
    && Run(p, s, j).pc == x && OnLine(p, x, a)
    && a in p.code && p.code[a].insn.Alu? && X(Run(p, s, n + 1), p.code[a].insn.rd) ==
       Ones(width, X(Run(p, s, j), e.src))
    && (Unwritten(p, x, e.src, a) ==> X(Run(p, s, n), e.src) == X(Run(p, s, j), e.src))
  }

  /** Where nothing has written the source since the first shift, the closing shift does
      to the whole state what counting the bits of the source there would. */
  lemma CountsInPlace(p: Program, s: State, n: nat)
    requires WellFormed(p) && QuietLandings(p) && Quiet(p, s.pc) && ClosesAt(p, Run(p, s, n).pc)
    requires var a := Run(p, s, n).pc;
             var e, parts := ClosedEntry(p, a), ClosedTrace(p, a).parts;
             |parts| == 4 && Steady(p, e.src, parts) && Unwritten(p, First(parts), e.src, a)
    ensures var t := Run(p, s, n);
            var e, d := ClosedEntry(p, t.pc), p.code[t.pc];
            Run(p, s, n + 1) == SetX(t, d.insn.rd, Ones(if e.wide then 64 else 32,
                                                        X(t, e.src))).(pc := Wrap(t.pc + d.len))
  {
    hide Run, WellFormed, QuietLandings, Quiet, Effect, Ones, Total, Closes, TablesAt, TracesAt, Arrive, CameAlong,
         Steady, Differences, First,
         Unwritten, CountsFrom;
    var t := Run(p, s, n);
    var e, parts := ClosedEntry(p, t.pc), ClosedTrace(p, t.pc).parts;
    CountIsRight(p, s, n);
    var j: nat :| j <= n && CountsFrom(p, s, n, j, e, First(parts));
    CountedThere(p, s, n, j, e, First(parts));
    ClosesShape(TablesAt(p, t.pc), p.code[t.pc].insn);
    ShiftSteps(p, s, n);
  }

  lemma CountedThere(p: Program, s: State, n: nat, j: nat, e: Entry, x: Word)
    requires CountsFrom(p, s, n, j, e, x) && Unwritten(p, x, e.src, Run(p, s, n).pc)
    ensures var t := Run(p, s, n);
            && t.pc in p.code && p.code[t.pc].insn.Alu?
            && X(Run(p, s, n + 1), p.code[t.pc].insn.rd) == Ones(if e.wide then 64 else 32, X(t, e.src))
  {
    hide Run, Unwritten, Ones, OnLine;
  }

  lemma ShiftSteps(p: Program, s: State, n: nat)
    requires Run(p, s, n).pc in p.code && p.code[Run(p, s, n).pc].insn.Alu? && p.code[Run(p, s, n).pc].insn.rd != 0
    ensures var t, u := Run(p, s, n), Run(p, s, n + 1);
            u == SetX(t, p.code[t.pc].insn.rd, X(u, p.code[t.pc].insn.rd)).(pc := Wrap(t.pc + p.code[t.pc].len))
  {
    hide AluVal;
  }

  lemma FirstBehind(p: Program, a: Word, r: Reg)
    requires r in TablesAt(p, a).entry && TraceOf(TracesAt(p, a), r).parts != []
    ensures OnLine(p, First(TraceOf(TracesAt(p, a), r).parts), a)
  {
    hide TablesAt, TracesAt, OnLine;
    LiesBehind(p, a, r);
    hide First;
  }

  lemma Came(p: Program, s: State, k: nat, n: nat, x: Word)
    requires CameAlong(p, s, k, n)
    ensures Run(p, s, n) == FromHead(p, Run(p, s, n).pc, Run(p, s, k))
    ensures OnLine(p, x, Run(p, s, n).pc) ==> Passed(p, s, k, n, x)
  {
    hide Run, FromHead, Head, OnLine, Passed;
  }

  lemma {:induction false} SameHead(p: Program, x: Word, a: Word)
    requires OnLine(p, x, a)
    ensures Head(p, x) == Head(p, a)
    decreases a
  {
    hide Resets, Prev;
    if x != a {
      BackOne(p, a);
      SameHead(p, x, Prev(p, a).value);
    }
  }

  lemma ArrivesThere(p: Program, x: Word, s: State)
    requires s.pc == Head(p, x)
    ensures FromHead(p, x, s).pc == x
  {
    hide Resets, Prev, Effect;
  }

  lemma PassedAt(p: Program, s: State, k: nat, n: nat, x: Word) returns (j: nat)
    requires CameAlong(p, s, k, n) && OnLine(p, x, Run(p, s, n).pc)
    ensures k <= j <= n && Run(p, s, j) == FromHead(p, x, Run(p, s, k)) && Run(p, s, j).pc == x
  {
    hide Run, FromHead, Head, OnLine;
    Came(p, s, k, n, x);
    j :| k <= j <= n && Run(p, s, j) == FromHead(p, x, Run(p, s, k));
    SameHead(p, x, Run(p, s, n).pc);
    ArrivesThere(p, x, Run(p, s, k));
  }

  lemma ShiftRuns(p: Program, s: State, n: nat)
    requires Run(p, s, n).pc in p.code && p.code[Run(p, s, n).pc].insn.Alu?
    ensures var x := Run(p, s, n);
            forall r :: X(Run(p, s, n + 1), r) == X(Effect(p.code[x.pc].insn, p.code[x.pc].len, x), r)
  {
    hide Effect;
  }

  // ---- how many instructions a finding counts ----

  function Count(st: Stage): nat {
    match st
    case Shr1 => 1
    case And55 => 2
    case Stage1 => 3
    case And33 => 4
    case Shr2 => 4
    case And33S => 5
    case Stage2 => 7
    case Shr4 => 8
    case Sum4 => 9
    case Stage3 => 10
    case Product => 11
  }

  predicate Counted(e: Entry) {
    e.insns == Count(e.stage) && (Depth(e.stage) >= 2 ==> e.base == 3)
  }

  ghost predicate AllCounted(t: Tables) {
    forall r :: r in t.entry ==> Counted(t.entry[r])
  }

  ghost predicate CountedMove(m: Move, len: nat) {
    m.Advance? ==> Counted(Written(m.from, m.rd, m.stage, len))
  }

  lemma AndCounted(t: Tables, rd: Reg, a: Reg, b: Reg, len: nat)
    requires AllCounted(t)
    ensures CountedMove(AndMove(t, rd, a, b), len)
  {
    ArmCounted(t, rd, a, b, Shr1, And55, M55, len);
    ArmCounted(t, rd, a, b, Stage1, And33, M33, len);
    ArmCounted(t, rd, a, b, Shr2, And33S, M33, len);
    ArmCounted(t, rd, a, b, Sum4, Stage3, M0F, len);
    hide ArmMove, Counted, Written;
  }

  lemma ArmCounted(t: Tables, rd: Reg, a: Reg, b: Reg, want: Stage, give: Stage, m: bool -> Word, len: nat)
    requires AllCounted(t) && Count(give) == Count(want) + 1 && give != Stage1
    requires Depth(want) >= 2 <==> Depth(give) >= 2
    ensures ArmMove(t, rd, a, b, want, give, m).Some? ==> CountedMove(ArmMove(t, rd, a, b, want, give, m).value, len)
  {
    hide MaskMove, IsMask;
  }

  lemma MulCounted(t: Tables, rd: Reg, a: Reg, b: Reg, len: nat)
    requires AllCounted(t)
    ensures CountedMove(MulMove(t, rd, a, b), len)
  {
    hide MaskMove, IsMask;
  }

  lemma AddCounted(t: Tables, rd: Reg, a: Reg, b: Reg, len: nat)
    requires AllCounted(t)
    ensures CountedMove(AddMove(t, rd, a, b), len) && CountedMove(SubMove(t, rd, a, b), len)
  {
  }

  lemma ShiftCounted(t: Tables, rd: Reg, a: Reg, k: int, len: nat)
    requires AllCounted(t)
    ensures CountedMove(ShiftMove(t, rd, a, k), len)
  {
  }

  lemma AdvanceCounted(t: Tables, i: Insn, len: nat)
    requires AllCounted(t)
    ensures CountedMove(MoveOf(t, i, len), len)
  {
    hide Stepped, Merged, AndMove, SubMove, AddMove, MulMove, ShiftMove, Counted, Written, AllCounted;
    match i {
      case Alu(Srl, rd, rs1, K(k)) => ShiftCounted(t, rd, rs1, k, len);
      case Alu(_, rd, a, R(b)) =>
        AndCounted(t, rd, a, b, len);
        MulCounted(t, rd, a, b, len);
        AddCounted(t, rd, a, b, len);
      case _ =>
    }
  }

  /** Wherever the instructions stood and whichever registers they went through, a
      stage has taken the same number of them: a finding always counts twelve. */
  lemma {:induction false} AlwaysTwelve(p: Program, a: Word, r: Reg)
    requires r in TablesAt(p, a).entry
    ensures Counted(TablesAt(p, a).entry[r])
    ensures TablesAt(p, a).entry[r].stage == Product ==> TablesAt(p, a).entry[r].insns + 1 == 12
    decreases a
  {
    hide MoveOf, Written, IsTarget;
    var b := Prev(p, a).value;
    var t := TablesAt(p, b);
    forall q | q in t.entry ensures Counted(t.entry[q]) { AlwaysTwelve(p, b, q); }
    var m := MoveOf(t, p.code[b].insn, p.code[b].len);
    AdvanceCounted(t, p.code[b].insn, p.code[b].len);
  }
}
