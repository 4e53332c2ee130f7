/** What a result says about its own high bits: the bits recorded per register, when
    they are true, and the extensions they make redundant. */
module Guarantees {
  import opened Words
  import opened Wrappers
  import opened Machine
  import opened MemoryFacts
  import opened Window
  import opened Sweep

  datatype HighBits = S8 | S16 | S32 | Z8 | Z16 | Z32

  /** The value is what extending its own low part would make. */
  predicate Fits(g: HighBits, v: Word) {
    match g
    case S8 => v == Sext(v, 0x100)
    case S16 => v == Sext(v, 0x1_0000)
    case S32 => v == Sext(v, W32)
    case Z8 => v < 0x100
    case Z16 => v < 0x1_0000
    case Z32 => v < W32
  }

  ghost predicate AllFit(g: set<HighBits>, v: Word) {
    forall b :: b in g ==> Fits(b, v)
  }

  /** The closures: all but zero-extension to 32 bits implying sign-extension. */
  lemma Closures(v: Word)
    ensures Fits(S8, v) ==> Fits(S16, v)
    ensures Fits(S16, v) ==> Fits(S32, v)
    ensures Fits(Z8, v) ==> Fits(Z16, v) && Fits(S16, v)
    ensures Fits(Z16, v) ==> Fits(Z32, v) && Fits(S32, v)
    ensures Fits(Z32, v) ==> (Fits(S32, v) <==> v < 0x8000_0000)
  {
    SextIs(v, 0x100);
    SextIs(v, 0x1_0000);
    SextIs(v, W32);
    hide Sext;
  }

  /** Sign-extended: the value as a signed number lies within the low part's range. */
  lemma SextIs(v: Word, m: int)
    requires m == 0x100 || m == 0x1_0000 || m == W32
    ensures v == Sext(v, m) <==> -(m / 2) <= Signed(v) < m / 2
  {
    if m == 0x100 {
      SextByParts(v, 0x100, 0xff_ffff_ffff_ffff);
    } else if m == 0x1_0000 {
      SextByParts(v, 0x1_0000, 0xffff_ffff_ffff);
    } else {
      SextByParts(v, W32, 0xffff_ffff);
    }
  }

  lemma SextByParts(v: Word, m: int, q: int)
    requires (m == 0x100 && q == 0xff_ffff_ffff_ffff) || (m == 0x1_0000 && q == 0xffff_ffff_ffff)
             || (m == W32 && q == 0xffff_ffff)
    ensures v == Sext(v, m) <==> -(m / 2) <= Signed(v) < m / 2
  {
    assert m * q == W64 - m && m / 2 + m / 2 == m;
    if v < m / 2 {
      DivModUnique(v, m, 0, v);
    } else if v >= W64 - m / 2 {
      DivModUnique(v, m, q, v - m * q);
    }
  }

  /** A range known of the signed value. */
  function RangeBits(lo: int, hi: int): set<HighBits> {
    (if lo >= -128 && hi <= 127 then {S8} else {}) +
    (if lo >= -32768 && hi <= 32767 then {S16} else {}) +
    (if lo >= -0x8000_0000 && hi <= 0x7fff_ffff then {S32} else {}) +
    (if lo >= 0 && hi <= 255 then {Z8} else {}) +
    (if lo >= 0 && hi <= 65535 then {Z16} else {}) +
    (if lo >= 0 && hi <= 0xffff_ffff then {Z32} else {})
  }

  lemma RangeFits(lo: int, hi: int, v: Word)
    requires lo <= Signed(v) <= hi
    ensures AllFit(RangeBits(lo, hi), v)
  {
    SextIs(v, 0x100);
    SextIs(v, 0x1_0000);
    SextIs(v, W32);
    hide Sext;
  }

  // ---- what one instruction leaves ----

  function LoadBits(k: MemKind): set<HighBits> {
    match k
    case LB => {S8, S16, S32}
    case LH => {S16, S32}
    case LW => {S32}
    case LBU => {Z8, Z16, Z32, S32}
    case LHU => {Z16, Z32, S32}
    case LWU => {Z32}
    case _ => {}
  }

  function AluBits(op: AluOp, rs1: Reg, src: Src, len: nat): set<HighBits> {
    match op
    case Add => if rs1 == 0 && src.K? then RangeBits(src.k, src.k) else {}
    case And =>
      if src.R? || src.k < 0 then {}
      else if len == 2 && src.k == 255 then {Z8, Z16, Z32, S32}      // c.zext.b
      else RangeBits(0, src.k)
    case SextB => {S8, S16, S32}
    case SextH => {S16, S32}
    case ZextH => {Z16, Z32, S32}
    case ZextW => {Z32}
    case Addw | Subw | Sllw | Srlw | Sraw | Mulw => {S32}
    case SlliUw => {S32}
    case ShaddUw(n) => if n == 0 then (if src == R(0) then {Z32} else {}) else {S32}
    case _ => {}
  }

  function ResultBits(i: Insn, len: nat): set<HighBits> {
    match i
    case Load(k, _, _, _) => LoadBits(k)
    case Alu(op, _, rs1, src) => AluBits(op, rs1, src, len)
    case Lui(_, imm) => RangeBits(imm, imm)
    case _ => {}
  }

  /** The two forms that shift a zero-extended word into the high half, which the
      32-bit opcodes share: nothing keeps their result sign-extended unless all
      they read is x0. */
  predicate Overclaims(i: Insn) {
    i.Alu? && ((i.op.SlliUw? && i.rs1 != 0) || (i.op.ShaddUw? && i.op.shift > 0 && (i.rs1 != 0 || i.src != R(0))))
  }

  /** `shNadd.uw` shifts by at most three and adds a register; `slli.uw` shifts by an
      immediate. */
  predicate RealUw(i: Insn) {
    i.Alu? ==> (i.op.ShaddUw? ==> i.op.shift <= 3 && i.src.R?) && (i.op.SlliUw? ==> i.src.K? && 0 <= i.src.k < 64)
  }

  lemma LoadFits(i: Insn, len: nat, s: State)
    requires i.Load? && PlainInsn(i)
    ensures AllFit(LoadBits(i.kind), XResult(i, len, s))
  {
    var v := LoadAt(i.kind, s, i.base, i.off);
    LoadBounded(s.mem, Address(s, i.base, i.off), i.kind);
    ExtendFits(i.kind, v);
    hide LoadLE, Extend;
  }

  lemma ExtendFits(k: MemKind, v: nat)
    requires !k.IsStore() && v < (match k.Width() case 1 => 0x100 case 2 => 0x1_0000 case 4 => W32 case _ => W64)
    ensures AllFit(LoadBits(k), Extend(k, v))
  {
    SextTwice(v, 0x100);
    SextTwice(v, 0x1_0000);
    SextTwice(v, W32);
    Closures(Extend(k, v));
    hide Sext;
  }

  lemma SextTwice(v: int, m: int)
    requires m == 0x100 || m == 0x1_0000 || m == W32
    ensures Sext(Sext(v, m), m) == Sext(v, m)
  {
    SextLow(v, m);
  }

  lemma ImmediateAnd(a: Word, k: int)
    requires 0 <= k <= 2047
    ensures BitWord(BAnd, a, Wrap(k)) <= k
  {
    hide Bits, Pow2;
    BitsAndBounded(64, a, k);
  }

  lemma AluFits(op: AluOp, rs1: Reg, src: Src, len: nat, a: Word, b: Word)
    requires rs1 == 0 ==> a == 0
    requires src.K? ==> -2048 <= src.k <= 2047 && b == Wrap(src.k)
    requires src == R(0) ==> b == 0
    requires !(op.SlliUw? && rs1 != 0) && !(op.ShaddUw? && op.shift > 0 && (rs1 != 0 || src != R(0)))
    ensures AllFit(AluBits(op, rs1, src, len), AluVal(op, a, b))
  {
    hide AluBits, AluVal, Fits;
    match op {
      case Add => AddFits(rs1, src, len, a, b);
      case And => AndFits(rs1, src, len, a, b);
      case _ => OtherFits(op, rs1, src, len, a, b);
    }
  }

  lemma AddFits(rs1: Reg, src: Src, len: nat, a: Word, b: Word)
    requires (rs1 == 0 ==> a == 0) && (src.K? ==> -2048 <= src.k <= 2047 && b == Wrap(src.k))
    ensures AllFit(AluBits(Add, rs1, src, len), AluVal(Add, a, b))
  {
    hide RangeBits, Fits;
    if rs1 == 0 && src.K? {
      assert AluVal(Add, a, b) == b;
      RangeFits(src.k, src.k, b);
    }
  }

  lemma AndFits(rs1: Reg, src: Src, len: nat, a: Word, b: Word)
    requires src.K? ==> -2048 <= src.k <= 2047 && b == Wrap(src.k)
    ensures AllFit(AluBits(And, rs1, src, len), AluVal(And, a, b))
  {
    hide BitWord, RangeBits, Fits;
    if src.K? && src.k >= 0 {
      ImmediateAnd(a, src.k);
      RangeFits(0, src.k, BitWord(BAnd, a, b));
      ByteFits(BitWord(BAnd, a, b));
    }
  }

  lemma ByteFits(v: Word)
    ensures v <= 255 ==> Fits(Z8, v) && Fits(Z16, v) && Fits(Z32, v) && Fits(S32, v)
  {
    Closures(v);
  }

  lemma ExtendedFit(v: int)
    ensures Fits(S32, Sext(v, W32)) && Fits(S16, Sext(v, 0x1_0000)) && Fits(S8, Sext(v, 0x100))
    ensures Fits(S32, Sext(v, 0x1_0000)) && Fits(S16, Sext(v, 0x100)) && Fits(S32, Sext(v, 0x100))
  {
    SextTwice(v, 0x100);
    SextTwice(v, 0x1_0000);
    SextTwice(v, W32);
    Closures(Sext(v, 0x100));
    Closures(Sext(v, 0x1_0000));
    hide Sext;
  }

  lemma ZeroFits()
    ensures forall b: HighBits :: Fits(b, 0)
  {
  }

  lemma OtherFits(op: AluOp, rs1: Reg, src: Src, len: nat, a: Word, b: Word)
    requires op != Add && op != And && (rs1 == 0 ==> a == 0) && (src == R(0) ==> b == 0)
    requires !(op.SlliUw? && rs1 != 0) && !(op.ShaddUw? && op.shift > 0 && (rs1 != 0 || src != R(0)))
    ensures AllFit(AluBits(op, rs1, src, len), AluVal(op, a, b))
  {
    hide RangeBits, BitWord, Pow2, Sext, Fits, Signed, Wrap;
    match op {
      case Addw => ExtendedFit(a + b);
      case Subw => ExtendedFit(a - b);
      case Sllw => ExtendedFit(a * Pow2(Wshift(b)));
      case Srlw => ExtendedFit((a % W32) / Pow2(Wshift(b)));
      case Sraw => ExtendedFit(Signed(Sext(a, W32)) / Pow2(Wshift(b)));
      case Mulw => ExtendedFit(a * b);
      case SextB => ExtendedFit(a);
      case SextH => ExtendedFit(a);
      case ZextH => SmallFits(a % 0x1_0000);
      case ZextW => SmallFits(a % W32);
      case SlliUw =>
        ZeroShifted(a, b, Ushift(b));
        ZeroFits();
      case ShaddUw(n) =>
        ZeroShifted(a, b, n);
        ZeroFits();
        UnshiftedSum(a);
        SmallFits(a % W32);
      case _ =>
    }
  }

  lemma SmallFits(v: Word)
    ensures v < W32 ==> Fits(Z32, v)
    ensures v < 0x1_0000 ==> Fits(Z16, v) && Fits(S32, v)
  {
    Closures(v);
  }

  lemma UnshiftedSum(a: Word)
    ensures Wrap((a % W32) * Pow2(0)) == a % W32 && Wrap(0 + (a % W32) * Pow2(0)) == a % W32
  {
    assert Pow2(0) == 1;
  }

  lemma ZeroShifted(a: Word, b: Word, n: nat)
    ensures a == 0 ==> Wrap((a % W32) * Pow2(n)) == 0 && Wrap(b + (a % W32) * Pow2(n)) == b
    ensures Pow2(0) == 1
  {
  }

  // ---- exactly when the claim holds ----

  lemma {:induction false} PowOrder(m: nat, n: nat)
    requires m <= n
    ensures Pow2(m) <= Pow2(n)
  {
    if m < n {
      PowOrder(m, n - 1);
    }
  }

  lemma NotSigned(v: Word)
    requires 0x8000_0000 <= v <= 0x8000_0000_0000_0000
    ensures !Fits(S32, v)
  {
    SextIs(v, W32);
    hide Sext;
  }

  /** What the register must hold for the shift to leave the range. */
  function Breaking(sh: nat): Word {
    if sh < 32 then 0x8000_0000 else 1
  }

  lemma BreaksShift(sh: nat)
    requires sh < 64
    ensures var a := Breaking(sh); 0x8000_0000 <= (a % W32) * Pow2(sh) <= 0x8000_0000_0000_0000
  {
    hide Pow2;
    Pow2Word();
    PowOrder(if sh < 32 then sh else 32, if sh < 32 then 31 else sh);
    PowOrder(sh, 63);
    Bounds(sh < 32, Pow2(sh));
  }

  lemma Bounds(low: bool, p: int)
    requires if low then 1 <= p <= 0x8000_0000 else W32 <= p <= 0x8000_0000_0000_0000
    ensures var a := if low then 0x8000_0000 else 1; 0x8000_0000 <= (a % W32) * p <= 0x8000_0000_0000_0000
  {
  }

  /** Every register zero but one. */
  ghost function Only(r: Reg, v: Word): State {
    State(0, seq(32, _ => 0)[r := v], seq(32, _ => 0), map[])
  }

  lemma OnlyX(r: Reg, v: Word, q: Reg)
    requires r != 0
    ensures X(Only(r, v), q) == if q == r then v else 0
  {
  }

  lemma SlliBreaks(i: Insn, len: nat)
    requires i.Alu? && i.op.SlliUw? && i.rs1 != 0 && RealUw(i)
    ensures S32 in ResultBits(i, len) && !Fits(S32, XResult(i, len, Only(i.rs1, Breaking(i.src.k))))
  {
    var sh: nat := i.src.k;
    OnlyX(i.rs1, Breaking(sh), i.rs1);
    BreaksShift(sh);
    hide Pow2, Only;
    var v: int := (Breaking(sh) % W32) * Pow2(sh);
    assert Wrap(sh) == sh && Ushift(Wrap(sh)) == sh;
    assert Wrap(v) == v;
    NotSigned(v);
  }

  lemma ShaddBreaks(i: Insn, len: nat)
    requires i.Alu? && i.op.ShaddUw? && i.op.shift > 0 && (i.rs1 != 0 || i.src != R(0)) && RealUw(i)
    ensures var r := if i.rs1 != 0 then i.rs1 else i.src.r;
            S32 in ResultBits(i, len) && r != 0 && !Fits(S32, XResult(i, len, Only(r, 0x8000_0000)))
  {
    var r := if i.rs1 != 0 then i.rs1 else i.src.r;
    var s := Only(r, 0x8000_0000);
    OnlyX(r, 0x8000_0000, i.rs1);
    OnlyX(r, 0x8000_0000, i.src.r);
    assert Pow2(1) == 2 && Pow2(2) == 4 && Pow2(3) == 8;
    hide Pow2, Only;
    NotSigned(XResult(i, len, s));
  }

  ghost predicate AlwaysFits(i: Insn, len: nat) {
    forall s: State :: AllFit(ResultBits(i, len), XResult(i, len, s))
  }

  lemma ResultFits(i: Insn, len: nat, s: State)
    requires PlainInsn(i) && !Overclaims(i)
    ensures AllFit(ResultBits(i, len), XResult(i, len, s))
  {
    match i {
      case Load(_, _, _, _) => LoadFits(i, len, s);
      case Alu(op, _, rs1, src) => AluFits(op, rs1, src, len, X(s, rs1), SrcVal(src, s));
      case Lui(_, imm) => RangeFits(imm, imm, Wrap(imm));
      case _ =>
    }
  }

  /** The bits an instruction is given are true of its result in every state,
      exactly when it is not one of the two forms that overclaim. */
  lemma ExactlyThen(i: Insn, len: nat)
    requires PlainInsn(i) && RealUw(i)
    ensures AlwaysFits(i, len) <==> !Overclaims(i)
  {
    hide ResultBits, XResult, Fits;
    if !Overclaims(i) {
      forall s: State ensures AllFit(ResultBits(i, len), XResult(i, len, s)) { ResultFits(i, len, s); }
    } else if i.op.SlliUw? {
      SlliBreaks(i, len);
      assert !AllFit(ResultBits(i, len), XResult(i, len, Only(i.rs1, Breaking(i.src.k))));
    } else {
      ShaddBreaks(i, len);
      var r := if i.rs1 != 0 then i.rs1 else i.src.r;
      assert !AllFit(ResultBits(i, len), XResult(i, len, Only(r, 0x8000_0000)));
    }
  }

  // ---- the table, as the sweep carries it ----

  type BitTable = map<Reg, set<HighBits>>

  /** The last instruction of the sweep before `a`, however far. */
  function Before(p: Program, a: Word): Option<Word> {
    if a < 2 then None else if a - 2 in p.code then Some(a - 2) else Before(p, a - 2)
  }

  /** The table after an instruction whose result is given the bits `g`. */
  function Noted(t: BitTable, i: Insn, g: set<HighBits>): BitTable {
    var kept := t - Writes(i);
    if EndsRegion(i) then map[]
    else if g != {} && XDest(i) != 0 then kept[XDest(i) := g] else kept
  }

  function Recorded(t: BitTable, i: Insn, len: nat): BitTable {
    Noted(t, i, ResultBits(i, len))
  }

  /** The bits but for those the two forms overclaim. */
  function SureBits(i: Insn, len: nat): set<HighBits> {
    if Overclaims(i) then {} else ResultBits(i, len)
  }

  /** What the check at `a` reads: cleared at a side entry and where the instruction
      cannot be read, but kept across bytes that do not decode. */
  function BitsAt(p: Program, a: Word): BitTable
    decreases a
  {
    if IsTarget(p, a) || !Readable(p, a) then map[]
    else
      match Before(p, a)
      case None => map[]
      case Some(b) => BeforeIsBefore(p, a); if !Readable(p, b) then map[]
        else Recorded(BitsAt(p, b), p.code[b].insn, p.code[b].len)
  }

  lemma {:induction false} BeforeIsBefore(p: Program, a: Word)
    ensures Before(p, a).Some? ==> Before(p, a).value < a && Before(p, a).value in p.code
  {
    if a >= 2 && a - 2 !in p.code {
      BeforeIsBefore(p, a - 2);
    }
  }

  /** What of it no instruction has overclaimed. */
  function SureAt(p: Program, a: Word): BitTable
    decreases a
  {
    if IsTarget(p, a) || !Readable(p, a) then map[]
    else
      match Before(p, a)
      case None => map[]
      case Some(b) =>
        BeforeIsBefore(p, a);
        if !Readable(p, b) then map[] else Noted(SureAt(p, b), p.code[b].insn, SureBits(p.code[b].insn, p.code[b].len))
  }

  ghost predicate PartOf(t: BitTable, u: BitTable) {
    forall r :: r in t ==> r in u && u[r] == t[r]
  }

  lemma NotedPart(t: BitTable, u: BitTable, i: Insn, len: nat)
    requires PartOf(t, u)
    ensures PartOf(Noted(t, i, SureBits(i, len)), Recorded(u, i, len))
    ensures t == u && !Overclaims(i) ==> Noted(t, i, SureBits(i, len)) == Recorded(u, i, len)
  {
    hide ResultBits, Overclaims;
    assert XDest(i) != 0 && !i.Then? ==> XDest(i) in Writes(i);
    NoThenBits(i, len);
  }

  lemma NoThenBits(i: Insn, len: nat)
    ensures i.Then? ==> XDest(i) == 0
  {
  }

  /** It is part of the table, and all of it where nothing overclaims. */
  lemma {:induction false} SureIsPart(p: Program, a: Word)
    ensures PartOf(SureAt(p, a), BitsAt(p, a))
    ensures NoneOverclaims(p) ==> SureAt(p, a) == BitsAt(p, a)
    decreases a
  {
    hide IsTarget, Before, Recorded, Noted, PartOf, Overclaims;
    assert PartOf(map[], map[]) by { NothingPart(); }
    if Before(p, a).Some? {
      BeforeIsBefore(p, a);
      var b := Before(p, a).value;
      SureIsPart(p, b);
      NotedPart(SureAt(p, b), BitsAt(p, b), p.code[b].insn, p.code[b].len);
    }
  }

  lemma NothingPart()
    ensures PartOf(map[], map[])
  {
  }

  /** Nothing of it is held wherever a run may begin. */
  ghost predicate QuietIsBare(p: Program) {
    forall a :: a in p.code && Quiet(p, a) ==> SureAt(p, a) == map[]
  }

  /** What stands right before an instruction is the last of the sweep before it. */
  lemma PrevIsBefore(p: Program, c: Word, a: Word)
    requires WellFormed(p) && Prev(p, c) == Some(a)
    ensures Before(p, c) == Some(a)
  {
    hide WellFormed;
    if c - 2 in p.code {
      Apart(p, a, c - 2);
    } else {
      assert c >= 4 && Before(p, c - 2) == Some(c - 4);
    }
  }

  ghost predicate TableFits(t: BitTable, s: State) {
    forall r :: r in t ==> r != 0 && AllFit(t[r], X(s, r))
  }

  ghost predicate BitsTrue(p: Program, s: State) {
    s.pc in p.code ==> TableFits(SureAt(p, s.pc), s)
  }

  ghost predicate NoneOverclaims(p: Program) {
    forall a :: a in p.code ==> !Overclaims(p.code[a].insn)
  }

  lemma WrittenResult(i: Insn, len: nat, s: State)
    requires PlainInsn(i) && XDest(i) != 0
    ensures X(Effect(i, len, s), XDest(i)) == XResult(i, len, s)
  {
    hide XResult;
  }

  lemma NotedFits(t: BitTable, i: Insn, len: nat, s: State)
    requires PlainInsn(i) && TableFits(t, s)
    ensures TableFits(Noted(t, i, SureBits(i, len)), Effect(i, len, s))
  {
    hide Effect, Writes, ResultBits, AllFit, XResult, Overclaims;
    if !Overclaims(i) { ResultFits(i, len, s); }
    var t' := Noted(t, i, SureBits(i, len));
    forall r | r in t' ensures r != 0 && AllFit(t'[r], X(Effect(i, len, s), r)) {
      EffectKeeps(i, len, s, r);
      if r == XDest(i) && t'[r] == SureBits(i, len) && SureBits(i, len) != {} && !EndsRegion(i) {
        WrittenResult(i, len, s);
      }
    }
  }

  lemma FitsIgnoresPc(t: BitTable, s: State, pc: Word)
    requires TableFits(t, s)
    ensures TableFits(t, s.(pc := pc))
  {
    hide AllFit;
  }

  lemma StepKeepsBits(p: Program, s: State)
    requires WellFormed(p) && QuietLandings(p) && QuietIsBare(p) && BitsTrue(p, s)
    ensures BitsTrue(p, Step(p, s))
  {
    hide WellFormed, Effect, IsTarget, NextPc, PlainInsn, Noted, TableFits, QuietLandings, Quiet, SureAt, SureBits;
    if Runs(p, s) && Step(p, s).pc in p.code {
      var d, c := p.code[s.pc], Step(p, s).pc;
      Placed(p, s.pc);
      PrevOfNext(p, s.pc);
      if c == s.pc + d.len && !EndsRegion(d.insn) {
        var t := SureAt(p, s.pc);
        NotedFits(t, d.insn, d.len, s);
        FitsIgnoresPc(Noted(t, d.insn, SureBits(d.insn, d.len)), Effect(d.insn, d.len, s), c);
        NextBits(p, s.pc, c);
        NoBitsFit(Step(p, s));
      } else {
        Lands(p, s, c);
        NoBitsFit(Step(p, s));
      }
    }
  }

  lemma NoBitsFit(s: State)
    ensures TableFits(map[], s)
  {
  }

  lemma NextBits(p: Program, a: Word, c: Word)
    requires WellFormed(p) && c in p.code && a in p.code && Prev(p, c) == Some(a)
    ensures SureAt(p, c) == map[] || SureAt(p, c) ==
            Noted(SureAt(p, a), p.code[a].insn, SureBits(p.code[a].insn, p.code[a].len))
  {
    hide Before, Noted, IsTarget, WellFormed;
    PrevIsBefore(p, c, a);
  }

  /** At every state of every run each bit not overclaimed is true of its register. */
  lemma {:induction false} BitsStayTrue(p: Program, s: State, n: nat)
    requires WellFormed(p) && QuietLandings(p) && QuietIsBare(p) && Quiet(p, s.pc)
    ensures BitsTrue(p, Run(p, s, n))
  {
    hide Step, WellFormed, QuietLandings, Quiet, SureAt;
    if n == 0 {
      NoBitsFit(s);
    } else {
      BitsStayTrue(p, s, n - 1);
      StepKeepsBits(p, Run(p, s, n - 1));
    }
  }

  lemma {:induction false} BitsSaySomething(p: Program, a: Word, r: Reg)
    requires r in SureAt(p, a)
    ensures r != 0 && SureAt(p, a)[r] != {}
    decreases a
  {
    hide IsTarget, ResultBits, Writes, Overclaims;
    BeforeIsBefore(p, a);
    hide Before;
    var b := Before(p, a).value;
    if r in SureAt(p, b) { BitsSaySomething(p, b, r); }
  }

  /** The least signed word fits nothing. */
  lemma LeastFitsNothing(g: HighBits)
    ensures !Fits(g, 0x8000_0000_0000_0000)
  {
    SextIs(0x8000_0000_0000_0000, 0x100);
    SextIs(0x8000_0000_0000_0000, 0x1_0000);
    SextIs(0x8000_0000_0000_0000, W32);
    hide Sext;
  }

  lemma BareOrFalse(p: Program, a: Word)
    requires a in p.code && SureAt(p, a) != map[]
    ensures exists s: State :: s.pc == a && !BitsTrue(p, s)
  {
    hide SureAt, Fits;
    var r :| r in SureAt(p, a);
    BitsSaySomething(p, a, r);
    var g :| g in SureAt(p, a)[r];
    LeastFitsNothing(g);
    OnlyX(r, 0x8000_0000_0000_0000, r);
    var s := Only(r, 0x8000_0000_0000_0000).(pc := a);
    assert X(s, r) == 0x8000_0000_0000_0000;
    assert !TableFits(SureAt(p, a), s);
  }

  /** At every state of every run from wherever one may begin each bit not overclaimed
      is true, exactly when none is held wherever one may begin. */
  lemma BitsAreTrue(p: Program)
    requires WellFormed(p) && QuietLandings(p)
    ensures (forall s: State, n: nat :: Quiet(p, s.pc) ==> BitsTrue(p, Run(p, s, n))) <==> QuietIsBare(p)
  {
    hide WellFormed, QuietLandings, Quiet, BitsTrue, SureAt;
    if QuietIsBare(p) {
      forall s: State, n: nat | Quiet(p, s.pc) ensures BitsTrue(p, Run(p, s, n)) { BitsStayTrue(p, s, n); }
    } else {
      var a :| a in p.code && Quiet(p, a) && SureAt(p, a) != map[];
      BareOrFalse(p, a);
      var s: State :| s.pc == a && !BitsTrue(p, s);
      assert Run(p, s, 0) == s;
    }
  }

  // ---- the finding ----

  /** An instruction that only extends a register: which extension. */
  function Extension(i: Insn): Option<HighBits> {
    match i
    case Alu(Addw, _, _, K(0)) => Some(S32)
    case Alu(And, _, _, K(255)) => Some(Z8)
    case Alu(SextB, _, _, _) => Some(S8)
    case Alu(SextH, _, _, _) => Some(S16)
    case Alu(ZextW, _, _, _) => Some(Z32)
    case Alu(ShaddUw(0), _, _, R(0)) => Some(Z32)
    case Alu(ZextH, _, _, _) => Some(Z16)
    case _ => None
  }

  predicate IsRedundant(t: BitTable, i: Insn) {
    Extension(i).Some? && i.rs1 != 0 && i.rs1 in t && Extension(i).value in t[i.rs1]
  }

  function Extended(g: HighBits, a: Word): Word {
    match g
    case S8 => Sext(a, 0x100)
    case S16 => Sext(a, 0x1_0000)
    case S32 => Sext(a, W32)
    case Z8 => a % 0x100
    case Z16 => a % 0x1_0000
    case Z32 => a % W32
  }

  lemma MaskByte(a: Word)
    ensures BitWord(BAnd, a, Wrap(255)) == a % 0x100
  {
    Pow2Word();
    AndMask(8, a, 255);
    hide BitWord, Pow2;
  }

  lemma UnshiftedWord(a: Word)
    ensures Wrap((a % W32) * Pow2(0)) == a % W32
  {
    assert Pow2(0) == 1;
  }

  lemma ExtensionIs(i: Insn, len: nat, s: State)
    requires Extension(i).Some?
    ensures XResult(i, len, s) == Extended(Extension(i).value, X(s, i.rs1))
  {
    hide BitWord, Sext, Pow2;
    MaskByte(X(s, i.rs1));
    UnshiftedWord(X(s, i.rs1));
  }

  /** An extension leaves its source as it was exactly when the source fits. */
  lemma ExtensionCopies(i: Insn, len: nat, s: State)
    requires Extension(i).Some?
    ensures XResult(i, len, s) == X(s, i.rs1) <==> Fits(Extension(i).value, X(s, i.rs1))
  {
    ExtensionIs(i, len, s);
    hide Sext, XResult, Extended, Fits, Extension;
    ExtendedFits(Extension(i).value, X(s, i.rs1));
  }

  lemma ExtendedFits(g: HighBits, a: Word)
    ensures Extended(g, a) == a <==> Fits(g, a)
  {
    hide Sext;
  }

  function Copy(i: Insn): Insn
    requires i.Alu?
  {
    Alu(Add, i.rd, i.rs1, K(0))
  }

  lemma CopyEffect(i: Insn, len: nat, s: State)
    requires i.Alu? && XResult(i, len, s) == X(s, i.rs1)
    ensures Effect(Copy(i), len, s) == Effect(i, len, s)
  {
  }

  /** With a redundant extension of what was not overclaimed a copy, or gone where it
      extends in place, every run goes on as before. */
  lemma {:induction false} RedundantIsInvisible(p: Program, q: Program, a: Word, s: State, n: nat)
    requires WellFormed(p) && QuietLandings(p) && QuietIsBare(p) && Quiet(p, s.pc)
    requires a in p.code && IsRedundant(BitsAt(p, a), p.code[a].insn) && p.code[a].insn.rs1 in SureAt(p, a)
    requires q == p.(code := p.code[a := p.code[a].(insn := if p.code[a].insn.rd == p.code[a].insn.rs1 then Nop
                                                    else Copy(p.code[a].insn))])
    ensures Run(q, s, n) == Run(p, s, n)
  {
    hide WellFormed, QuietLandings, QuietIsBare, Quiet, BitsTrue, IsRedundant, Copy, Exec;
    if n > 0 {
      RedundantIsInvisible(p, q, a, s, n - 1);
      BitsStayTrue(p, s, n - 1);
      var t := Run(p, s, n - 1);
      if t.pc == a {
        RedundantHere(p, a, t);
      }
    }
  }

  lemma RedundantHere(p: Program, a: Word, t: State)
    requires a in p.code && t.pc == a && BitsTrue(p, t) && IsRedundant(BitsAt(p, a), p.code[a].insn)
             && p.code[a].insn.rs1 in SureAt(p, a)
    ensures var d := p.code[a];
            var j := if d.insn.rd == d.insn.rs1 then Nop else Copy(d.insn);
            Exec(Decoded(j, d.len, d.names), t) == Exec(d, t) && !IsIndirect(j) && !IsIndirect(d.insn)
  {
    var d := p.code[a];
    SureIsPart(p, a);
    hide BitsAt, SureAt;
    ExtensionCopies(d.insn, d.len, t);
    CopyEffect(d.insn, d.len, t);
    CopyOntoItself(d.insn, d.len, t);
    hide XResult;
  }

  lemma CopyOntoItself(i: Insn, len: nat, s: State)
    requires i.Alu?
    ensures i.rd == i.rs1 ==> Effect(Copy(i), len, s) == Effect(Nop, len, s)
  {
    assert i.rd != 0 ==> s.x[i.rd := s.x[i.rd]] == s.x;
    assert Wrap(X(s, i.rs1)) == X(s, i.rs1);
  }

  /** The table as the sweep carries it from one instruction to the next. */
  class GuaranteeTable {
    var bits: BitTable

    constructor ()
      ensures bits == map[]
    {
      bits := map[];
    }

    /** What the instruction at `a` sees of the table. */
    ghost function Seen(p: Program, a: Word): BitTable
      reads this
    {
      if IsTarget(p, a) || !Readable(p, a) then map[] else bits
    }

    /** Whether the instruction at `a` is a redundant extension; then the table takes
        it in. */
    method CheckRedundantExtension(p: Program, a: Word) returns (redundant: bool)
      requires a in p.code && Seen(p, a) == BitsAt(p, a)
      modifies this
      ensures redundant == IsRedundant(BitsAt(p, a), p.code[a].insn)
      ensures forall c: Word :: Before(p, c) == Some(a) ==> Seen(p, c) == BitsAt(p, c)
    {
      hide IsTarget, ResultBits;
      var i, len := p.code[a].insn, p.code[a].len;
      if !Readable(p, a) {
        bits := map[];
        return false;
      }
      if IsTarget(p, a) { bits := map[]; }
      redundant := Extension(i).Some? && i.rs1 != 0 && i.rs1 in bits && Extension(i).value in bits[i.rs1];
      bits := bits - Writes(i);
      var g := ResultBits(i, len);
      if g != {} && XDest(i) != 0 { bits := bits[XDest(i) := g]; }
      if EndsRegion(i) { bits := map[]; }
    }
  }

  // ---- across bytes that do not decode ----

  /** A section with a gap: four bytes between the two instructions do not decode. */
  function GapProgram(): Program {
    Program(0, 16, map[0 := Decoded(Alu(Addw, 5, 5, K(0)), 4, {5}), 8 := Decoded(Nop, 4, {})], {})
  }

  lemma GapBefore()
    ensures Before(GapProgram(), 8) == Some(0) && Before(GapProgram(), 0) == None
    ensures !IsTarget(GapProgram(), 8) && !IsTarget(GapProgram(), 0) && Quiet(GapProgram(), 8)
  {
    var p := GapProgram();
    assert Before(p, 2) == Some(0) && Before(p, 4) == Some(0) && Before(p, 6) == Some(0);
  }

  lemma FirstBits(p: Program, a: Word, b: Word, g: set<HighBits>)
    requires Before(p, a) == Some(b) && Before(p, b) == None && b in p.code && Readable(p, a) && Readable(p, b)
    requires !IsTarget(p, a) && !EndsRegion(p.code[b].insn) && XDest(p.code[b].insn) != 0
    requires ResultBits(p.code[b].insn, p.code[b].len) == g && g != {}
    ensures BitsAt(p, a) == map[XDest(p.code[b].insn) := g]
    ensures SureAt(p, a) == if Overclaims(p.code[b].insn) then map[] else map[XDest(p.code[b].insn) := g]
  {
    hide IsTarget, ResultBits, Before, Overclaims;
    BeforeIsBefore(p, a);
    BeforeIsBefore(p, b);
    assert BitsAt(p, b) == map[] && SureAt(p, b) == map[];
  }

  /** What the table held before the gap is still there after it, where a run may begin
      with anything in the register. */
  lemma GapKeepsBits(x: Regs, f: Regs, m: Memory)
    requires x[5] == W32
    ensures var p := GapProgram();
            Quiet(p, 8) && !QuietIsBare(p) && BitsAt(p, 8) == map[5 := {S32}] && !BitsTrue(p, State(8, x, f, m))
  {
    var p := GapProgram();
    GapBefore();
    GapFacts();
    FirstBits(p, 8, 0, {S32});
    var s := State(8, x, f, m);
    SextIs(W32, W32);
    assert X(s, 5) == W32 && !Fits(S32, W32);
    hide GapProgram, BitsAt, Quiet, Fits, IsTarget, Before;
    assert S32 in SureAt(p, 8)[5];
    assert !TableFits(SureAt(p, 8), s);
  }

  lemma GapFacts()
    ensures var p := GapProgram();
            && 0 as Word in p.code && 8 as Word in p.code && Readable(p, 0) && Readable(p, 8)
            && p.code[0].insn == Alu(Addw, 5, 5, K(0)) && ResultBits(p.code[0].insn, p.code[0].len) == {S32}
            && !EndsRegion(p.code[0].insn) && !Overclaims(p.code[0].insn)
  {
  }

  // ---- a shifted word taken for sign-extended ----

  const Shifted: Insn := Alu(SlliUw, 5, 10, K(31))
  const Extending: Insn := Alu(Addw, 6, 5, K(0))

  /** `slli.uw t0,a0,31` and `sext.w t1,t0`. */
  function ShiftProgram(): Program {
    Program(0, 8, map[0 := Decoded(Shifted, 4, {5, 10}), 4 := Decoded(Extending, 4, {5, 6})], {})
  }

  function CopyProgram(): Program {
    ShiftProgram().(code := ShiftProgram().code[4 := Decoded(Copy(Extending), 4, {5, 6})])
  }

  lemma ShiftPlaced()
    ensures WellFormed(ShiftProgram())
  {
  }

  lemma ShiftFacts()
    ensures var p := ShiftProgram();
            && 0 as Word in p.code && 4 as Word in p.code && Readable(p, 0) && Readable(p, 4) && !IsTarget(p, 4)
            && p.code[0].insn == Shifted && p.code[4].insn == Extending && p.code[0].len == 4
            && Before(p, 0) == None && Before(p, 4) == Some(0)
  {
    var p := ShiftProgram();
    assert Before(p, 2) == Some(0);
  }

  lemma ShiftReported()
    ensures IsRedundant(BitsAt(ShiftProgram(), 4), Extending) && 5 !in SureAt(ShiftProgram(), 4)
  {
    ShiftFacts();
    assert ResultBits(Shifted, 4) == {S32} && Overclaims(Shifted) && XDest(Shifted) == 5 && !EndsRegion(Shifted);
    hide ShiftProgram, BitsAt, SureAt, ResultBits, Overclaims, Before, IsTarget;
    FirstBits(ShiftProgram(), 4, 0, {S32});
  }

  lemma ShiftedOne(s: State)
    requires X(s, 10) == 1
    ensures X(Effect(Shifted, 4, s), 5) == 0x8000_0000
  {
    Pow2Word();
    hide Pow2;
    assert Ushift(Wrap(31)) == 31;
  }

  /** The check reports the extension, and where the word shifted is 1 the two programs
      leave different values. */
  lemma ShiftMisreports(s: State)
    requires s.pc == 0 && X(s, 10) == 1
    ensures var p := ShiftProgram();
            && WellFormed(p) && IsRedundant(BitsAt(p, 4), p.code[4].insn)
            && X(Run(p, s, 2), 6) != X(Run(CopyProgram(), s, 2), 6) == 0x8000_0000
  {
    ShiftPlaced();
    ShiftReported();
    ShiftedOne(s);
    ShiftSteps(s);
    var t := Effect(Shifted, 4, s).(pc := 4);
    ExtendingIs(t);
    hide *;
    NotSigned(0x8000_0000);
    ExtendedFits(S32, 0x8000_0000);
  }

  lemma ExtendingIs(t: State)
    ensures XResult(Extending, 4, t) == Extended(S32, X(t, 5))
  {
    ExtensionIs(Extending, 4, t);
    hide XResult, Extended;
  }

  lemma ShiftSteps(s: State)
    requires s.pc == 0
    ensures var t := Effect(Shifted, 4, s).(pc := 4);
            && X(Run(ShiftProgram(), s, 2), 6) == XResult(Extending, 4, t) && X(Run(CopyProgram(), s, 2), 6) == X(t, 5)
            && X(t, 5) == X(Effect(Shifted, 4, s), 5) && ShiftProgram().code[4].insn == Extending
  {
    var p, q := ShiftProgram(), CopyProgram();
    hide AluVal;
    var t := Effect(Shifted, 4, s).(pc := 4);
    assert Run(p, s, 0) == s == Run(q, s, 0);
    assert Run(p, s, 1) == Step(p, s) == t && Run(q, s, 1) == Step(q, s) == t;
    assert Run(p, s, 2) == Step(p, t) && Run(q, s, 2) == Step(q, t);
    CopyIs(t);
  }

  lemma CopyIs(t: State)
    ensures X(Effect(Copy(Extending), 4, t), 6) == X(t, 5)
  {
    WrapOfWord(X(t, 5));
    assert Wrap(0) == 0;
  }
}
