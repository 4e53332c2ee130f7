/** Which bits the table records, and which extensions it therefore finds. */
module GuaranteesExact {
  import opened Words
  import opened Wrappers
  import opened Machine
  import opened MemoryFacts
  import opened Sweep
  import opened Guarantees
  import ImmediateForms

  // ---- what is known of one result ----

  /** True of the result whatever the state. */
  ghost predicate Held(i: Insn, len: nat, b: HighBits) {
    forall s: State :: Fits(b, XResult(i, len, s))
  }

  /** Loads, constants, masks, extensions and `addiw`, of registers that can be anything. */
  predicate Kept(i: Insn) {
    match i
    case Load(k, _, _, _) => !k.IsStore() && !k.IsFp()
    case Lui(_, _) => true
    case Alu(Add, _, rs1, K(_)) => rs1 == 0
    case Alu(And, _, rs1, K(k)) => rs1 != 0 && k >= 0
    case Alu(Addw, _, rs1, K(_)) => rs1 != 0
    case Alu(SextB, _, rs1, _) => rs1 != 0
    case Alu(SextH, _, rs1, _) => rs1 != 0
    case Alu(ZextH, _, rs1, _) => rs1 != 0
    case Alu(ZextW, _, rs1, _) => rs1 != 0
    case Alu(ShaddUw(n), _, rs1, R(r)) => n == 0 && rs1 != 0 && r == 0
    case _ => false
  }

  /** A byte is its own sixteen low bits sign-extended, and that is not recorded. */
  predicate Missed(i: Insn, len: nat, b: HighBits) {
    b == S16 && match i
                case Load(LBU, _, _, _) => true
                case Alu(And, _, _, K(k)) => k == 255 && len == 2
                case _ => false
  }

  /** The value with the top bit of its width alone. */
  function Top(k: MemKind): nat {
    match k.Width()
    case 1 => 0x80
    case 2 => 0x8000
    case 4 => 0x8000_0000
    case _ => 0x8000_0000_0000_0000
  }

  lemma Loads(k: MemKind, base: Reg, off: int, rd: Reg, len: nat) returns (s: State)
    requires !k.IsStore() && !k.IsFp()
    ensures XResult(Load(k, rd, base, off), len, s) == Extend(k, Top(k))
  {
    hide *;
    var m: Memory := map[];
    s := Bare(StoreLE(m, Wrap(off), k.Width(), Top(k)));
    BareX(StoreLE(m, Wrap(off), k.Width(), Top(k)), base);
    WidthAtMost(k);
    LoadAfterStore(m, Wrap(off), k.Width(), Top(k));
    LowTop(k);
    LoadOf(Load(k, rd, base, off), len, s);
  }

  /** Every register zero. */
  ghost function Bare(m: Memory): State {
    State(0, seq(32, _ => 0), seq(32, _ => 0), m)
  }

  lemma BareX(m: Memory, r: Reg)
    ensures X(Bare(m), r) == 0 && Bare(m).mem == m
  {
  }

  lemma WidthAtMost(k: MemKind)
    ensures k.Width() <= 8
  {
  }

  lemma LoadOf(i: Insn, len: nat, s: State)
    requires i.Load? && !i.kind.IsStore() && X(s, i.base) == 0
    ensures XResult(i, len, s) == Extend(i.kind, LoadLE(s.mem, Wrap(i.off), i.kind.Width()))
  {
    hide Extend, LoadLE;
  }

  lemma LowTop(k: MemKind)
    ensures Low(Top(k), k.Width()) == Top(k)
  {
    WordKeepsLow(Top(k), k.Width());
    hide Low;
    assert Wrap(Top(k)) == Top(k);
  }

  /** It fits what is recorded of such a load, S16 of a byte, and nothing else. */
  lemma TopFits(k: MemKind, b: HighBits)
    requires !k.IsStore() && !k.IsFp()
    ensures Fits(b, Extend(k, Top(k))) <==> b in LoadBits(k) || (k.LBU? && b == S16)
  {
    var v := Extend(k, Top(k));
    SextIs(v, 0x100);
    SextIs(v, 0x1_0000);
    SextIs(v, W32);
    hide Fits;
    assert v == match k
                case LB => W64 - 0x80
                case LH => W64 - 0x8000
                case LW => W64 - 0x8000_0000
                case LBU => 0x80
                case LHU => 0x8000
                case LWU => 0x8000_0000
                case _ => 0x8000_0000_0000_0000;
    FitsBy(b, v);
  }

  lemma FitsBy(b: HighBits, v: Word)
    ensures Fits(b, v) <==> (match b
                             case S8 => -0x80 <= Signed(v) < 0x80
                             case S16 => -0x8000 <= Signed(v) < 0x8000
                             case S32 => -0x8000_0000 <= Signed(v) < 0x8000_0000
                             case Z8 => v < 0x100
                             case Z16 => v < 0x1_0000
                             case Z32 => v < W32)
  {
    SextIs(v, 0x100);
    SextIs(v, 0x1_0000);
    SextIs(v, W32);
    hide Sext;
  }

  /** A byte fits S16. */
  lemma MissedHeld(i: Insn, len: nat, b: HighBits)
    requires PlainInsn(i) && Kept(i) && Missed(i, len, b)
    ensures Held(i, len, b) && b !in ResultBits(i, len)
  {
    hide XResult, Fits;
    forall s: State ensures Fits(b, XResult(i, len, s)) {
      ResultFits(i, len, s);
      FitsBy(b, XResult(i, len, s));
      FitsBy(Z8, XResult(i, len, s));
    }
  }

  /** What the register may hold for the result to show the most. */
  function Shown(op: AluOp, src: Src): Word {
    match op
    case And => if src.K? then Wrap(src.k) else 0
    case Addw => if src.K? then Wrap(0x8000_0000 - src.k) else 0
    case SextB => 0x80
    case SextH | ZextH => 0x8000
    case ZextW | ShaddUw(_) => 0x8000_0000
    case _ => 0
  }

  function Shows(op: AluOp, src: Src): Word {
    match op
    case Add | And => if src.K? then Wrap(src.k) else 0
    case Addw => W64 - 0x8000_0000
    case SextB => W64 - 0x80
    case SextH => W64 - 0x8000
    case ZextH => 0x8000
    case _ => 0x8000_0000
  }

  lemma AndItself(k: int)
    requires 0 <= k <= 2047
    ensures BitWord(BAnd, k, k) == k
  {
    Pow2Word();
    hide Pow2, Bits;
    ImmediateForms.AndSame(64, k);
  }

  lemma AluShows(i: Insn)
    requires PlainInsn(i) && Kept(i) && i.Alu?
    ensures AluVal(i.op, Shown(i.op, i.src), if i.src.K? then Wrap(i.src.k) else 0) == Shows(i.op, i.src)
  {
    hide AluVal, Shown, Shows;
    match i {
      case Alu(And, _, _, K(k)) => AndShows(k);
      case Alu(Addw, _, _, K(k)) => AddwShows(k);
      case Alu(op, _, _, src) => OtherShows(i);
    }
  }

  lemma AndShows(k: int)
    requires 0 <= k <= 2047
    ensures AluVal(And, Shown(And, K(k)), Wrap(k)) == Shows(And, K(k))
  {
    hide BitWord;
    AndItself(k);
  }

  lemma OtherShows(i: Insn)
    requires PlainInsn(i) && Kept(i) && i.Alu? && i.op != And && i.op != Addw
    ensures AluVal(i.op, Shown(i.op, i.src), if i.src.K? then Wrap(i.src.k) else 0) == Shows(i.op, i.src)
  {
    hide BitWord, Pow2;
    UnshiftedSum(0x8000_0000);
  }

  lemma AddwShows(k: int)
    requires -2048 <= k <= 2047
    ensures AluVal(Addw, Shown(Addw, K(k)), Wrap(k)) == Shows(Addw, K(k))
  {
    hide BitWord, Pow2;
  }

  lemma AluComes(i: Insn, len: nat) returns (s: State)
    requires PlainInsn(i) && Kept(i) && i.Alu?
    ensures XResult(i, len, s) == Shows(i.op, i.src)
  {
    AluShows(i);
    var v := Shown(i.op, i.src);
    s := if i.rs1 == 0 then Bare(map[]) else Only(i.rs1, v);
    BareX(map[], 0);
    if i.rs1 != 0 {
      OnlyX(i.rs1, v, i.rs1);
      OnlyX(i.rs1, v, 0);
    }
    assert i.rs1 == 0 ==> v == 0;
    hide AluVal, Only, Bare, Wrap, Shows, Shown;
    assert X(s, i.rs1) == v && X(s, 0) == 0;
  }

  lemma ShownFits(i: Insn, len: nat, b: HighBits)
    requires PlainInsn(i) && Kept(i) && i.Alu? && Fits(b, Shows(i.op, i.src))
    ensures b in ResultBits(i, len) || Missed(i, len, b)
  {
    FitsBy(b, Shows(i.op, i.src));
    hide Fits;
  }

  /** Of these instructions, what is recorded of the result is all that always holds of it,
      S16 of a byte aside. */
  lemma KnowsExactly(i: Insn, len: nat, b: HighBits)
    requires PlainInsn(i) && Kept(i)
    ensures b in ResultBits(i, len) <==> Held(i, len, b) && !Missed(i, len, b)
  {
    hide XResult, ResultBits, Fits, AluVal;
    if b in ResultBits(i, len) {
      assert !Overclaims(i);
      forall s: State ensures Fits(b, XResult(i, len, s)) { ResultFits(i, len, s); }
    }
    if Missed(i, len, b) {
      MissedHeld(i, len, b);
    } else if Held(i, len, b) {
      HeldRecorded(i, len, b);
    }
  }

  lemma HeldRecorded(i: Insn, len: nat, b: HighBits)
    requires PlainInsn(i) && Kept(i) && Held(i, len, b)
    ensures b in ResultBits(i, len) || Missed(i, len, b)
  {
    hide Fits, Extend, LoadLE, RangeBits;
    match i {
      case Load(k, rd, base, off) =>
        var s := Loads(k, base, off, rd, len);
        hide XResult;
        TopFits(k, b);
      case Lui(_, imm) =>
        ConstFits(imm, b);
        var s := Bare(map[]);
        assert XResult(i, len, s) == Wrap(imm);
      case Alu(_, _, _, _) =>
        var s := AluComes(i, len);
        hide XResult;
        ShownFits(i, len, b);
      case _ =>
    }
  }

  lemma ConstFits(k: int, b: HighBits)
    requires -0x8000_0000 <= k <= 0x7fff_ffff
    ensures b in RangeBits(k, k) <==> Fits(b, Wrap(k))
  {
    FitsBy(b, Wrap(k));
    hide Fits;
  }

  /** Of every other operation on words, that it is sign-extended. */
  lemma WordsRecorded(i: Insn, len: nat)
    requires i.Alu? && i.op in {Addw, Subw, Sllw, Srlw, Sraw, Mulw}
    ensures S32 in ResultBits(i, len)
  {
  }

  // ---- what the table holds ----

  /** An instruction that leaves the table as it is for `r`. */
  predicate LeavesBits(p: Program, c: Word, r: Reg) {
    && c in p.code && Readable(p, c) && !IsTarget(p, c)
    && !p.code[c].insn.Jal? && !p.code[c].insn.Jalr? && r !in Writes(p.code[c].insn)
  }

  /** The bit was recorded of the result at `q`, and nothing since ended that. */
  ghost predicate GivenAt(p: Program, q: Word, a: Word, r: Reg, b: HighBits) {
    && q in p.code && q < a && Readable(p, q) && !p.code[q].insn.Jal? && !p.code[q].insn.Jalr?
    && r != 0 && XDest(p.code[q].insn) == r && b in ResultBits(p.code[q].insn, p.code[q].len)
    && Readable(p, a) && !IsTarget(p, a)
    && forall c: Word :: c in p.code && q < c < a ==> LeavesBits(p, c, r)
  }

  predicate HasBit(t: BitTable, r: Reg, b: HighBits) {
    r in t && b in t[r]
  }

  /** Nothing stands between an instruction and the last before it. */
  lemma {:induction false} NoneBetween(p: Program, a: Word, x: Word)
    requires WellFormed(p) && a in p.code && x <= a && (a - x) % 2 == 0
    ensures match Before(p, x)
            case Some(b) => forall c: Word :: c in p.code && b < c < x ==> false
            case None => forall c: Word :: c in p.code ==> c >= x
  {
    hide WellFormed;
    forall c: Word | c in p.code ensures (a - c) % 2 == 0 { Even(p, a); Even(p, c); }
    if x >= 2 && x - 2 !in p.code {
      NoneBetween(p, a, x - 2);
    }
  }

  lemma Even(p: Program, a: Word)
    requires WellFormed(p) && a in p.code
    ensures (a - p.vaddr) % 2 == 0
  {
    assert WellPlaced(p, a, p.code[a]);
  }

  lemma NotedHas(t: BitTable, i: Insn, len: nat, r: Reg, b: HighBits)
    requires !i.Then? && 0 !in t
    ensures HasBit(Guarantees.Recorded(t, i, len), r, b) <==>
            !i.Jal? && !i.Jalr? &&
            if r in Writes(i) then b in ResultBits(i, len) else HasBit(t, r, b)
    ensures HasBit(Guarantees.Recorded(t, i, len), r, b) || HasBit(t, r, b) ==> r != 0
  {
    hide ResultBits;
  }

  lemma {:induction false} NotZero(p: Program, a: Word)
    ensures 0 !in BitsAt(p, a)
    decreases a
  {
    hide IsTarget, Before, ResultBits, Writes;
    if Before(p, a).Some? {
      BeforeIsBefore(p, a);
      NotZero(p, Before(p, a).value);
    }
  }

  /** A bit is held of a register exactly when it was recorded of what was last written
      there, on a straight line, and no side entry or unconditional transfer is between. */
  lemma {:induction false} BitsExactly(p: Program, a: Word, r: Reg, b: HighBits)
    requires WellFormed(p) && a in p.code
    ensures HasBit(BitsAt(p, a), r, b) <==> exists q: Word :: GivenAt(p, q, a, r, b)
    decreases a
  {
    hide WellFormed, IsTarget, ResultBits, Writes, Before, Guarantees.Recorded, HasBit, GivenAt;
    NoneBetween(p, a, a);
    EmptyHas(r, b);
    forall q: Word | GivenAt(p, q, a, r, b) ensures q in p.code && q < a && Readable(p, a) && !IsTarget(p, a) {
      GivenHas(p, q, a, r, b);
    }
    if !IsTarget(p, a) && Readable(p, a) && Before(p, a).Some? {
      BeforeIsBefore(p, a);
      var c := Before(p, a).value;
      BitsExactly(p, c, r, b);
      NotZero(p, c);
      Placed(p, c);
      NotedHas(BitsAt(p, c), p.code[c].insn, p.code[c].len, r, b);
      forall q: Word ensures GivenAt(p, q, a, r, b) <==> GivenFrom(p, q, c, r, b) { GivenOn(p, q, c, a, r, b); }
      FromSome(p, c, r, b);
    }
  }

  lemma GivenHas(p: Program, q: Word, a: Word, r: Reg, b: HighBits)
    requires GivenAt(p, q, a, r, b)
    ensures q in p.code && q < a && Readable(p, a) && !IsTarget(p, a) && r != 0
  {
    hide IsTarget, ResultBits;
  }

  lemma FromSome(p: Program, c: Word, r: Reg, b: HighBits)
    requires c in p.code
    ensures (exists q: Word :: GivenFrom(p, q, c, r, b)) <==>
            (var i := p.code[c].insn;
             && Readable(p, c) && !i.Jal? && !i.Jalr? && r != 0
             && if r in Writes(i) then b in ResultBits(i, p.code[c].len)
                else exists q: Word :: GivenAt(p, q, c, r, b))
  {
    hide ResultBits, GivenAt, Writes;
    var i := p.code[c].insn;
    if Readable(p, c) && !i.Jal? && !i.Jalr? && r != 0 {
      if r in Writes(i) {
        if b in ResultBits(i, p.code[c].len) { assert GivenFrom(p, c, c, r, b); }
      } else {
        if q: Word :| GivenAt(p, q, c, r, b) { assert GivenFrom(p, q, c, r, b); }
      }
    }
  }

  lemma EmptyHas(r: Reg, b: HighBits)
    ensures !HasBit(map[], r, b)
  {
  }

  ghost predicate GivenFrom(p: Program, q: Word, c: Word, r: Reg, b: HighBits)
    requires c in p.code
  {
    var i := p.code[c].insn;
    && Readable(p, c) && !i.Jal? && !i.Jalr? && r != 0
    && if r in Writes(i) then q == c && b in ResultBits(i, p.code[c].len) else GivenAt(p, q, c, r, b)
  }

  lemma GivenOn(p: Program, q: Word, c: Word, a: Word, r: Reg, b: HighBits)
    requires c in p.code && c < a && Readable(p, a) && !IsTarget(p, a) && !p.code[c].insn.Then?
    requires forall d: Word :: d in p.code && c < d < a ==> false
    ensures GivenAt(p, q, a, r, b) <==> GivenFrom(p, q, c, r, b)
  {
    hide IsTarget, ResultBits;
    assert forall d: Word :: d in p.code && d < a <==> d in p.code && d <= c;
  }

  // ---- the extensions found ----

  /** Nothing but the extension of `r`. */
  predicate Extends(i: Insn, r: Reg, b: HighBits) {
    i.Alu? && i.rs1 == r && r != 0 &&
    match b
    case S8 => i.op == SextB
    case S16 => i.op == SextH
    case S32 => i.op == Addw && i.src == K(0)
    case Z8 => i.op == And && i.src == K(255)
    case Z16 => i.op == ZextH
    case Z32 => i.op == ZextW || (i.op == ShaddUw(0) && i.src == R(0))
  }

  /** An extension is found exactly where the bit it would give was recorded of what was last
      written to its source. */
  lemma RedundantExactly(p: Program, a: Word)
    requires WellFormed(p) && a in p.code
    ensures IsRedundant(BitsAt(p, a), p.code[a].insn) <==>
            exists r: Reg, b, q: Word :: Extends(p.code[a].insn, r, b) && GivenAt(p, q, a, r, b)
  {
    hide WellFormed, GivenAt, BitsAt, Extends;
    var i := p.code[a].insn;
    if IsRedundant(BitsAt(p, a), i) {
      var r, b := i.rs1, Extension(i).value;
      ExtendsIs(i, r, b);
      BitsExactly(p, a, r, b);
      assert HasBit(BitsAt(p, a), r, b);
    }
    if r: Reg, b, q: Word :| Extends(i, r, b) && GivenAt(p, q, a, r, b) {
      ExtendsIs(i, r, b);
      BitsExactly(p, a, r, b);
      assert HasBit(BitsAt(p, a), r, b);
    }
  }

  lemma ExtendsIs(i: Insn, r: Reg, b: HighBits)
    ensures Extends(i, r, b) <==> Extension(i) == Some(b) && i.rs1 == r && r != 0
  {
  }
}
