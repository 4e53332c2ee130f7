/** A register operation on a known constant, spelled with an immediate. */
module ImmediateForms {
  import opened Words
  import opened Wrappers
  import opened Machine

  /** How many of the lowest bits of `m` are ones, up to the first zero. */
  function LowOnes(m: nat): (n: nat)
    ensures Pow2(n) <= m + 1
  {
    if m % 2 == 0 then 0 else 1 + LowOnes(m / 2)
  }

  /** A mask of low bits: `m & (m + 1)` is zero. */
  predicate IsMask(m: Word) {
    BitWord(BAnd, m, Wrap(m + 1)) == 0
  }

  lemma {:induction false} AndSame(n: nat, a: nat)
    requires a < Pow2(n)
    ensures Bits(n, BAnd, a, a) == a
  {
    if n > 0 {
      AndSame(n - 1, a / 2);
    }
  }

  lemma {:induction false} MaskBits(n: nat, m: nat)
    requires m + 1 < Pow2(n)
    ensures Bits(n, BAnd, m, m + 1) == 0 <==> m + 1 == Pow2(LowOnes(m))
  {
    if n == 0 {
    } else if m % 2 == 0 {
      assert (m + 1) / 2 == m / 2 && (m + 1) % 2 == 1;
      AndSame(n - 1, m / 2);
    } else {
      assert (m + 1) / 2 == m / 2 + 1 && (m + 1) % 2 == 0;
      if n == 1 {
      } else {
        MaskBits(n - 1, m / 2);
      }
    }
  }

  /** The test the check makes finds exactly the masks. */
  lemma MaskIff(m: Word)
    requires m != W64 - 1
    ensures IsMask(m) <==> m + 1 == Pow2(LowOnes(m))
  {
    hide Bits, Pow2, LowOnes;
    Pow2Word();
    MaskBits(64, m);
    assert Wrap(m + 1) == m + 1;
  }

  lemma MulAssoc(h: int, p: int, q: int, u: int)
    ensures (p * q + u) * h == (p * h) * q + u * h
  {
    assert (p * q) * h == (p * h) * q;
  }

  lemma LowTimes(u: int, p: int, h: int)
    requires 0 <= u < p && h > 0
    ensures 0 <= u * h < p * h && h * u == u * h
  {
    MulSub(h, p, u);
    MulAtLeast(h, p - u);
  }

  lemma ShiftBack(x: int, p: int, h: int)
    requires p > 0 && h > 0 && p * h == W64
    ensures Wrap(x * h) / h == x % p && Wrap(x * h) >= 0
  {
    var q, u := x / p, x % p;
    MulAssoc(h, p, q, u);
    LowTimes(u, p, h);
    DivModUnique(x * h, W64, q, u * h);
    DivModUnique(u * h, h, u, 0);
  }

  /** Left then right by 64 - n keeps the low n bits. */
  lemma ShiftPair(x: Word, n: nat)
    requires n <= 64
    ensures Wrap(x * Pow2(64 - n)) / Pow2(64 - n) == x % Pow2(n)
  {
    Pow2Word();
    Pow2Add(n, 64 - n);
    hide Pow2;
    ShiftBack(x, Pow2(n), Pow2(64 - n));
  }

  /** `i` with the register `r`, which holds `k`, turned into an immediate. */
  function ImmForm(i: Insn, r: Reg, k: int, zba: bool, zbb: bool): (u: Option<Insn>)
    ensures u.Some? ==> i.Alu?
  {
    if !i.Alu? || i.src.K? || i.rd == 0 || (i.rs1 == r) == (i.src.r == r) then None
    else
      var second := i.src.r == r;
      var rx := if second then i.rs1 else i.src.r;
      var fits, nfits := -2048 <= k <= 2047, -2047 <= k <= 2048;
      match i.op
      case Add => if fits then Some(Alu(Add, i.rd, rx, K(k))) else None
      case Addw => if fits then Some(Alu(Addw, i.rd, rx, K(k))) else None
      case Sub => if second && nfits then Some(Alu(Add, i.rd, rx, K(-k))) else None
      case Subw => if second && nfits then Some(Alu(Addw, i.rd, rx, K(-k))) else None
      case Sll => if second then Some(Alu(Sll, i.rd, rx, K(k % 64))) else None
      case Srl => if second then Some(Alu(Srl, i.rd, rx, K(k % 64))) else None
      case Sra => if second then Some(Alu(Sra, i.rd, rx, K(k % 64))) else None
      case Sllw => if second then Some(Alu(Sllw, i.rd, rx, K(k % 32))) else None
      case Srlw => if second then Some(Alu(Srlw, i.rd, rx, K(k % 32))) else None
      case Sraw => if second then Some(Alu(Sraw, i.rd, rx, K(k % 32))) else None
      case Slt => if second && fits then Some(Alu(Slt, i.rd, rx, K(k))) else None
      case Sltu => if second && fits then Some(Alu(Sltu, i.rd, rx, K(k))) else None
      case Xor => if fits then Some(Alu(Xor, i.rd, rx, K(k))) else None
      case Or => if fits then Some(Alu(Or, i.rd, rx, K(k))) else None
      case And => if fits then Some(Alu(And, i.rd, rx, K(k))) else MaskForm(i.rd, rx, Wrap(k), zba, zbb)
      case _ => None
  }

  /** An `and` with a mask andi cannot hold: zext.h with Zbb, zext.w with Zba, and
      otherwise the shift pair. */
  function MaskForm(rd: Reg, rx: Reg, m: Word, zba: bool, zbb: bool): Option<Insn> {
    if !IsMask(m) then None
    else
      var n := LowOnes(m);
      if n == 16 && zbb then Some(Alu(ZextH, rd, rx, K(0)))
      else if n == 32 && zba then Some(Alu(ZextW, rd, rx, K(0)))
      else Some(Then(Alu(Sll, rd, rx, K(64 - n)), Alu(Srl, rd, rd, K(64 - n))))
  }

  /** The spelling is one of the mask forms. */
  predicate IsMaskForm(i: Insn) {
    i.Then? || (i.Alu? && (i.op == ZextH || i.op == ZextW))
  }

  lemma WrapAdds(x: int, y: int)
    ensures Wrap(x + Wrap(y)) == Wrap(x + y)
    ensures Wrap(x - Wrap(y)) == Wrap(x - y)
  {
    var q := y / W64;
    assert Wrap(y) == y - W64 * q;
    WrapShift(x + y, -q);
    WrapShift(x - y, q);
  }

  lemma WrapShift(v: int, q: int)
    ensures Wrap(v + W64 * q) == Wrap(v)
  {
    DivModUnique(v + W64 * q, W64, v / W64 + q, v % W64);
  }

  lemma SextAdds(x: int, y: int)
    ensures Sext(x + Wrap(y), W32) == Sext(x + y, W32)
    ensures Sext(x - Wrap(y), W32) == Sext(x - y, W32)
  {
    var t := W32 * (y / W64);
    assert Wrap(y) == y - W32 * t;
    Low32(x + y, -t);
    Low32(x - y, t);
    hide Wrap;
  }

  lemma Low32(v: int, t: int)
    ensures (v + W32 * t) % W32 == v % W32
  {
    DivModUnique(v + W32 * t, W32, v / W32 + t, v % W32);
  }

  lemma ImmShift(k: int)
    ensures Ushift(Wrap(k % 64)) == Ushift(Wrap(k))
    ensures Wshift(Wrap(k % 32)) == Wshift(Wrap(k))
  {
    var q := k / W64;
    DivModUnique(Wrap(k), 64, k / 64 - W64 / 64 * q, k % 64);
    DivModUnique(Wrap(k), 32, k / 32 - W64 / 32 * q, k % 32);
  }

  lemma ImmValue(op: AluOp, x: Word, k: int)
    ensures op in {Sll, Srl, Sra} ==> AluVal(op, x, Wrap(k % 64)) == AluVal(op, x, Wrap(k))
    ensures op in {Sllw, Srlw, Sraw} ==> AluVal(op, x, Wrap(k % 32)) == AluVal(op, x, Wrap(k))
    ensures AluVal(Add, x, Wrap(-k)) == AluVal(Sub, x, Wrap(k))
    ensures AluVal(Addw, x, Wrap(-k)) == AluVal(Subw, x, Wrap(k))
  {
    hide Pow2, Ushift, Wshift, Wrap, Sext;
    ImmShift(k);
    WrapAdds(x, k);
    WrapAdds(x, -k);
    SextAdds(x, k);
    SextAdds(x, -k);
    assert x - k == x + (-k);
  }

  lemma Commutes(op: AluOp, x: Word, y: Word)
    requires op in {Add, Addw, Xor, Or, And}
    ensures AluVal(op, x, y) == AluVal(op, y, x)
  {
    hide Pow2, Sext;
    BitsCommute(64, BAnd, x, y);
    BitsCommute(64, BOr, x, y);
    BitsCommute(64, BXor, x, y);
    assert x + y == y + x;
  }

  lemma Pow2AtLeast(n: nat)
    requires n >= 64
    ensures Pow2(n) >= W64
  {
    Pow2Word();
    Pow2Add(64, n - 64);
    MulAtLeast(W64, Pow2(n - 64));
  }

  lemma MaskValue(x: Word, m: Word)
    requires m != W64 - 1 && IsMask(m)
    ensures var n := LowOnes(m); n < 64 && m == Pow2(n) - 1
    ensures AluVal(And, x, m) == x % Pow2(LowOnes(m))
    ensures AluVal(Srl, AluVal(Sll, x, Wrap(64 - LowOnes(m))), Wrap(64 - LowOnes(m))) == x % Pow2(LowOnes(m)) || m == 0
  {
    hide BitWord, LowOnes, IsMask;
    MaskIff(m);
    var n := LowOnes(m);
    if n >= 64 {
      Pow2AtLeast(n);
    }
    AndMask(n, x, m);
    if m != 0 {
      assert n != 0;
      ShiftPair(x, n);
      PairValue(x, n);
    }
  }

  lemma PairValue(x: Word, n: nat)
    requires 0 < n < 64
    ensures AluVal(Srl, AluVal(Sll, x, Wrap(64 - n)), Wrap(64 - n)) == Wrap(x * Pow2(64 - n)) / Pow2(64 - n)
  {
    ShiftAmount(64 - n);
    hide Pow2, Ushift, Wrap;
    var v: Word, h := Wrap(x * Pow2(64 - n)), Pow2(64 - n);
    QuotientBelow(v, h);
    WrapOfWord(v / h);
  }

  lemma ShiftAmount(n: nat)
    requires n < 64
    ensures Ushift(Wrap(n)) == n
  {
  }

  lemma QuotientBelow(v: int, h: int)
    requires v >= 0 && h > 0
    ensures 0 <= v / h <= v
  {
    var q := v / h;
    assert v == h * q + v % h;
    MulNonNeg(q, h - 1);
    MulSub(q, h, 1);
    assert h * q == q * h;
  }

  lemma MulNonNeg(a: int, b: int)
    requires a >= 0 && b >= 0
    ensures a * b >= 0
  {
  }

  lemma PairEffect(rd: Reg, rx: Reg, sh: int, len: nat, s: State)
    requires rd != 0
    ensures Effect(Then(Alu(Sll, rd, rx, K(sh)), Alu(Srl, rd, rd, K(sh))), len, s) ==
            SetX(s, rd, AluVal(Srl, AluVal(Sll, X(s, rx), Wrap(sh)), Wrap(sh)))
  {
    hide AluVal;
    var a := Alu(Sll, rd, rx, K(sh));
    var t := Effect(a, len, s);
    assert t == SetX(s, rd, AluVal(Sll, X(s, rx), Wrap(sh)));
    var b := Alu(Srl, rd, rd, K(sh));
    assert Effect(b, len, t) == SetX(t, rd, AluVal(Srl, X(t, rd), Wrap(sh)));
  }

  lemma MaskRight(i: Insn, r: Reg, k: int, zba: bool, zbb: bool, len: nat, s: State)
    requires i.Alu? && i.op == And && i.src.R? && i.rd != 0 && -0x8000_0000_0000_0000 <= k < 0x8000_0000_0000_0000
    requires !(-2048 <= k <= 2047) && X(s, r) == Wrap(k) && (i.rs1 == r) != (i.src.r == r)
    requires ImmForm(i, r, k, zba, zbb).Some?
    ensures Effect(ImmForm(i, r, k, zba, zbb).value, len, s) == Effect(i, len, s)
  {
    hide AluVal, Pow2, LowOnes, IsMask, Effect;
    var rx := if i.src.r == r then i.rs1 else i.src.r;
    var x, m := X(s, rx), Wrap(k);
    MaskValue(x, m);
    Commutes(And, x, m);
    var n := LowOnes(m);
    assert AluVal(And, X(s, i.rs1), SrcVal(i.src, s)) == x % Pow2(n);
    Pow2Word();
    ZextValues(x);
    AluIs(i, len, s);
    if n == 16 && zbb {
      AluIs(Alu(ZextH, i.rd, rx, K(0)), len, s);
    } else if n == 32 && zba {
      AluIs(Alu(ZextW, i.rd, rx, K(0)), len, s);
    } else {
      PairEffect(i.rd, rx, 64 - n, len, s);
    }
  }

  lemma ZextValues(x: Word)
    ensures AluVal(ZextH, x, 0) == x % 0x1_0000 && AluVal(ZextW, x, 0) == x % W32
  {
  }

  lemma AluIs(i: Insn, len: nat, s: State)
    requires i.Alu?
    ensures Effect(i, len, s) == SetX(s, i.rd, AluVal(i.op, X(s, i.rs1), SrcVal(i.src, s)))
  {
    hide AluVal;
  }

  /** The immediate form does what the register form does while `r` holds `k`. */
  lemma ImmFormRight(i: Insn, r: Reg, k: int, zba: bool, zbb: bool, len: nat, s: State)
    requires ImmForm(i, r, k, zba, zbb).Some? && -0x8000_0000_0000_0000 <= k < 0x8000_0000_0000_0000
    requires X(s, r) == Wrap(k)
    ensures Effect(ImmForm(i, r, k, zba, zbb).value, len, s) == Effect(i, len, s)
  {
    if i.op == And && !(-2048 <= k <= 2047) {
      MaskRight(i, r, k, zba, zbb, len, s);
    } else {
      hide AluVal, MaskForm, Effect;
      var j := ImmForm(i, r, k, zba, zbb).value;
      var x := X(s, if i.src.r == r then i.rs1 else i.src.r);
      AluIs(i, len, s);
      AluIs(j, len, s);
      ImmValue(i.op, x, k);
      if i.op in {Add, Addw, Xor, Or, And} {
        Commutes(i.op, x, Wrap(k));
      }
    }
  }

  /** It no longer reads `r`, writes what it wrote, and stays on the line. */
  lemma ImmFormShape(i: Insn, r: Reg, k: int, zba: bool, zbb: bool)
    requires ImmForm(i, r, k, zba, zbb).Some? && r != 0
    ensures var j := ImmForm(i, r, k, zba, zbb).value;
            r !in Reads(j) && Writes(j) == Writes(i) == {i.rd} && !IsTransfer(j) && !IsTransfer(i)
  {
    hide LowOnes, IsMask;
  }
}
