/** Constants built in one register: what a chain of lui, addi, addiw, slli, ori
    and xori leaves there, and the plain recurrence that builds any value. */
module Li {
  import opened Words
  import opened Wrappers
  import opened Machine
  import opened MemoryFacts
  import opened Window
  import opened ImmediateForms
  import opened Sweep

  /** The instruction extends a constant being built in `r`, in place. */
  predicate IsStep(i: Insn, r: Reg) {
    && i.Alu? && r != 0 && i.rd == r && i.rs1 == r && i.src.K?
    && (i.op in {Add, Addw, Xor, Or} || (i.op == Sll && 0 <= i.src.k < 64))
  }

  predicate IsStart(i: Insn, r: Reg) {
    DecodeConst(i).Some? && DecodeConst(i).value.0 == r
  }

  function StepValue(i: Insn, cur: Word): Word {
    if DecodeConst(i).Some? then Wrap(DecodeConst(i).value.1)
    else if i.Alu? && i.src.K? then AluVal(i.op, cur, Wrap(i.src.k))
    else cur
  }

  /** A chain: a start, then steps. */
  predicate IsChain(c: seq<Insn>, r: Reg) {
    && c != [] && IsStart(c[0], r)
    && forall k :: 1 <= k < |c| ==> IsStep(c[k], r)
  }

  /** The constant the chain leaves. */
  function Eval(c: seq<Insn>): Word {
    if c == [] then 0 else StepValue(c[|c| - 1], Eval(c[..|c| - 1]))
  }

  /** A straight line of instructions, each of `len` bytes. */
  ghost function EffectSeq(c: seq<Insn>, len: nat, s: State): State {
    if c == [] then s else Effect(c[|c| - 1], len, EffectSeq(c[..|c| - 1], len, s))
  }

  lemma StepEffect(i: Insn, r: Reg, len: nat, s: State)
    requires r != 0 && (IsStep(i, r) || IsStart(i, r))
    ensures Effect(i, len, s) == SetX(s, r, StepValue(i, X(s, r)))
  {
    if IsStart(i, r) {
      hide Sext, BitWord, Pow2;
      assert XResult(i, len, s) == StepValue(i, X(s, r));
    } else {
      hide AluVal, Wrap;
      assert DecodeConst(i) == None;
      assert XResult(i, len, s) == StepValue(i, X(s, r));
    }
    assert XDest(i) == r && FDest(i) == 32 && MemResult(i, s) == s.mem;
  }

  /** Run on the machine, a chain sets its register to its value and nothing else. */
  lemma {:induction false} ChainEffect(c: seq<Insn>, r: Reg, len: nat, s: State)
    requires IsChain(c, r)
    ensures EffectSeq(c, len, s) == SetX(s, r, Eval(c)) && r != 0
  {
    hide Effect, StepValue;
    var n := |c| - 1;
    assert IsStart(c[0], r) && r != 0;
    if n == 0 {
      assert c[..0] == [] && EffectSeq(c[..0], len, s) == s;
      StepEffect(c[0], r, len, s);
      StartIgnores(c[0], r, X(s, r), Eval([]));
    } else {
      ChainEffect(c[..n], r, len, s);
      StepEffect(c[n], r, len, EffectSeq(c[..n], len, s));
    }
  }

  lemma StartIgnores(i: Insn, r: Reg, x: Word, y: Word)
    requires IsStart(i, r)
    ensures StepValue(i, x) == StepValue(i, y)
  {
  }

  // ---- the recurrence ----

  /** The low twelve bits, sign-extended. */
  function Lo12(v: int): (lo: int)
    ensures -2048 <= lo <= 2047 && (v - lo) % 4096 == 0
  {
    (v + 2048) % 4096 - 2048
  }

  predicate Fits32(v: int) {
    -0x8000_0000 <= v <= 0x7fff_ffff
  }

  predicate Fits64(v: int) {
    -0x8000_0000_0000_0000 <= v <= 0x7fff_ffff_ffff_ffff
  }

  /** The signed 20-bit field of the lui. */
  function Hi20(v: int): (hi: int)
    ensures -0x8_0000 <= hi <= 0x7_ffff
  {
    ((v - Lo12(v)) / 4096 + 0x8_0000) % 0x10_0000 - 0x8_0000
  }

  /** What is left above the low twelve bits, in 64-bit arithmetic. */
  function Upper(v: int): int {
    Signed(Wrap(v - Lo12(v))) / 4096
  }

  function Strip(h: int): (o: int)
    requires h != 0
    ensures o != 0 && o % 2 == 1
    ensures h > 0 ==> 0 < o <= h
    ensures h < 0 ==> h <= o < 0
    decreases if h < 0 then -h else h
  {
    if h % 2 == 0 then Strip(h / 2) else h
  }

  function Zeros(h: int): nat
    requires h != 0
    decreases if h < 0 then -h else h
  {
    if h % 2 == 0 then 1 + Zeros(h / 2) else 0
  }

  lemma UpperBound(v: int)
    requires Fits64(v)
    ensures -0x8_0000_0000_0000 <= Upper(v) <= 0x8_0000_0000_0000
    ensures -0x8_0000_0000_0000 <= v <= 0x8_0000_0000_0000 ==> -0x80_0000_0000 <= Upper(v) <= 0x80_0000_0000
    ensures -0x80_0000_0000 <= v <= 0x80_0000_0000 ==> -0x800_0000 <= Upper(v) <= 0x800_0000
    ensures !Fits32(v) ==> Upper(v) != 0
    ensures v >= 0 && !Fits32(v) ==> -v < Upper(v) < v
    ensures v < 0 && !Fits32(v) ==> v < Upper(v) < -v
  {
    var d := v - Lo12(v);
    assert -W64 <= d < 2 * W64;
    WrapNear(d);
    hide Wrap;
  }

  /** The sequence the recurrence counts. */
  function Plan(v: int, rd: Reg): (c: seq<Insn>)
    requires Fits64(v)
    ensures c != []
    decreases if v < 0 then -v else v
  {
    var lo := Lo12(v);
    if Fits32(v) then
      Base(lo, Hi20(v), rd)
    else
      UpperBound(v);
      var c := Plan(Strip(Upper(v)), rd) + [Alu(Sll, rd, rd, K(12 + Zeros(Upper(v))))];
      if lo == 0 then c else c + [Alu(Add, rd, rd, K(lo))]
  }

  // ---- achievable ----

  lemma {:induction false} StripZeros(h: int)
    requires h != 0
    ensures Strip(h) * Pow2(Zeros(h)) == h
    ensures Pow2(Zeros(h)) <= (if h < 0 then -h else h)
    decreases if h < 0 then -h else h
  {
    if h % 2 == 0 {
      StripZeros(h / 2);
      assert h == 2 * (h / 2);
      Double(Strip(h / 2), Pow2(Zeros(h / 2)));
    }
  }

  lemma Double(a: int, b: int)
    ensures a * (2 * b) == 2 * (a * b)
  {
  }

  lemma ZerosBound(h: int)
    requires h != 0 && -0x8_0000_0000_0000 <= h <= 0x8_0000_0000_0000
    ensures Zeros(h) <= 51
  {
    hide Zeros, Strip;
    StripZeros(h);
    if Zeros(h) >= 52 {
      Pow2Large(Zeros(h));
    }
  }

  lemma Pow2Large(n: nat)
    requires n >= 52
    ensures Pow2(n) > 0x8_0000_0000_0000
  {
    Pow2Word();
    Pow2Add(32, 16);
    Pow2Add(48, 4);
    Pow2Add(52, n - 52);
    assert Pow2(4) == 16;
    hide Pow2;
    MulAtLeast(Pow2(52), Pow2(n - 52));
  }

  lemma WrapTimes(a: int, b: int)
    ensures Wrap(Wrap(a) * b) == Wrap(a * b)
  {
    var q := a / W64;
    assert Wrap(a) == a - W64 * q;
    MulAssoc(b, W64, -q, a);
    assert (a + W64 * -q) * b == a * b + W64 * (b * -q) by {
      assert (W64 * b) * -q == W64 * (b * -q);
    }
    WrapShift(a * b, b * -q);
  }

  /** The one or two instructions for a 32-bit value. */
  function Base(lo: int, hi: int, rd: Reg): (c: seq<Insn>)
    ensures c != []
  {
    if hi == 0 then [Alu(Add, rd, 0, K(lo))]
    else if lo == 0 then [Lui(rd, hi * 4096)]
    else [Lui(rd, hi * 4096), Alu(Addw, rd, rd, K(lo))]
  }

  lemma BaseIsChain(lo: int, hi: int, rd: Reg)
    requires rd != 0
    ensures IsChain(Base(lo, hi, rd), rd)
    ensures Eval(Base(lo, hi, rd)) ==
            if hi == 0 then Wrap(lo) else if lo == 0 then Wrap(hi * 4096) else Sext(hi * 4096 + lo, W32)
  {
    hide AluVal, Sext;
    One(Alu(Add, rd, 0, K(lo)));
    One(Lui(rd, hi * 4096));
    Two(Lui(rd, hi * 4096), Alu(Addw, rd, rd, K(lo)));
    AddwValue(Wrap(hi * 4096), Wrap(lo));
    SextAdds(Wrap(hi * 4096), lo);
    SextAdds(lo, hi * 4096);
  }

  lemma PlanIsBase(v: int, rd: Reg)
    requires Fits32(v)
    ensures Plan(v, rd) == Base(Lo12(v), Hi20(v), rd)
  {
    hide Lo12, Hi20, Upper, Base, Strip, Zeros;
  }

  /** lui and addiw, or one of them, reach every 32-bit value. */
  lemma BaseRight(v: int, rd: Reg)
    requires Fits32(v) && rd != 0
    ensures IsChain(Plan(v, rd), rd) && Eval(Plan(v, rd)) == Wrap(v)
  {
    HiLo(v);
    PlanIsBase(v, rd);
    hide Lo12, Hi20, IsChain, Eval, Base, Sext, Wrap, Plan;
    BaseIsChain(Lo12(v), Hi20(v), rd);
    SextOf32(v, Hi20(v) * 4096 + Lo12(v));
  }

  lemma One(i: Insn)
    ensures Eval([i]) == StepValue(i, 0)
  {
    hide StepValue;
    assert [i][..0] == [];
  }

  lemma Two(i: Insn, j: Insn)
    ensures Eval([i, j]) == StepValue(j, StepValue(i, 0))
  {
    hide StepValue;
    One(i);
    assert [i, j][..1] == [i];
  }

  lemma AddwValue(x: Word, y: Word)
    ensures AluVal(Addw, x, y) == Sext(x + y, W32)
  {
  }

  lemma HiLo(v: int)
    requires Fits32(v)
    ensures Hi20(v) == 0 ==> v == Lo12(v)
    ensures Lo12(v) == 0 ==> v == Hi20(v) * 4096
    ensures (Hi20(v) * 4096 + Lo12(v)) % W32 == v % W32
  {
    var m := (v - Lo12(v)) / 4096;
    assert v == 4096 * m + Lo12(v) && -0x8_0000 <= m <= 0x8_0000;
    assert Hi20(v) == m || (m == 0x8_0000 && Hi20(v) == -0x8_0000);
  }

  lemma SextOf32(v: int, u: int)
    requires Fits32(v) && u % W32 == v % W32
    ensures Sext(u, W32) == Wrap(v)
  {
  }

  lemma {:induction false} PlanAchieves(v: int, rd: Reg)
    requires Fits64(v) && rd != 0
    ensures IsChain(Plan(v, rd), rd) && Eval(Plan(v, rd)) == Wrap(v)
    decreases if v < 0 then -v else v
  {
    if Fits32(v) {
      BaseRight(v, rd);
    } else {
      UpperBound(v);
      var lo, h := Lo12(v), Upper(v);
      PlanAchieves(Strip(h), rd);
      ZerosBound(h);
      ShiftedUp(v);
      var p, sh := Plan(Strip(h), rd), Alu(Sll, rd, rd, K(12 + Zeros(h)));
      hide Strip, Zeros, Upper, Wrap, AluVal, Pow2;
      AppendStep(p, rd, sh);
      SllValue(Wrap(Strip(h)), 12 + Zeros(h));
      if lo != 0 {
        var ad := Alu(Add, rd, rd, K(lo));
        AppendStep(p + [sh], rd, ad);
        AddValue(v - lo, lo);
      }
    }
  }

  lemma AppendStep(c: seq<Insn>, r: Reg, i: Insn)
    requires IsChain(c, r) && IsStep(i, r)
    ensures IsChain(c + [i], r) && Eval(c + [i]) == AluVal(i.op, Eval(c), Wrap(i.src.k))
  {
    hide AluVal, Wrap;
    assert (c + [i])[..|c|] == c;
    assert (c + [i])[|c|] == i && DecodeConst(i) == None;
  }

  lemma SllValue(x: Word, n: nat)
    requires n < 64
    ensures AluVal(Sll, x, Wrap(n)) == Wrap(x * Pow2(n))
  {
    hide Pow2, Sext, BitWord;
    assert Wrap(n) == n && Ushift(n) == n;
    hide Wrap, Ushift;
    assert AluVal(Sll, x, n) == Wrap(x * Pow2(Ushift(n)));
  }

  lemma AddValue(x: int, lo: int)
    ensures AluVal(Add, Wrap(x), Wrap(lo)) == Wrap(x + lo)
  {
    hide Wrap;
    assert AluVal(Add, Wrap(x), Wrap(lo)) == Wrap(Wrap(x) + Wrap(lo));
    WrapAdds(Wrap(x), lo);
    WrapAdds(lo, x);
  }

  lemma ShiftedUp(v: int)
    requires Fits64(v) && !Fits32(v) && Upper(v) != 0
    ensures Wrap(Wrap(Strip(Upper(v))) * Pow2(12 + Zeros(Upper(v)))) == Wrap(v - Lo12(v))
  {
    var h := Upper(v);
    var o, z := Strip(h), Zeros(h);
    StripZeros(h);
    UpperTimes(v);
    hide Strip, Zeros, Upper, Wrap;
    Pow2Add(12, z);
    assert Pow2(12) == 4096;
    WrapTimes(o, Pow2(12 + z));
    hide Pow2;
    Rearrange(o, Pow2(z));
  }

  lemma Rearrange(o: int, p: int)
    ensures o * (4096 * p) == 4096 * (o * p)
  {
  }

  lemma UpperTimes(v: int)
    requires Fits64(v)
    ensures Wrap(4096 * Upper(v)) == Wrap(v - Lo12(v))
  {
    var d := v - Lo12(v);
    WrapNear(d);
    hide Wrap;
    var t := Signed(Wrap(d));
    assert t % 4096 == 0 && 4096 * (t / 4096) == t;
    WrapShift(t, 1);
    WrapShift(t, -1);
    WrapShift(t, 0);
  }

  // ---- bounded ----

  /** Each level of the recursion takes twelve bits, so three reach 32. */
  lemma {:induction false} PlanLevels(v: int, rd: Reg, level: nat)
    requires Fits64(v) && level <= 3
    requires level == 0 ==> Fits32(v)
    requires level == 1 ==> -0x80_0000_0000 <= v <= 0x80_0000_0000
    requires level == 2 ==> -0x8_0000_0000_0000 <= v <= 0x8_0000_0000_0000
    ensures |Plan(v, rd)| <= 2 + 2 * level
    decreases level
  {
    if !Fits32(v) {
      UpperBound(v);
      var o := Strip(Upper(v));
      hide Strip, Upper, Lo12, Hi20, Zeros;
      PlanLevels(o, rd, level - 1);
    }
  }

  /** Every 64-bit constant takes at most eight instructions, and no shift among
      them moves by more than 63. */
  lemma PlanBounded(v: int, rd: Reg)
    requires Fits64(v) && rd != 0
    ensures 1 <= |Plan(v, rd)| <= 8
    ensures forall k :: 0 <= k < |Plan(v, rd)| && Plan(v, rd)[k].Alu? && Plan(v, rd)[k].op == Sll ==>
              Plan(v, rd)[k].src.K? && 0 <= Plan(v, rd)[k].src.k <= 63
  {
    hide Plan, IsStart;
    PlanLevels(v, rd, 3);
    PlanAchieves(v, rd);
    var c := Plan(v, rd);
    StartIsNoShift(c[0], rd);
  }

  lemma StartIsNoShift(i: Insn, r: Reg)
    requires IsStart(i, r)
    ensures i.Alu? ==> i.op == Add
  {
  }

  // ---- the count and the price ----

  predicate Fits6(k: int) {
    -32 <= k <= 31
  }

  /** Encoded bytes of one instruction of the plan, in the class of the chain it
      would replace. */
  function StepBytes(i: Insn, compressed: bool): nat {
    match i
    case Lui(rd, imm) => if compressed && rd != 2 && Fits6(imm / 4096) then 2 else 4
    case Alu(Sll, _, _, _) => if compressed then 2 else 4
    case Alu(_, _, _, K(k)) => if compressed && Fits6(k) then 2 else 4
    case _ => 4
  }

  function Bytes(c: seq<Insn>, compressed: bool): nat {
    if c == [] then 0 else Bytes(c[..|c| - 1], compressed) + StepBytes(c[|c| - 1], compressed)
  }

  lemma BytesPush(c: seq<Insn>, i: Insn, compressed: bool)
    ensures Bytes(c + [i], compressed) == Bytes(c, compressed) + StepBytes(i, compressed)
  {
    assert (c + [i])[..|c|] == c;
  }

  lemma BytesShort(i: Insn, j: Insn, compressed: bool)
    ensures Bytes([i], compressed) == StepBytes(i, compressed)
    ensures Bytes([i, j], compressed) == StepBytes(i, compressed) + StepBytes(j, compressed)
  {
    BytesPush([], i, compressed);
    BytesPush([i], j, compressed);
    assert [] + [i] == [i] && [i] + [j] == [i, j];
  }

  lemma BaseBytes(lo: int, hi: int, rd: Reg, compressed: bool)
    ensures |Base(lo, hi, rd)| == (if hi != 0 then 1 else 0) + (if lo != 0 || hi == 0 then 1 else 0)
    ensures Bytes(Base(lo, hi, rd), compressed) ==
            (if hi == 0 then 0 else if compressed && rd != 2 && Fits6(hi) then 2 else 4) +
            (if lo == 0 && hi != 0 then 0 else if compressed && Fits6(lo) then 2 else 4)
  {
    hide Bytes;
    BytesShort(Lui(rd, hi * 4096), Alu(Addw, rd, rd, K(lo)), compressed);
    BytesShort(Alu(Add, rd, 0, K(lo)), Nop, compressed);
  }

  lemma TailBytes(rd: Reg, lo: int, sh: int, compressed: bool)
    ensures StepBytes(Alu(Sll, rd, rd, K(sh)), compressed) == if compressed then 2 else 4
    ensures StepBytes(Alu(Add, rd, rd, K(lo)), compressed) == if compressed && Fits6(lo) then 2 else 4
  {
  }

  /** Counts what the plan takes and prices it, adding to `insns` and `bytes`. */
  method LiPlan(v: int, rd: Reg, compressed: bool, insns0: nat, bytes0: nat) returns (insns: nat, bytes: nat)
    requires Fits64(v)
    ensures insns == insns0 + |Plan(v, rd)|
    ensures bytes == bytes0 + Bytes(Plan(v, rd), compressed)
    decreases if v < 0 then -v else v
  {
    hide Bytes, Base, StepBytes, Lo12;
    insns, bytes := insns0, bytes0;
    var lo := Lo12(v);
    var fits6 := -32 <= lo <= 31;
    if Fits32(v) {
      var hi20 := Hi20(v);
      BaseBytes(lo, hi20, rd, compressed);
      if hi20 != 0 {
        insns := insns + 1;
        bytes := bytes + if compressed && rd != 2 && -32 <= hi20 <= 31 then 2 else 4;
      }
      if lo != 0 || hi20 == 0 {
        insns := insns + 1;
        bytes := bytes + if compressed && fits6 then 2 else 4;
      }
      return;
    }
    UpperBound(v);
    hide Upper;
    var hi := DropZeros(Upper(v));
    insns, bytes := LiPlan(hi, rd, compressed, insns, bytes);
    hide Strip, Zeros;
    TailBytes(rd, lo, 12 + Zeros(Upper(v)), compressed);
    PlanTail(v, rd, compressed);
    insns := insns + 1;
    bytes := bytes + if compressed then 2 else 4;
    if lo != 0 {
      insns := insns + 1;
      bytes := bytes + if compressed && fits6 then 2 else 4;
    }
  }

  lemma PlanTail(v: int, rd: Reg, compressed: bool)
    requires Fits64(v) && !Fits32(v) && Upper(v) != 0 && Fits64(Strip(Upper(v)))
    ensures var h, lo := Upper(v), Lo12(v);
            var c, sh, ad := Plan(Strip(h), rd), Alu(Sll, rd, rd, K(12 + Zeros(h))), Alu(Add, rd, rd, K(lo));
            && |Plan(v, rd)| == |c| + (if lo == 0 then 1 else 2)
            && Bytes(Plan(v, rd), compressed) ==
               Bytes(c, compressed) + StepBytes(sh, compressed) + if lo == 0 then 0 else StepBytes(ad, compressed)
  {
    hide Bytes, StepBytes, Strip, Zeros, Upper;
    var h := Upper(v);
    var c, sh := Plan(Strip(h), rd), Alu(Sll, rd, rd, K(12 + Zeros(h)));
    BytesPush(c, sh, compressed);
    BytesPush(c + [sh], Alu(Add, rd, rd, K(Lo12(v))), compressed);
  }

  /** Shifts the trailing zeros out. */
  method DropZeros(h: int) returns (hi: int)
    requires h != 0
    ensures hi == Strip(h)
  {
    hi := h;
    while hi % 2 == 0
      invariant hi != 0 && Strip(hi) == Strip(h)
      decreases if hi < 0 then -hi else hi
    {
      hi := hi / 2;
    }
  }

  // ---- a chain longer than it need be ----

  /** The instructions of `p` from `a` up to `b`, address order. */
  ghost predicate Stretch(p: Program, a: Word, c: seq<Insn>, b: int)
    decreases |c|
  {
    if c == [] then b == a
    else
      exists m: Word :: Stretch(p, a, c[..|c| - 1], m) && m in p.code && p.code[m].insn == c[|c| - 1]
        && b == m + p.code[m].len
  }

  datatype LongChain = LongChain(len: nat, need: nat, value: Word)

  /** A chain followed so far: its next address, length, bytes and value, and
      whether all of it is compressed. */
  datatype Reading = Reading(at: Word, len: nat, bytes: nat, val: Word, compressed: bool)

  predicate ReadsOn(p: Program, rd: Reg, r: Reading) {
    r.at in p.code && Readable(p, r.at) && IsStep(p.code[r.at].insn, rd) && !IsTarget(p, r.at)
  }

  function ReadOne(p: Program, r: Reading): Reading
    requires r.at in p.code
  {
    var d := p.code[r.at];
    Reading(Wrap(r.at + d.len), r.len + 1, r.bytes + d.len, StepValue(d.insn, r.val), r.compressed && d.len != 4)
  }

  lemma ReadLater(p: Program, r: Reading)
    requires WellFormed(p) && r.at in p.code
    ensures r.at < ReadOne(p, r).at == r.at + p.code[r.at].len
  {
    hide WellFormed, StepValue;
    Placed(p, r.at);
    assert Wrap(r.at + p.code[r.at].len) == r.at + p.code[r.at].len;
  }

  /** The chain followed to its last step. */
  function ReadAll(p: Program, rd: Reg, r: Reading): Reading
    requires WellFormed(p)
    decreases W64 - r.at
  {
    if !ReadsOn(p, rd, r) then r
    else
      ReadLater(p, r);
      ReadAll(p, rd, ReadOne(p, r))
  }

  function ReadFirst(p: Program, a: Word, k: int): Reading
    requires a in p.code
  {
    Reading(Wrap(a + p.code[a].len), 1, p.code[a].len, Wrap(k), p.code[a].len == 2)
  }

  function LongLi(p: Program, a: Word): Option<LongChain>
    requires WellFormed(p) && a in p.code
  {
    var c := DecodeConst(p.code[a].insn);
    if !Readable(p, a) || c == None then None
    else
      var (rd, k) := c.value;
      var r := ReadAll(p, rd, ReadFirst(p, a, k));
      var plan := Plan(Signed(r.val), rd);
      if r.len < 2 || |plan| >= r.len || Bytes(plan, r.compressed) > r.bytes then None
      else Some(LongChain(r.len, |plan|, r.val))
  }

  /** `c` is the stretch from `a` to where the reading stands, with no side entry. */
  ghost predicate ReadRight(p: Program, a: Word, rd: Reg, r: Reading, c: seq<Insn>) {
    && a < r.at && Stretch(p, a, c, r.at) && IsChain(c, rd) && Eval(c) == r.val && |c| == r.len
    && forall m: Word :: a < m && InStretch(p, a, c, m) ==> !IsTarget(p, m)
  }

  lemma {:induction false} ReadSound(p: Program, a: Word, rd: Reg, r: Reading, c: seq<Insn>) returns (c': seq<Insn>)
    requires WellFormed(p) && ReadRight(p, a, rd, r, c)
    ensures ReadRight(p, a, rd, ReadAll(p, rd, r), c')
    decreases W64 - r.at
  {
    hide WellFormed, IsTarget, AluVal, Stretch, InStretch, Readable;
    c' := c;
    if ReadsOn(p, rd, r) {
      ReadLater(p, r);
      AppendStep(c, rd, p.code[r.at].insn);
      StretchPush(p, a, c, r.at);
      c' := ReadSound(p, a, rd, ReadOne(p, r), c + [p.code[r.at].insn]);
    }
  }

  /** A chain from `a` that builds the value the recurrence builds in fewer
      instructions, with no side entry inside. */
  ghost predicate TooLong(p: Program, a: Word, f: LongChain, rd: Reg, c: seq<Insn>) {
    && (exists b: int :: Stretch(p, a, c, b)) && IsChain(c, rd) && |c| == f.len
    && Eval(c) == f.value == Eval(Plan(Signed(f.value), rd)) && |Plan(Signed(f.value), rd)| == f.need < f.len
    && forall k: Word :: a < k && InStretch(p, a, c, k) ==> !IsTarget(p, k)
  }

  lemma LongLiIsRight(p: Program, a: Word) returns (rd: Reg, c: seq<Insn>)
    requires WellFormed(p) && a in p.code && LongLi(p, a).Some?
    ensures TooLong(p, a, LongLi(p, a).value, rd, c)
  {
    hide WellFormed, IsTarget, AluVal, Stretch, InStretch, Plan, Bytes, ReadAll;
    var k := DecodeConst(p.code[a].insn).value.1;
    rd := DecodeConst(p.code[a].insn).value.0;
    Placed(p, a);
    assert Wrap(a + p.code[a].len) == a + p.code[a].len;
    StretchOne(p, a);
    One(p.code[a].insn);
    c := ReadSound(p, a, rd, ReadFirst(p, a, k), [p.code[a].insn]);
    var v := ReadAll(p, rd, ReadFirst(p, a, k)).val;
    PlanAchieves(Signed(v), rd);
    SignedWrap(v);
  }

  /** The longest chain that begins at `a`, where the recurrence needs fewer
      instructions for the same constant in no more bytes. */
  method CheckLongLi(p: Program, a: Word) returns (found: Option<LongChain>)
    requires WellFormed(p) && a in p.code
    ensures found == LongLi(p, a)
    ensures found.Some? ==> exists rd: Reg, c: seq<Insn> :: TooLong(p, a, found.value, rd, c)
  {
    hide WellFormed, Plan, Bytes, IsTarget, TooLong, ReadOne, ReadFirst;
    if LongLi(p, a).Some? { ghost var rd, c := LongLiIsRight(p, a); }
    if !Readable(p, a) || DecodeConst(p.code[a].insn) == None { return None; }
    var (rd, k) := DecodeConst(p.code[a].insn).value;
    var r := ReadFirst(p, a, k);
    while ReadsOn(p, rd, r)
      invariant ReadAll(p, rd, r) == ReadAll(p, rd, ReadFirst(p, a, k))
      decreases W64 - r.at
    {
      ReadLater(p, r);
      r := ReadOne(p, r);
    }
    if r.len < 2 { return None; }
    assert Fits64(Signed(r.val)) by { SignedWrap(r.val); }
    var need, bytes := LiPlan(Signed(r.val), rd, r.compressed, 0, 0);
    return if need >= r.len || bytes > r.bytes then None else Some(LongChain(r.len, need, r.val));
  }

  lemma SignedWrap(v: Word)
    ensures Wrap(Signed(v)) == v && Fits64(Signed(v))
  {
  }

  /** `k` is where one of the instructions of the stretch begins. */
  ghost predicate InStretch(p: Program, a: Word, c: seq<Insn>, k: Word)
    decreases |c|
  {
    c != [] && (Stretch(p, a, c[..|c| - 1], k) || InStretch(p, a, c[..|c| - 1], k))
  }

  lemma StretchOne(p: Program, a: Word)
    requires a in p.code
    ensures Stretch(p, a, [p.code[a].insn], a + p.code[a].len)
    ensures forall k: Word :: InStretch(p, a, [p.code[a].insn], k) ==> k == a
  {
    var c := [p.code[a].insn];
    assert c[..0] == [];
    assert Stretch(p, a, c[..0], a);
  }

  lemma StretchPush(p: Program, a: Word, c: seq<Insn>, at: Word)
    requires Stretch(p, a, c, at) && at in p.code
    ensures Stretch(p, a, c + [p.code[at].insn], at + p.code[at].len)
    ensures forall k: Word :: InStretch(p, a, c + [p.code[at].insn], k) ==> k == at || InStretch(p, a, c, k)
  {
    var d := c + [p.code[at].insn];
    assert d[..|c|] == c && d[|c|] == p.code[at].insn;
    StretchUnique(p, a, c, at);
  }

  lemma {:induction false} StretchUnique(p: Program, a: Word, c: seq<Insn>, b: int)
    requires Stretch(p, a, c, b)
    ensures forall b' :: Stretch(p, a, c, b') ==> b' == b
    decreases |c|
  {
    if c != [] {
      var m: Word :| Stretch(p, a, c[..|c| - 1], m) && m in p.code && p.code[m].insn == c[|c| - 1]
          && b == m + p.code[m].len;
      StretchUnique(p, a, c[..|c| - 1], m);
    }
  }
}
