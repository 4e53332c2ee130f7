/** The bit count spelled out longhand: what each stage of the expansion holds, and
    that the last one is the count, lane by lane. */
module Popcount {
  import opened Words

  /** The set bits among the low `n`. */
  function Ones(n: nat, v: nat): (c: nat)
    ensures c <= n
  {
    if n == 0 then 0 else v % 2 + Ones(n - 1, v / 2)
  }

  datatype Stage = Shr1 | And55 | Stage1 | And33 | Shr2 | And33S | Stage2 | Shr4 | Sum4 | Stage3 | Product

  function M55(wide: bool): Word { if wide then 0x5555_5555_5555_5555 else 0x5555_5555 }

  function M33(wide: bool): Word { if wide then 0x3333_3333_3333_3333 else 0x3333_3333 }

  function M0F(wide: bool): Word { if wide then 0x0f0f_0f0f_0f0f_0f0f else 0x0f0f_0f0f }

  function M01(wide: bool): Word { if wide then 0x0101_0101_0101_0101 else 0x0101_0101 }

  /** How far along the expansion a stage is. */
  function Depth(st: Stage): nat {
    match st
    case Shr1 => 0
    case And55 => 1
    case Stage1 => 2
    case And33 => 3
    case Shr2 => 3
    case And33S => 4
    case Stage2 => 5
    case Shr4 => 6
    case Sum4 => 7
    case Stage3 => 8
    case Product => 9
  }

  /** From the first subtraction on. */
  predicate Late(st: Stage) {
    Depth(st) >= 2
  }

  /** What a stage is computed from: before the subtraction the value the opening shift
      read, after it what the subtractions left. A sequence makes one subtraction and
      uses its result four times; the matcher does not ask that it be the same one. */
  datatype Source = One(v: Word) | Subs(s: seq<Word>)

  function Uses(st: Stage): nat {
    if !Late(st) then 0
    else match st
      case Stage2 | Shr4 => 2
      case Sum4 | Stage3 | Product => 4
      case _ => 1
  }

  predicate Fed(st: Stage, from: Source) {
    if Late(st) then from.Subs? && |from.s| == Uses(st) else from.One?
  }

  function Low33(wide: bool, s: Word): Word { BitWord(BAnd, s, M33(wide)) }

  function High33(wide: bool, s: Word): Word { BitWord(BAnd, s / 4, M33(wide)) }

  function Nibble(wide: bool, a: Word, b: Word): Word { Wrap(Low33(wide, a) + High33(wide, b)) }

  function Sum16(wide: bool, s: seq<Word>): Word
    requires |s| == 4
  {
    Wrap(Nibble(wide, s[0], s[1]) + Nibble(wide, s[2], s[3]) / 16)
  }

  function Octet(wide: bool, s: seq<Word>): Word
    requires |s| == 4
  {
    BitWord(BAnd, Sum16(wide, s), M0F(wide))
  }

  /** The odd bits halved, which the subtraction takes off. */
  function Odd(wide: bool, v: Word): Word { BitWord(BAnd, v / 2, M55(wide)) }

  /** The register of a stage. */
  function StageValue(st: Stage, wide: bool, from: Source): Word
    requires Fed(st, from)
  {
    match st
    case Shr1 => from.v / 2
    case And55 => Odd(wide, from.v)
    case Stage1 => from.s[0]
    case And33 => Low33(wide, from.s[0])
    case Shr2 => from.s[0] / 4
    case And33S => High33(wide, from.s[0])
    case Stage2 => Nibble(wide, from.s[0], from.s[1])
    case Shr4 => Nibble(wide, from.s[0], from.s[1]) / 16
    case Sum4 => Sum16(wide, from.s)
    case Stage3 => Octet(wide, from.s)
    case Product => Wrap(Octet(wide, from.s) * M01(wide))
  }

  /** Stage one of `v`, as it should be. */
  function Halved(wide: bool, v: Word): Word { Wrap(v - Odd(wide, v)) }

  /** The closing shift: `srli 56`, or `srliw 24`. */
  function Closing(wide: bool, x: Word): Word {
    if wide then x / 0x100_0000_0000_0000 else Sext(x % W32 / 0x100_0000, W32)
  }

  // ---- masks ----

  function Shift(a: nat, k: nat): nat {
    if k == 0 then a else Shift(a / 2, k - 1)
  }

  function Raise(a: nat, k: nat): nat {
    if k == 0 then a else 2 * Raise(a, k - 1)
  }

  function LowBits(j: nat, x: nat): nat {
    if j == 0 then 0 else x % 2 + 2 * LowBits(j - 1, x / 2)
  }

  function Mask(j: nat): nat {
    if j == 0 then 0 else 1 + 2 * Mask(j - 1)
  }

  /** `n` lanes of `k` bits, each holding `m`. */
  function Rep(n: nat, k: nat, m: nat): nat {
    if n == 0 then 0 else m + Raise(Rep(n - 1, k, m), k)
  }

  function Length(n: nat, k: nat): nat {
    if n == 0 then 0 else k + Length(n - 1, k)
  }

  /** The low `j` bits of each of `n` lanes of `k` bits. */
  function Lanes(n: nat, k: nat, j: nat, x: nat): nat {
    if n == 0 then 0 else LowBits(j, x) + Raise(Lanes(n - 1, k, j, Shift(x, k)), k)
  }

  lemma {:induction false} BitsSplit(n: nat, k: nat, a: nat, b: nat)
    requires k <= n
    ensures Bits(n, BAnd, a, b) == Bits(k, BAnd, a, b) + Raise(Bits(n - k, BAnd, Shift(a, k), Shift(b, k)), k)
    decreases k
  {
    hide Pow2;
    if k > 0 {
      BitsSplit(n - 1, k - 1, a / 2, b / 2);
    }
  }

  /** A mask in the lowest lane keeps its bits of the other operand. */
  lemma {:induction false} MaskLow(k: nat, j: nat, a: nat, rest: nat)
    requires j <= k
    ensures Bits(k, BAnd, a, Mask(j) + Raise(rest, k)) == LowBits(j, a)
    ensures Shift(Mask(j) + Raise(rest, k), k) == rest
    decreases k
  {
    hide Pow2;
    if j > 0 {
      MaskLow(k - 1, j - 1, a / 2, rest);
    } else if k > 0 {
      MaskLow(k - 1, 0, a / 2, rest);
    }
  }

  lemma {:induction false} AndLanes(bits: nat, n: nat, k: nat, j: nat, x: nat)
    requires Length(n, k) <= bits && j <= k
    ensures Bits(bits, BAnd, x, Rep(n, k, Mask(j))) == Lanes(n, k, j, x)
  {
    hide Bits, LowBits, Mask, Shift, Raise;
    if n == 0 {
      BitsAndBounded(bits, x, 0);
    } else {
      var rest := Rep(n - 1, k, Mask(j));
      BitsSplit(bits, k, x, Mask(j) + Raise(rest, k));
      MaskLow(k, j, x, rest);
      AndLanes(bits - k, n - 1, k, j, Shift(x, k));
    }
  }

  // ---- lanes of two, four and eight bits ----

  lemma ShiftIs(x: nat)
    ensures Shift(x, 2) == x / 4 && Shift(x, 4) == x / 16 && Shift(x, 8) == x / 256
  {
    assert Shift(x, 2) == Shift(x / 2, 1) == Shift(x / 2 / 2, 0);
    FourMore(x, 0);
    FourMore(x, 4);
    assert Shift(x / 16, 4) == x / 16 / 16 by { FourMore(x / 16, 0); }
  }

  lemma FourMore(x: nat, k: nat)
    ensures Shift(x, k + 4) == Shift(x / 16, k)
  {
    assert Shift(x, k + 4) == Shift(x / 2, k + 3) == Shift(x / 2 / 2, k + 2) == Shift(x / 2 / 2 / 2, k + 1);
    assert x / 2 / 2 / 2 / 2 == x / 16;
  }

  lemma RaiseIs(x: nat)
    ensures Raise(x, 2) == 4 * x && Raise(x, 4) == 16 * x && Raise(x, 8) == 256 * x
  {
    assert Raise(x, 1) == 2 * x;
    assert Raise(x, 3) == 8 * x;
    assert Raise(x, 6) == 4 * Raise(x, 4);
  }

  lemma LowBitsIs(x: nat)
    ensures LowBits(1, x) == x % 2 && LowBits(2, x) == x % 4 && LowBits(4, x) == x % 16
  {
    LowOne(x);
    LowTwo(x);
    LowThree(x / 2);
    DoubleMod(x, 8);
    LowStep(4, x);
    hide LowBits;
  }

  lemma LowStep(j: nat, x: nat)
    requires j > 0
    ensures LowBits(j, x) == x % 2 + 2 * LowBits(j - 1, x / 2)
  {
  }

  lemma LowOne(x: nat)
    ensures LowBits(1, x) == x % 2
  {
    LowStep(1, x);
    assert LowBits(0, x / 2) == 0;
  }

  lemma LowTwo(x: nat)
    ensures LowBits(2, x) == x % 4
  {
    LowStep(2, x);
    LowOne(x / 2);
    DoubleMod(x, 2);
    hide LowBits;
  }

  lemma LowThree(x: nat)
    ensures LowBits(3, x) == x % 8
  {
    LowStep(3, x);
    LowTwo(x / 2);
    DoubleMod(x, 4);
    hide LowBits;
  }

  lemma LanesIs(n: nat, x: nat)
    requires n > 0
    ensures Lanes(n, 2, 1, x) == x % 2 + 4 * Lanes(n - 1, 2, 1, x / 4)
    ensures Lanes(n, 4, 2, x) == x % 4 + 16 * Lanes(n - 1, 4, 2, x / 16)
    ensures Lanes(n, 8, 4, x) == x % 16 + 256 * Lanes(n - 1, 8, 4, x / 256)
  {
    hide Shift, Raise, LowBits;
    ShiftIs(x);
    LowBitsIs(x);
    RaiseIs(Lanes(n - 1, 2, 1, x / 4));
    RaiseIs(Lanes(n - 1, 4, 2, x / 16));
    RaiseIs(Lanes(n - 1, 8, 4, x / 256));
  }

  // ---- the partial counts ----

  /** The count of each of `n` lanes of two bits, in its lane. */
  function Pairs(n: nat, v: nat): nat {
    if n == 0 then 0 else Ones(2, v) + 4 * Pairs(n - 1, v / 4)
  }

  /** What lies above the lanes. */
  function Above(n: nat, v: nat): nat {
    if n == 0 then v else 4 * Above(n - 1, v / 4)
  }

  lemma OnesOf(v: nat)
    ensures Ones(2, v) == v % 2 + v / 2 % 2
    ensures Ones(4, v) == Ones(2, v) + Ones(2, v / 4)
  {
    assert Ones(0, v / 4) == 0 && Ones(1, v / 2) == v / 2 % 2 + Ones(0, v / 2 / 2);
    OnesAdd(2, 2, v);
    ShiftIs(v);
  }

  lemma {:induction false} OnesAdd(m: nat, n: nat, v: nat)
    ensures Ones(m + n, v) == Ones(m, v) + Ones(n, Shift(v, m))
    decreases m
  {
    if m > 0 {
      OnesAdd(m - 1, n, v / 2);
    }
  }

  lemma LowPair(v: nat)
    ensures v == v % 2 + 2 * (v / 2 % 2) + 4 * (v / 4) && v / 2 / 4 == v / 4 / 2
  {
    var a := v / 2;
    DivModUnique(v, 4, a / 2, v % 2 + 2 * (a % 2));
    var b := a / 4;
    DivModUnique(a, 2, 2 * b + a % 4 / 2, a % 4 % 2);
    DivModUnique(2 * b + a % 4 / 2, 2, b, a % 4 / 2);
  }

  /** A value less its halved odd bits, a pair at a time. */
  lemma PairSum(v: nat, b0: nat, b1: nat, v': nat, l: nat, l': nat, p': nat, a': nat)
    requires v == b0 + 2 * b1 + 4 * v' && l == b1 + 4 * l' && l' <= v' && v' - l' == p' + a'
    ensures l <= v && v - l == (b0 + b1 + 4 * p') + 4 * a'
  {
  }

  lemma {:induction false} FirstStage(n: nat, v: nat)
    ensures Lanes(n, 2, 1, v / 2) <= v
    ensures v - Lanes(n, 2, 1, v / 2) == Pairs(n, v) + Above(n, v)
  {
    hide Lanes, Ones;
    if n == 0 {
      NoLanes(2, 1, v / 2);
    } else {
      var v' := v / 4;
      FirstStage(n - 1, v');
      LanesIs(n, v / 2);
      OnesOf(v);
      LowPair(v);
      PairSum(v, v % 2, v / 2 % 2, v', Lanes(n, 2, 1, v / 2), Lanes(n - 1, 2, 1, v' / 2), Pairs(n - 1, v'),
              Above(n - 1, v'));
    }
  }

  lemma NoLanes(k: nat, j: nat, x: nat)
    ensures Lanes(0, k, j, x) == 0
  {
  }

  lemma Quarter(v: nat)
    ensures v / 4 / 4 == v / 16 && v / 16 / 16 == v / 256
  {
  }

  lemma TwoPairs(n: nat, v: nat)
    requires n >= 2
    ensures Pairs(n, v) == Ones(2, v) + 4 * Ones(2, v / 4) + 16 * Pairs(n - 2, v / 16)
    ensures Above(n, v) == 16 * Above(n - 2, v / 16)
  {
    hide Ones;
    Quarter(v);
    assert Pairs(n - 1, v / 4) == Ones(2, v / 4) + 4 * Pairs(n - 2, v / 16);
    assert Above(n - 1, v / 4) == 4 * Above(n - 2, v / 16);
  }

  // ---- the sums of digits ----

  /** Digit `k` of a byte to base four. */
  function Quad(k: nat, s: nat): nat {
    match k
    case 0 => s % 4
    case 1 => s / 4 % 4
    case 2 => s / 16 % 4
    case _ => s / 64 % 4
  }

  /** Digit `k` of each of the low `n` bytes, added up. */
  function LaneSum(k: nat, n: nat, s: nat): nat {
    if n == 0 then 0 else Quad(k, s) + LaneSum(k, n - 1, s / 256)
  }

  /** `n` nibbles, each the low digit of `a`'s and the high digit of `b`'s. */
  function Nibs(n: nat, a: nat, b: nat): nat {
    if n == 0 then 0 else a % 4 + b / 4 % 4 + 16 * Nibs(n - 1, a / 16, b / 16)
  }

  /** `n` bytes, each a digit of every one of the four. */
  function Octs(n: nat, a: nat, b: nat, c: nat, d: nat): nat {
    if n == 0 then 0
    else Quad(0, a) + Quad(1, b) + Quad(2, c) + Quad(3, d) + 256 * Octs(n - 1, a / 256, b / 256, c / 256, d / 256)
  }

  /** The two masked halves, of one value or of two. */
  lemma {:induction false} SecondStage(n: nat, a: nat, b: nat)
    ensures Lanes(n, 4, 2, a) + Lanes(n, 4, 2, b / 4) == Nibs(n, a, b)
  {
    hide Lanes;
    if n == 0 {
      NoLanes(4, 2, a);
      NoLanes(4, 2, b / 4);
    } else {
      SecondStage(n - 1, a / 16, b / 16);
      LanesIs(n, a);
      LanesIs(n, b / 4);
      Sixteenth(b);
    }
  }

  lemma Sixteenth(b: nat)
    ensures b / 4 / 16 == b / 16 / 4 && b / 16 / 16 == b / 256 && b / 16 / 4 == b / 64
  {
  }

  lemma TwoNibs(n: nat, a: nat, b: nat)
    requires n >= 2
    ensures Nibs(n, a, b) == (Quad(0, a) + Quad(1, b)) + 16 * (Quad(2, a) + Quad(3, b)) + 256 * Nibs(n - 2, a / 256,
              b / 256)
  {
    Sixteenth(a);
    Sixteenth(b);
    assert Nibs(n - 1, a / 16, b / 16) == a / 16 % 4 + b / 16 / 4 % 4 + 16 * Nibs(n - 2, a / 256, b / 256);
  }

  lemma LowNib(n: nat, a: nat, b: nat)
    ensures Nibs(n, a, b) % 16 <= 6
  {
  }

  /** Two nibbles of each, the rests `t'` and `u'`: what adding the one to the other
      shifted makes. */
  lemma NibbleSum(n0: nat, n1: nat, t': nat, t: nat, m0: nat, m1: nat, u': nat, u: nat)
    requires n0 <= 6 && n1 <= 6 && t == n0 + 16 * n1 + 256 * t'
    requires m0 <= 6 && m1 <= 6 && u' % 16 <= 6 && u == m0 + 16 * m1 + 256 * u'
    ensures (t + u / 16) / 256 == t' + u' / 16 && (t + u / 16) % 16 == n0 + m1
  {
    var m2, q := u' % 16, u' / 16;
    assert u' == m2 + 16 * q;
    DivModUnique(u, 16, m1 + 16 * u', m0);
    var low := (n0 + m1) + 16 * (n1 + m2);
    assert t + u / 16 == low + 256 * (t' + q);
    DivModUnique(t + u / 16, 256, t' + q, low);
    DivModUnique(t + u / 16, 16, (n1 + m2) + 16 * (t' + q), n0 + m1);
  }

  lemma QuadSmall(k: nat, s: nat)
    ensures Quad(k, s) <= 3
  {
  }

  /** The sum of the two, masked: each byte adds up a digit of every one of the four. */
  lemma {:induction false} ThirdStage(n: nat, a: nat, b: nat, c: nat, d: nat)
    ensures Lanes(n, 8, 4, Nibs(2 * n, a, b) + Nibs(2 * n, c, d) / 16) == Octs(n, a, b, c, d)
  {
    hide Lanes, Nibs, Quad;
    var t, u := Nibs(2 * n, a, b), Nibs(2 * n, c, d);
    if n == 0 {
      NoLanes(8, 4, t + u / 16);
    } else {
      ThirdStage(n - 1, a / 256, b / 256, c / 256, d / 256);
      TwoNibs(2 * n, a, b);
      TwoNibs(2 * n, c, d);
      assert 2 * n - 2 == 2 * (n - 1);
      LowNib(2 * (n - 1), c / 256, d / 256);
      forall k: nat, x: nat ensures Quad(k, x) <= 3 { QuadSmall(k, x); }
      NibbleSum(Quad(0, a) + Quad(1, b), Quad(2, a) + Quad(3, b), Nibs(2 * (n - 1), a / 256, b / 256), t,
                Quad(0, c) + Quad(1, d), Quad(2, c) + Quad(3, d), Nibs(2 * (n - 1), c / 256, d / 256), u);
      LanesIs(n, t + u / 16);
    }
  }

  lemma {:induction false} NibsBound(n: nat, a: nat, b: nat)
    ensures 2 * Nibs(n, a, b) + 1 <= Raise(1, 4 * n)
  {
    if n > 0 {
      NibsBound(n - 1, a / 16, b / 16);
      var k := 4 * (n - 1);
      assert Raise(1, 4 * n) == 2 * Raise(1, k + 3);
      assert Raise(1, k + 3) == 2 * Raise(1, k + 2) == 4 * Raise(1, k + 1) == 8 * Raise(1, k);
    }
  }

  // ---- the four masks and the multiplier ----

  /** The byte `b`, `n` times over. */
  function Times(n: nat, b: nat): nat {
    if n == 0 then 0 else b + 256 * Times(n - 1, b)
  }

  lemma TimesIs()
    ensures Times(4, 0x55) == 0x5555_5555 && Times(8, 0x55) == 0x5555_5555_5555_5555
    ensures Times(4, 0x33) == 0x3333_3333 && Times(8, 0x33) == 0x3333_3333_3333_3333
    ensures Times(4, 0x0f) == 0x0f0f_0f0f && Times(8, 0x0f) == 0x0f0f_0f0f_0f0f_0f0f
  {
  }

  lemma RepOnce(n: nat, k: nat, m: nat)
    requires k == 2 || k == 4 || k == 8
    ensures Rep(n + 1, k, m) == m + (if k == 2 then 4 else if k == 4 then 16 else 256) * Rep(n, k, m)
  {
    RaiseIs(Rep(n, k, m));
  }

  lemma {:induction false} RepTimes(n: nat)
    ensures Rep(4 * n, 2, 1) == Times(n, 0x55) && Rep(2 * n, 4, 3) == Times(n, 0x33) && Rep(n, 8, 15) == Times(n, 0x0f)
  {
    if n > 0 {
      hide Rep;
      RepTimes(n - 1);
      var k := 4 * (n - 1);
      RepOnce(k, 2, 1);
      RepOnce(k + 1, 2, 1);
      RepOnce(k + 2, 2, 1);
      RepOnce(k + 3, 2, 1);
      RepOnce(2 * (n - 1), 4, 3);
      RepOnce(2 * (n - 1) + 1, 4, 3);
      RepOnce(n - 1, 8, 15);
    }
  }

  lemma {:induction false} Lengths(n: nat)
    ensures Length(n, 2) == 2 * n && Length(n, 4) == 4 * n && Length(n, 8) == 8 * n
  {
    if n > 0 {
      Lengths(n - 1);
    }
  }

  /** How many bytes the sequence counts over. */
  function Span(wide: bool): nat {
    if wide then 8 else 4
  }

  lemma Masks(wide: bool, x: Word)
    ensures BitWord(BAnd, x, M55(wide)) == Lanes(4 * Span(wide), 2, 1, x)
    ensures BitWord(BAnd, x, M33(wide)) == Lanes(2 * Span(wide), 4, 2, x)
    ensures BitWord(BAnd, x, M0F(wide)) == Lanes(Span(wide), 8, 4, x)
  {
    var n := Span(wide);
    TimesIs();
    RepTimes(n);
    Lengths(4 * n);
    Lengths(2 * n);
    Lengths(n);
    MaskIs();
    hide Bits, Rep, Lanes, Length, Times, Mask;
    AndLanes(64, 4 * n, 2, 1, x);
    AndLanes(64, 2 * n, 4, 2, x);
    AndLanes(64, n, 8, 4, x);
  }

  lemma MaskIs()
    ensures Mask(1) == 1 && Mask(2) == 3 && Mask(4) == 15
  {
    assert Mask(3) == 7;
  }

  // ---- the sum of the octets ----

  lemma Sum4Octets(c0: nat, c1: nat, c2: nat, c3: nat, x: nat)
    requires c0 <= 12 && c1 <= 12 && c2 <= 12 && c3 <= 12
    requires x == c0 + 256 * (c1 + 256 * (c2 + 256 * c3))
    ensures var p := x * 0x0101_0101; p < W64 && p % W32 / 0x100_0000 == c0 + c1 + c2 + c3
  {
    var low := c0 + 256 * (c0 + c1) + 0x1_0000 * (c0 + c1 + c2);
    var r := low + 0x100_0000 * (c0 + c1 + c2 + c3);
    var q := (c1 + c2 + c3) + 256 * (c2 + c3) + 0x1_0000 * c3;
    assert x * 0x0101_0101 == W32 * q + r;
    DivModUnique(x * 0x0101_0101, W32, q, r);
    DivModUnique(r, 0x100_0000, c0 + c1 + c2 + c3, low);
  }

  lemma Sum8Octets(c0: nat, c1: nat, c2: nat, c3: nat, y0: nat, y1: nat, y2: nat, y3: nat, x: nat, y: nat)
    requires c0 <= 12 && c1 <= 12 && c2 <= 12 && c3 <= 12 && y0 <= 12 && y1 <= 12 && y2 <= 12 && y3 <= 12
    requires x == c0 + 256 * (c1 + 256 * (c2 + 256 * c3)) && y == y0 + 256 * (y1 + 256 * (y2 + 256 * y3))
    ensures Wrap((x + W32 * y) * 0x0101_0101_0101_0101) / 0x100_0000_0000_0000 == c0 + c1 + c2 + c3 + y0 + y1 + y2 + y3
  {
    var c := c0 + c1 + c2 + c3;
    var lowX := c0 + 256 * (c0 + c1) + 0x1_0000 * (c0 + c1 + c2) + 0x100_0000 * c;
    var highX := (c1 + c2 + c3) + 256 * (c2 + c3) + 0x1_0000 * c3;
    var lowY := y0 + 256 * (y0 + y1) + 0x1_0000 * (y0 + y1 + y2);
    var highY := (y1 + y2 + y3) + 256 * (y2 + y3) + 0x1_0000 * y3;
    var all := c + y0 + y1 + y2 + y3;
    assert x * 0x0101_0101 == W32 * highX + lowX;
    assert y * 0x0101_0101 == W32 * highY + lowY + 0x100_0000 * (y0 + y1 + y2 + y3);
    assert highX + lowX + lowY + 0x100_0000 * (y0 + y1 + y2 + y3) ==
           (highX + lowX - 0x100_0000 * c) + lowY + 0x100_0000 * all;
    var low := lowX + W32 * (highX + lowX - 0x100_0000 * c + lowY);
    var q := highX + highY + (lowY + 0x100_0000 * (y0 + y1 + y2 + y3)) + W32 * highY;
    assert (x + W32 * y) * 0x0101_0101_0101_0101 == W64 * q + (low + 0x100_0000_0000_0000 * all);
    DivModUnique((x + W32 * y) * 0x0101_0101_0101_0101, W64, q, low + 0x100_0000_0000_0000 * all);
    DivModUnique(low + 0x100_0000_0000_0000 * all, 0x100_0000_0000_0000, all, low);
  }

  /** All digits of the four that a byte of the sum is made of. */
  function Total(n: nat, s: seq<nat>): nat
    requires |s| == 4
  {
    LaneSum(0, n, s[0]) + LaneSum(1, n, s[1]) + LaneSum(2, n, s[2]) + LaneSum(3, n, s[3])
  }

  function Bytes(s: seq<nat>): (r: seq<nat>)
    requires |s| == 4
    ensures |r| == 4
  {
    [s[0] / 256, s[1] / 256, s[2] / 256, s[3] / 256]
  }

  function OctsOf(n: nat, s: seq<nat>): nat
    requires |s| == 4
  {
    Octs(n, s[0], s[1], s[2], s[3])
  }

  lemma NextOctet(n: nat, s: seq<nat>) returns (c: nat)
    requires |s| == 4 && n > 0
    ensures c <= 12 && OctsOf(n, s) == c + 256 * OctsOf(n - 1, Bytes(s)) && Total(n, s) == c + Total(n - 1, Bytes(s))
  {
    c := Quad(0, s[0]) + Quad(1, s[1]) + Quad(2, s[2]) + Quad(3, s[3]);
    forall k: nat, x: nat ensures Quad(k, x) <= 3 { QuadSmall(k, x); }
    hide Quad;
  }

  lemma FourOctets(n: nat, s: seq<nat>) returns (c0: nat, c1: nat, c2: nat, c3: nat, rest: seq<nat>)
    requires n >= 4 && |s| == 4
    ensures c0 <= 12 && c1 <= 12 && c2 <= 12 && c3 <= 12 && |rest| == 4
    ensures OctsOf(n, s) == c0 + 256 * (c1 + 256 * (c2 + 256 * c3)) + W32 * OctsOf(n - 4, rest)
    ensures Total(n, s) == c0 + c1 + c2 + c3 + Total(n - 4, rest)
  {
    hide OctsOf, Total, Bytes;
    c0 := NextOctet(n, s);
    c1 := NextOctet(n - 1, Bytes(s));
    c2 := NextOctet(n - 2, Bytes(Bytes(s)));
    c3 := NextOctet(n - 3, Bytes(Bytes(Bytes(s))));
    rest := Bytes(Bytes(Bytes(Bytes(s))));
  }

  lemma NoOctets(s: seq<nat>)
    requires |s| == 4
    ensures OctsOf(0, s) == 0 && Total(0, s) == 0
  {
  }

  lemma LastWide(s: seq<nat>)
    requires |s| == 4
    ensures Closing(true, Wrap(OctsOf(8, s) * M01(true))) == Total(8, s)
  {
    hide OctsOf, Total;
    var c0, c1, c2, c3, rest := FourOctets(8, s);
    var y0, y1, y2, y3, none := FourOctets(4, rest);
    NoOctets(none);
    Sum8Octets(c0, c1, c2, c3, y0, y1, y2, y3, c0 + 256 * (c1 + 256 * (c2 + 256 * c3)),
               y0 + 256 * (y1 + 256 * (y2 + 256 * y3)));
    hide Wrap;
  }

  lemma LastNarrow(s: seq<nat>)
    requires |s| == 4
    ensures Closing(false, Wrap(OctsOf(4, s) * M01(false))) == Total(4, s)
  {
    hide OctsOf, Total, Sext;
    var c0, c1, c2, c3, rest := FourOctets(4, s);
    NoOctets(rest);
    Sum4Octets(c0, c1, c2, c3, OctsOf(4, s));
    WrapOfWord(OctsOf(4, s) * 0x0101_0101);
    SmallSext(c0 + c1 + c2 + c3);
    hide Wrap;
  }

  lemma LastStage(wide: bool, s: seq<nat>)
    requires |s| == 4
    ensures Closing(wide, Wrap(OctsOf(Span(wide), s) * M01(wide))) == Total(Span(wide), s)
  {
    hide OctsOf, Total, Closing;
    if wide { LastWide(s); } else { LastNarrow(s); }
  }

  lemma SmallSext(c: nat)
    requires c <= 64
    ensures Sext(c, W32) == c
  {
  }

  // ---- the stages together ----

  lemma RaiseWord()
    ensures Raise(1, 64) == W64 && Raise(1, 32) == W32
  {
    RaiseIs(1);
    RaisedTwice(1, 8, 8);
    RaiseIs(256);
    RaisedTwice(1, 16, 8);
    RaisedTwice(1, 24, 8);
    RaiseIs(0x1_0000);
    RaiseIs(0x100_0000);
    RaisedTwice(1, 32, 8);
    RaisedTwice(1, 40, 8);
    RaisedTwice(1, 48, 8);
    RaisedTwice(1, 56, 8);
    RaiseIs(0x1_0000_0000);
    RaiseIs(0x100_0000_0000);
    RaiseIs(0x1_0000_0000_0000);
    RaiseIs(0x100_0000_0000_0000);
  }

  lemma {:induction false} RaisedTwice(a: nat, m: nat, n: nat)
    ensures Raise(a, m + n) == Raise(Raise(a, m), n)
  {
    if n > 0 {
      RaisedTwice(a, m, n - 1);
    }
  }

  lemma NibsSmall(wide: bool, a: nat, b: nat)
    ensures 2 * Nibs(2 * Span(wide), a, b) < W64
  {
    hide Nibs, Raise;
    RaiseWord();
    NibsBound(2 * Span(wide), a, b);
  }

  lemma NibbleIs(wide: bool, a: Word, b: Word)
    ensures Nibble(wide, a, b) == Nibs(2 * Span(wide), a, b)
  {
    hide Lanes, Nibs, M33, BitWord, Wrap;
    SecondStage(2 * Span(wide), a, b);
    Masks(wide, a);
    Masks(wide, b / 4);
    NibsSmall(wide, a, b);
    WrapOfWord(Nibs(2 * Span(wide), a, b));
  }

  lemma NoCarry(t: nat, u: nat)
    requires 2 * t < W64 && 2 * u < W64
    ensures t + u / 16 < W64 && Wrap(t + u / 16) == t + u / 16
  {
  }

  lemma OctetIs(wide: bool, s: seq<Word>)
    requires |s| == 4
    ensures Octet(wide, s) == OctsOf(Span(wide), s)
  {
    hide Lanes, Nibs, Octs, M0F, BitWord, Nibble, Wrap;
    var t, u := Nibs(2 * Span(wide), s[0], s[1]), Nibs(2 * Span(wide), s[2], s[3]);
    NibbleIs(wide, s[0], s[1]);
    NibbleIs(wide, s[2], s[3]);
    NibsSmall(wide, s[0], s[1]);
    NibsSmall(wide, s[2], s[3]);
    NoCarry(t, u);
    ThirdStage(Span(wide), s[0], s[1], s[2], s[3]);
    Masks(wide, Sum16(wide, s));
  }

  /** What the closing shift leaves, whatever the four subtractions left: digit `k` to
      base four of each byte of the `k`-th, added up. */
  lemma ClosingCounts(wide: bool, s: seq<Word>)
    requires |s| == 4
    ensures Closing(wide, StageValue(Product, wide, Subs(s))) == Total(Span(wide), s)
  {
    hide Octet, OctsOf, Total, Closing, M01;
    OctetIs(wide, s);
    LastStage(wide, s);
  }

  // ---- one value throughout ----

  lemma StageOneIs(wide: bool, v: Word)
    ensures Halved(wide, v) == Paired(4 * Span(wide), v)
  {
    hide Lanes, Pairs, Above, M55, BitWord;
    FirstStage(4 * Span(wide), v);
    Masks(wide, v / 2);
  }

  lemma FourDigits(s: nat, o0: nat, o1: nat, o2: nat, o3: nat, r: nat)
    requires s == o0 + 4 * o1 + 16 * o2 + 64 * o3 + 256 * r && o0 <= 3 && o1 <= 3 && o2 <= 3 && o3 <= 3
    ensures Quad(0, s) == o0 && Quad(1, s) == o1 && Quad(2, s) == o2 && Quad(3, s) == o3 && s / 256 == r
  {
    DivModUnique(s, 4, o1 + 4 * o2 + 16 * o3 + 64 * r, o0);
    DivModUnique(s / 4, 4, o2 + 4 * o3 + 16 * r, o1);
    DivModUnique(s, 16, o2 + 4 * o3 + 16 * r, o0 + 4 * o1);
    DivModUnique(s / 16, 4, o3 + 4 * r, o2);
    DivModUnique(s, 64, o3 + 4 * r, o0 + 4 * o1 + 16 * o2);
    DivModUnique(s / 64, 4, r, o3);
    DivModUnique(s, 256, r, o0 + 4 * o1 + 16 * o2 + 64 * o3);
  }

  lemma PairsFrom(m: nat, v: nat, q: nat, w: nat)
    requires m >= 2 && q == v / 4 && w == v / 16
    ensures Pairs(m, v) == Ones(2, v) + 4 * Ones(2, q) + 16 * Pairs(m - 2, w)
    ensures Above(m, v) == 16 * Above(m - 2, w)
  {
    hide Ones, Pairs, Above;
    TwoPairs(m, v);
  }

  lemma FourPairs(m: nat, v: nat)
    requires m >= 4
    ensures Pairs(m, v) + Above(m, v) ==
            Ones(2, v) + 4 * Ones(2, v / 4) + 16 * Ones(2, v / 16) + 64 * Ones(2, v / 64) +
            256 * (Pairs(m - 4, v / 256) + Above(m - 4, v / 256))
  {
    hide Ones, Pairs, Above;
    Sixteenth(v);
    PairsFrom(m, v, v / 4, v / 16);
    PairsFrom(m - 2, v / 16, v / 64, v / 256);
  }

  lemma EightOnes(v: nat)
    ensures Ones(8, v) == Ones(2, v) + Ones(2, v / 4) + Ones(2, v / 16) + Ones(2, v / 64)
  {
    hide Ones;
    OnesOf(v);
    OnesOf(v / 16);
    OnesAdd(4, 4, v);
    ShiftIs(v);
    Sixteenth(v);
  }

  /** The pairs counted, with what lies above them. */
  function Paired(m: nat, v: nat): nat { Pairs(m, v) + Above(m, v) }

  lemma PairedByte(m: nat, v: nat, s: nat, r: nat)
    requires m >= 4 && s == Paired(m, v) && r == Paired(m - 4, v / 256)
    ensures s / 256 == r && Quad(0, s) + Quad(1, s) + Quad(2, s) + Quad(3, s) == Ones(8, v)
  {
    hide Ones, Pairs, Above, Quad;
    FourPairs(m, v);
    EightOnes(v);
    var o0, o1, o2, o3 := Ones(2, v), Ones(2, v / 4), Ones(2, v / 16), Ones(2, v / 64);
    FourDigits(s, o0, o1, o2, o3, r);
  }

  lemma {:induction false} DigitsCount(n: nat, v: nat)
    ensures var s := Paired(4 * n, v);
            LaneSum(0, n, s) + LaneSum(1, n, s) + LaneSum(2, n, s) + LaneSum(3, n, s) == Ones(8 * n, v)
  {
    hide Ones, Paired, Quad;
    if n == 0 {
      NoOnes(v);
    } else {
      DigitsCount(n - 1, v / 256);
      assert 4 * n - 4 == 4 * (n - 1);
      PairedByte(4 * n, v, Paired(4 * n, v), Paired(4 * (n - 1), v / 256));
      OnesAdd(8, 8 * (n - 1), v);
      ShiftIs(v);
    }
  }

  lemma NoOnes(v: nat)
    ensures Ones(0, v) == 0
  {
  }

  lemma OneTotal(wide: bool, v: Word)
    ensures var s := Halved(wide, v); Total(Span(wide), [s, s, s, s]) == Ones(8 * Span(wide), v)
  {
    hide Ones, LaneSum, Halved, Paired;
    StageOneIs(wide, v);
    DigitsCount(Span(wide), v);
  }

  /** One value throughout: the closing shift leaves the number of set bits, of the whole
      value with the wide masks, of its low half with the narrow ones, whatever is
      above. */
  lemma SequenceCounts(wide: bool, v: Word)
    ensures var s := Halved(wide, v);
            Closing(wide, StageValue(Product, wide, Subs([s, s, s, s]))) == Ones(if wide then 64 else 32, v)
  {
    hide Ones, Closing, Halved, StageValue, Total;
    var s := Halved(wide, v);
    ClosingCounts(wide, [s, s, s, s]);
    OneTotal(wide, v);
  }
}
