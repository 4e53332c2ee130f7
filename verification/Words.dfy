/** 64-bit words as integers: wrap-around, sign extension, the bit operations
    and the little-endian bytes of a value. */
module Words {
  const W32: int := 0x1_0000_0000
  const W64: int := 0x1_0000_0000_0000_0000

  type Word = v: int | 0 <= v < 0x1_0000_0000_0000_0000
  type Byte = v: int | 0 <= v < 256

  function Wrap(v: int): Word {
    v % W64
  }

  lemma WrapOfWord(v: int)
    requires 0 <= v < W64
    ensures Wrap(v) == v
  {
  }

  /** The two's-complement reading of a word. */
  function Signed(w: Word): int {
    if w < 0x8000_0000_0000_0000 then w else w - W64
  }

  /** The low part of `v` below the modulus `m`, sign-extended to 64 bits. */
  function Sext(v: int, m: int): Word
    requires m == 0x100 || m == 0x1_0000 || m == W32
  {
    var low := v % m;
    if low < m / 2 then low else low + (W64 - m)
  }

  function Pow2(n: nat): (p: int)
    ensures p > 0
  {
    if n == 0 then 1 else 2 * Pow2(n - 1)
  }

  lemma {:induction false} Pow2Add(m: nat, n: nat)
    ensures Pow2(m + n) == Pow2(m) * Pow2(n)
  {
    if m > 0 {
      Pow2Add(m - 1, n);
      assert Pow2(m + n) == 2 * Pow2(m + n - 1);
      assert 2 * (Pow2(m - 1) * Pow2(n)) == Pow2(m) * Pow2(n);
    }
  }

  lemma MulSub(m: int, a: int, b: int)
    ensures m * (a - b) == m * a - m * b
  {
  }

  lemma MulAtLeast(m: int, k: int)
    requires 0 < m && 1 <= k
    ensures m * k >= m
  {
    MulSub(m, k, 1);
  }

  /** Quotient and remainder are the only ones that fit. */
  lemma DivModUnique(v: int, m: int, q: int, r: int)
    requires v == m * q + r && 0 <= r < m
    ensures v / m == q && v % m == r
  {
    var q', r' := v / m, v % m;
    if q > q' {
      MulAtLeast(m, q - q');
      MulSub(m, q, q');
    } else if q < q' {
      MulAtLeast(m, q' - q);
      MulSub(m, q', q);
    }
  }

  lemma Pow2Word()
    ensures Pow2(8) == 0x100 && Pow2(16) == 0x1_0000
    ensures Pow2(31) == 0x8000_0000 && Pow2(32) == W32
    ensures Pow2(63) == 0x8000_0000_0000_0000 && Pow2(64) == W64
  {
    assert Pow2(7) == 128;
    Pow2Add(8, 8);
    Pow2Add(16, 16);
    Pow2Add(32, 32);
  }

  // ---- bit operations ----

  datatype BitOp = BAnd | BOr | BXor

  function Bit(op: BitOp, a: int, b: int): (r: int)
    requires 0 <= a <= 1 && 0 <= b <= 1
    ensures 0 <= r <= 1
  {
    match op
    case BAnd => if a == 1 && b == 1 then 1 else 0
    case BOr => if a == 1 || b == 1 then 1 else 0
    case BXor => if a == b then 0 else 1
  }

  /** The low `n` bits of the bitwise operation on two non-negative integers. */
  function Bits(n: nat, op: BitOp, a: nat, b: nat): (r: nat)
    ensures r < Pow2(n)
  {
    if n == 0 then 0 else Bit(op, a % 2, b % 2) + 2 * Bits(n - 1, op, a / 2, b / 2)
  }

  function BitWord(op: BitOp, a: Word, b: Word): Word {
    Pow2Word();
    Bits(64, op, a, b)
  }

  lemma {:induction false} BitsAndBounded(n: nat, a: nat, b: nat)
    ensures Bits(n, BAnd, a, b) <= a
    ensures Bits(n, BAnd, a, b) <= b
  {
    if n > 0 {
      BitsAndBounded(n - 1, a / 2, b / 2);
    }
  }

  lemma {:induction false} BitsCommute(n: nat, op: BitOp, a: nat, b: nat)
    ensures Bits(n, op, a, b) == Bits(n, op, b, a)
  {
    hide Pow2;
    if n > 0 {
      BitsCommute(n - 1, op, a / 2, b / 2);
    }
  }

  lemma DoubleMod(a: int, p: int)
    requires p > 0
    ensures a % (2 * p) == a % 2 + 2 * (a / 2 % p)
  {
    var t, u := a / 2 / p, a / 2 % p;
    assert a / 2 == p * t + u;
    assert 2 * (p * t) == (2 * p) * t;
    DivModUnique(a, 2 * p, t, 2 * u + a % 2);
  }

  /** The remainder, under a name that can be kept apart from its arithmetic. */
  function Mod(a: int, p: int): int
    requires p > 0
  {
    a % p
  }

  lemma ModHalves(a: nat, p: int)
    requires p > 0
    ensures Mod(a, 2 * p) == a % 2 + 2 * Mod(a / 2, p)
  {
    DoubleMod(a, p);
  }

  lemma NoBitsLeft(n: nat, k: nat, a: nat)
    requires k == 0
    ensures Bits(n, BAnd, a, Pow2(k) - 1) == Mod(a, Pow2(k))
  {
    BitsAndBounded(n, a, 0);
  }

  lemma OddMask(n: nat, a: nat, p: int)
    requires n > 0 && p > 0
    ensures Bits(n, BAnd, a, 2 * p - 1) == a % 2 + 2 * Bits(n - 1, BAnd, a / 2, p - 1)
  {
    hide Pow2;
    var m := 2 * p - 1;
    assert m / 2 == p - 1 && m % 2 == 1;
  }

  lemma Pow2Twice(k: nat)
    requires k > 0
    ensures Pow2(k) == 2 * Pow2(k - 1)
  {
  }

  lemma {:induction false} BitsMask(n: nat, k: nat, a: nat)
    requires k <= n
    ensures Bits(n, BAnd, a, Pow2(k) - 1) == Mod(a, Pow2(k))
  {
    hide Pow2, Mod, Bits;
    if k == 0 {
      NoBitsLeft(n, k, a);
    } else {
      BitsMask(n - 1, k - 1, a / 2);
      Pow2Twice(k);
      ModHalves(a, Pow2(k - 1));
      OddMask(n, a, Pow2(k - 1));
    }
  }

  /** An `and` with the low `k` ones keeps the low `k` bits. */
  lemma AndMask(k: nat, a: Word, m: Word)
    requires k <= 64 && m == Pow2(k) - 1
    ensures BitWord(BAnd, a, m) == a % Pow2(k)
  {
    BitsMask(64, k, a);
  }

  // ---- bytes ----

  /** Byte `i` of `v`, counting from the least significant. */
  function Digit(v: nat, i: nat): Byte {
    if i == 0 then v % 256 else Digit(v / 256, i - 1)
  }

  /** The low `w` bytes of `v`. */
  function Low(v: nat, w: nat): nat {
    if w == 0 then 0 else v % 256 + 256 * Low(v / 256, w - 1)
  }

  lemma {:induction false} LowDigits(v: nat, w: nat, i: nat)
    requires i < w
    ensures Digit(Low(v, w), i) == Digit(v, i)
  {
    var rest := Low(v / 256, w - 1);
    assert Low(v, w) % 256 == v % 256 && Low(v, w) / 256 == rest;
    if i > 0 {
      LowDigits(v / 256, w - 1, i - 1);
    }
  }

  lemma ByteMod(v: nat, p: int)
    requires p > 0
    ensures Mod(v, 256 * p) == v % 256 + 256 * Mod(v / 256, p)
  {
    var t, u := v / 256 / p, v / 256 % p;
    assert v / 256 == p * t + u;
    MulAssoc3(256, p, t);
    DivModUnique(v, 256 * p, t, 256 * u + v % 256);
  }

  lemma MulAssoc3(a: int, b: int, c: int)
    ensures a * (b * c) == (a * b) * c
  {
  }

  lemma PowBytes(w: nat)
    requires w > 0
    ensures Pow2(8 * w) == 256 * Pow2(8 * (w - 1))
  {
    Pow2Word();
    Pow2Add(8, 8 * (w - 1));
    assert 8 * w == 8 + 8 * (w - 1);
  }

  lemma {:induction false} LowIsMod(v: nat, w: nat)
    ensures Low(v, w) == Mod(v, Pow2(8 * w))
  {
    if w > 0 {
      LowIsMod(v / 256, w - 1);
      PowBytes(w);
      hide Pow2, Mod;
      ByteMod(v, Pow2(8 * (w - 1)));
    } else {
      assert Pow2(0) == 1;
    }
  }

  lemma LowWidths(v: Word)
    ensures Low(v, 1) == v % 0x100
    ensures Low(v, 2) == v % 0x1_0000
    ensures Low(v, 4) == v % W32
    ensures Low(v, 8) == v
  {
    hide Low, Pow2;
    Pow2Word();
    LowIsMod(v, 1);
    LowIsMod(v, 2);
    LowIsMod(v, 4);
    LowIsMod(v, 8);
  }
}
