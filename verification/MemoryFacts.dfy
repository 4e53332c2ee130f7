/** What loads and stores of up to eight bytes do to one another. */
module MemoryFacts {
  import opened Words
  import opened Machine

  /** The byte ranges of two displacements from one base meet. */
  predicate RangesOverlap(a: int, aw: nat, b: int, bw: nat) {
    a < b + bw && b < a + aw
  }

  lemma WrapNear(v: int)
    requires -W64 <= v < 2 * W64
    ensures Wrap(v) == if v < 0 then v + W64 else if v < W64 then v else v - W64
  {
  }

  lemma NextInRange(a: Word, w: nat, b: Word)
    requires 0 < w <= 8
    ensures InRange(a, w, b) <==> b == a || InRange(Next(a), w - 1, b)
    ensures InRange(Next(a), w - 1, b) ==> Gap(a, b) == Gap(Next(a), b) + 1
  {
  }

  lemma {:induction false} LoadSame(m: Memory, m': Memory, a: Word, w: nat)
    requires w <= 8 && forall b: Word :: InRange(a, w, b) ==> Byte0(m', b) == Byte0(m, b)
    ensures LoadLE(m', a, w) == LoadLE(m, a, w)
    decreases w
  {
    if w > 0 {
      assert InRange(a, w, a);
      forall b: Word | InRange(Next(a), w - 1, b)
        ensures Byte0(m', b) == Byte0(m, b)
      {
        NextInRange(a, w, b);
      }
      LoadSame(m, m', Next(a), w - 1);
    }
  }

  lemma {:induction false} LoadIsLow(m: Memory, a: Word, w: nat, v: nat)
    requires w <= 8 && forall b: Word :: InRange(a, w, b) ==> Byte0(m, b) == Digit(v, Gap(a, b))
    ensures LoadLE(m, a, w) == Low(v, w)
    decreases w
  {
    if w > 0 {
      assert InRange(a, w, a);
      forall b: Word | InRange(Next(a), w - 1, b)
        ensures Byte0(m, b) == Digit(v / 256, Gap(Next(a), b))
      {
        NextInRange(a, w, b);
      }
      LoadIsLow(m, Next(a), w - 1, v / 256);
    }
  }

  lemma {:induction false} DigitOfLoad(m: Memory, a: Word, w: nat, b: Word)
    requires w <= 8 && InRange(a, w, b)
    ensures Digit(LoadLE(m, a, w), Gap(a, b)) == Byte0(m, b)
    decreases w
  {
    var rest := LoadLE(m, Next(a), w - 1);
    assert LoadLE(m, a, w) % 256 == Byte0(m, a) && LoadLE(m, a, w) / 256 == rest;
    if b != a {
      NextInRange(a, w, b);
      DigitOfLoad(m, Next(a), w - 1, b);
    }
  }

  /** A load of what was just stored reads the low bytes of the value. */
  lemma LoadAfterStore(m: Memory, a: Word, w: nat, v: nat)
    requires w <= 8
    ensures LoadLE(StoreLE(m, a, w, v), a, w) == Low(v, w)
  {
    hide InRange, Gap, Digit;
    LoadIsLow(StoreLE(m, a, w, v), a, w, v);
  }

  /** Displacements from one base that do not overlap name different bytes, even
      where the addresses wrap. */
  lemma DisjointBytes(base: Word, d1: int, w1: nat, d2: int, w2: nat, b: Word)
    requires w1 <= 8 && w2 <= 8 && -2048 <= d1 <= 2047 && -2048 <= d2 <= 2047
    requires !RangesOverlap(d1, w1, d2, w2)
    requires InRange(Wrap(base + d2), w2, b)
    ensures !InRange(Wrap(base + d1), w1, b)
  {
    WrapNear(base + d1);
    WrapNear(base + d2);
    hide Wrap;
  }

  /** A store misses a load through the same base at a disjoint displacement. */
  lemma LoadMissesStore(m: Memory, base: Word, d1: int, w1: nat, v: nat, d2: int, w2: nat)
    requires w1 <= 8 && w2 <= 8 && -2048 <= d1 <= 2047 && -2048 <= d2 <= 2047
    requires !RangesOverlap(d1, w1, d2, w2)
    ensures LoadLE(StoreLE(m, Wrap(base + d1), w1, v), Wrap(base + d2), w2) == LoadLE(m, Wrap(base + d2), w2)
  {
    hide InRange, Wrap, Digit, Gap, RangesOverlap;
    var m' := StoreLE(m, Wrap(base + d1), w1, v);
    var a := Wrap(base + d2);
    forall b: Word | InRange(a, w2, b)
      ensures Byte0(m', b) == Byte0(m, b)
    {
      DisjointBytes(base, d1, w1, d2, w2, b);
    }
    LoadSame(m, m', a, w2);
  }

  /** Every address holds a byte. */
  ghost predicate Mapped(m: Memory) {
    forall a: Word :: a in m
  }

  /** Storing the bytes that are already there changes nothing. */
  lemma StoreOfSameBytes(m: Memory, a: Word, w: nat, v: Word)
    requires Mapped(m) && w <= 8 && Low(v, w) == LoadLE(m, a, w)
    ensures StoreLE(m, a, w, v) == m
  {
    hide Gap, Digit, Low, LoadLE;
    var m' := StoreLE(m, a, w, v);
    forall b: Word
      ensures m'[b] == m[b]
    {
      if InRange(a, w, b) {
        LowDigits(v, w, Gap(a, b));
        DigitOfLoad(m, a, w, b);
      }
    }
  }

  lemma LoadBound4(m: Memory, a: Word)
    ensures LoadLE(m, a, 1) < 0x100
    ensures LoadLE(m, a, 2) < 0x1_0000
    ensures LoadLE(m, a, 4) < W32
  {
    var b, c := Next(a), Next(Next(a));
    assert LoadLE(m, Next(c), 1) < 0x100;
    assert LoadLE(m, c, 2) == Byte0(m, c) + 256 * LoadLE(m, Next(c), 1);
    assert LoadLE(m, b, 3) == Byte0(m, b) + 256 * LoadLE(m, c, 2);
    assert LoadLE(m, b, 1) == Byte0(m, b);
  }

  lemma LoadBound8(m: Memory, a: Word)
    ensures LoadLE(m, a, 8) < W64
  {
    var b, c, d := Next(a), Next(Next(a)), Next(Next(Next(a)));
    LoadBound4(m, Next(d));
    assert LoadLE(m, d, 5) == Byte0(m, d) + 256 * LoadLE(m, Next(d), 4);
    assert LoadLE(m, c, 6) == Byte0(m, c) + 256 * LoadLE(m, d, 5);
    assert LoadLE(m, b, 7) == Byte0(m, b) + 256 * LoadLE(m, c, 6);
  }

  /** Extending keeps the bytes extended. */
  lemma ExtendKeepsLow(k: MemKind, v: nat)
    requires !k.IsStore() && v < (match k.Width() case 1 => 0x100 case 2 => 0x1_0000 case 4 => W32 case _ => W64)
    ensures Low(Extend(k, v), k.Width()) == v
  {
    hide Low, Sext;
    match k {
      case LB => SextKeepsLow(v, 0x100);
      case LH => SextKeepsLow(v, 0x1_0000);
      case LW => SextKeepsLow(v, W32);
      case FLW => BoxKeepsLow(v);
      case _ => WordKeepsLow(v, k.Width());
    }
  }

  lemma SextKeepsLow(v: nat, m: int)
    requires (m == 0x100 || m == 0x1_0000 || m == W32) && v < m
    ensures Low(Sext(v, m), if m == 0x100 then 1 else if m == 0x1_0000 then 2 else 4) == v
  {
    SextLow(v, m);
    LowPlus(v, m, 0);
    LowWidths(Sext(v, m));
    hide Low, Sext;
  }

  lemma BoxKeepsLow(v: nat)
    requires v < W32
    ensures Low(Box(v), 4) == v
  {
    LowPlus(v, W32, 0xffff_ffff);
    LowWidths(Box(v));
    hide Low;
  }

  lemma WordKeepsLow(v: nat, w: nat)
    requires (w == 1 && v < 0x100) || (w == 2 && v < 0x1_0000) || (w == 4 && v < W32) || (w == 8 && v < W64)
    ensures Low(Wrap(v), w) == v
  {
    LowWidths(v);
    LowPlus(v, W64, 0);
    if w == 1 {
      LowPlus(v, 0x100, 0);
    } else if w == 2 {
      LowPlus(v, 0x1_0000, 0);
    } else if w == 4 {
      LowPlus(v, W32, 0);
    }
    hide Low;
  }

  /** The bytes a load read, recovered from what it left in the register. */
  lemma BytesOfExtend(k: MemKind, m: Memory, a: Word)
    requires !k.IsStore()
    ensures Low(Extend(k, LoadLE(m, a, k.Width())), k.Width()) == LoadLE(m, a, k.Width())
  {
    hide Low, LoadLE, Extend;
    LoadBounded(m, a, k);
    ExtendKeepsLow(k, LoadLE(m, a, k.Width()));
  }

  lemma LoadBounded(m: Memory, a: Word, k: MemKind)
    ensures LoadLE(m, a, k.Width()) < match k.Width() case 1 => 0x100 case 2 => 0x1_0000 case 4 => W32 case _ => W64
  {
    hide LoadLE;
    LoadBound4(m, a);
    LoadBound8(m, a);
  }

  lemma SextLow(v: int, m: int)
    requires m == 0x100 || m == 0x1_0000 || m == W32
    ensures Sext(v, m) % m == v % m
  {
    var low := v % m;
    if m == 0x100 {
      LowPlus(low, 0x100, 0xff_ffff_ffff_ffff);
    } else if m == 0x1_0000 {
      LowPlus(low, 0x1_0000, 0xffff_ffff_ffff);
    } else {
      LowPlus(low, W32, 0xffff_ffff);
    }
  }

  /** A multiple of the modulus on top changes nothing below. */
  lemma LowPlus(low: int, m: int, q: int)
    requires 0 <= low < m
    ensures (low + m * q) % m == low && low % m == low
  {
    DivModUnique(low + m * q, m, q, low);
    DivModUnique(low, m, 0, low);
  }

  /** Extensions look at the low part only. */
  lemma SextOfLow(v: int, m: int)
    requires m == 0x100 || m == 0x1_0000 || m == W32
    ensures Sext(v % m, m) == Sext(v, m)
  {
    assert v % m % m == v % m;
  }

  lemma BoxOfLow(v: int)
    ensures Box(v % W32) == Box(v) && Box(v) % W32 == v % W32
    ensures Sext(Box(v), W32) == Sext(v, W32) && Box(Sext(v, W32)) == Box(v)
  {
    SextLow(v, W32);
  }
}
