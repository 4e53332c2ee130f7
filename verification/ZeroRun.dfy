/** A run of abutting stores of zero, and the cover that takes its place. */
module ZeroRun {
  import opened Words
  import opened Wrappers
  import opened Machine
  import opened MemoryFacts
  import opened Sweep
  import opened Deletion
  import opened DeletionChecks
  import opened ZeroCover

  datatype Zero = Zero(off: int, w: int)

  // ---- memory ----

  /** Memory after the stores, `x` in their base register. */
  ghost function Zeroed(m: Memory, x: int, zs: seq<Zero>): Memory {
    if zs == [] then m else StoreZero(Zeroed(m, x, zs[..|zs| - 1]), x, zs[|zs| - 1])
  }

  ghost function StoreZero(m: Memory, x: int, z: Zero): Memory {
    StoreLE(m, Wrap(x + z.off), if z.w >= 0 then z.w else 0, 0)
  }

  lemma {:induction false} NoDigits(i: nat)
    ensures Digit(0, i) == 0
  {
    if i > 0 {
      NoDigits(i - 1);
    }
  }

  predicate InEither(a: Word, n: nat, b: Word, w: nat, c: Word) {
    InRange(a, n, c) || InRange(b, w, c)
  }

  lemma RangesMeet(a: Word, n: nat, b: Word, w: nat, c: Word)
    requires n + w < W64 && b == Wrap(a + n)
    ensures InRange(a, n + w, c) <==> InEither(a, n, b, w, c)
  {
    WrapNear(a + n);
    hide Wrap;
  }

  /** Two abutting ranges of zeros are one, whichever was stored first. */
  lemma Abut(m: Memory, x: int, lo: int, mid: int, hi: int)
    requires lo <= mid <= hi < lo + W64
    ensures var low, high, all := Zero(lo, mid - lo), Zero(mid, hi - mid), Zero(lo, hi - lo);
            StoreZero(StoreZero(m, x, low), x, high) == StoreZero(m, x, all) == StoreZero(StoreZero(m, x, high), x, low)
  {
    hide InRange, Gap, Digit, Wrap;
    var a, b := Wrap(x + lo), Wrap(x + mid);
    WrapTwice(x + lo, mid - lo);
    var n, n1, n2 := hi - lo, mid - lo, hi - mid;
    forall c: Word ensures InRange(a, n, c) <==> InEither(a, n1, b, n2, c) { RangesMeet(a, n1, b, n2, c); }
    forall i: nat ensures Digit(0, i) == 0 { NoDigits(i); }
    var low, high, all := Zero(lo, mid - lo), Zero(mid, hi - mid), Zero(lo, hi - lo);
    assert StoreZero(StoreZero(m, x, low), x, high) == StoreZero(m, x, all);
    assert StoreZero(StoreZero(m, x, high), x, low) == StoreZero(m, x, all);
  }

  lemma WrapTwice(u: int, n: int)
    ensures Wrap(Wrap(u) + n) == Wrap(u + n)
  {
  }

  /** Stores that abut those before them, at either end. */
  predicate Abutting(zs: seq<Zero>, lo: int, hi: int) {
    if zs == [] then lo == hi
    else
      var z, rest := zs[|zs| - 1], zs[..|zs| - 1];
      && z.w > 0
      && ((z.off + z.w == hi && Abutting(rest, lo, z.off)) || (z.off == lo && Abutting(rest, lo + z.w, hi)))
  }

  lemma NothingStored(m: Memory, x: int, lo: int)
    ensures StoreZero(m, x, Zero(lo, 0)) == m
  {
  }

  /** Such stores zero exactly the range they make up. */
  lemma {:induction false} AbuttingZero(m: Memory, x: int, zs: seq<Zero>, lo: int, hi: int)
    requires Abutting(zs, lo, hi) && hi < lo + W64
    ensures lo <= hi && Zeroed(m, x, zs) == StoreZero(m, x, Zero(lo, hi - lo))
    decreases |zs|
  {
    hide StoreZero;
    if zs == [] {
      NothingStored(m, x, lo);
    } else {
      var z, rest := zs[|zs| - 1], zs[..|zs| - 1];
      if z.off + z.w == hi && Abutting(rest, lo, z.off) {
        AbuttingZero(m, x, rest, lo, z.off);
        Abut(m, x, lo, z.off, hi);
      } else {
        AbuttingZero(m, x, rest, lo + z.w, hi);
        Abut(m, x, lo, lo + z.w, hi);
      }
    }
  }

  // ---- the cover as stores ----

  function Laid(lo: int, ws: seq<int>): (zs: seq<Zero>)
    ensures |zs| == |ws|
    decreases |ws|
  {
    if ws == [] then [] else [Zero(lo, ws[0])] + Laid(lo + ws[0], ws[1..])
  }

  lemma {:induction false} AbuttingFrom(z: Zero, zs: seq<Zero>, lo: int, hi: int)
    requires z.w > 0 && z.off + z.w == lo && Ascending(zs, lo, hi)
    ensures Ascending([z] + zs, z.off, hi)
    decreases |zs|
  {
    var all := [z] + zs;
    if zs == [] {
      assert all[..0] == [];
    } else {
      assert all[..|all| - 1] == [z] + zs[..|zs| - 1];
      AbuttingFrom(z, zs[..|zs| - 1], lo, zs[|zs| - 1].off);
    }
  }

  predicate Ascending(zs: seq<Zero>, lo: int, hi: int) {
    if zs == [] then lo == hi
    else
      var z := zs[|zs| - 1];
      z.w > 0 && z.off + z.w == hi && Ascending(zs[..|zs| - 1], lo, z.off)
  }

  lemma {:induction false} AscendingAbuts(zs: seq<Zero>, lo: int, hi: int)
    requires Ascending(zs, lo, hi)
    ensures Abutting(zs, lo, hi)
    decreases |zs|
  {
    if zs != [] {
      AscendingAbuts(zs[..|zs| - 1], lo, zs[|zs| - 1].off);
    }
  }

  lemma {:induction false} TilingAscends(lo: int, hi: int, ws: seq<int>)
    requires Tiles(lo, hi, ws)
    ensures Ascending(Laid(lo, ws), lo, hi)
    decreases |ws|
  {
    if ws != [] {
      TilingAscends(lo + ws[0], hi, ws[1..]);
      AbuttingFrom(Zero(lo, ws[0]), Laid(lo + ws[0], ws[1..]), lo + ws[0], hi);
    }
  }

  /** Any cover stores what any run over the same range does. */
  lemma CoverStoresTheSame(m: Memory, x: int, zs: seq<Zero>, lo: int, hi: int)
    requires Abutting(zs, lo, hi) && lo < hi < lo + W64
    ensures Zeroed(m, x, Laid(lo, Greedy(lo, hi))) == Zeroed(m, x, zs)
  {
    hide Zeroed, Abutting, Greedy, Laid;
    GreedyTiles(lo, hi);
    TilingAscends(lo, hi, Greedy(lo, hi));
    AscendingAbuts(Laid(lo, Greedy(lo, hi)), lo, hi);
    AbuttingZero(m, x, Laid(lo, Greedy(lo, hi)), lo, hi);
    AbuttingZero(m, x, zs, lo, hi);
  }

  // ---- the run in the code ----

  /** A store of x0 to the frame. */
  function ZeroStore(p: Program, a: Word): Option<Insn> {
    if a !in p.code || !Readable(p, a) then None
    else
      var i := p.code[a].insn;
      if i.Store? && i.kind.IsStore() && !i.kind.IsFp() && i.data == 0 && (i.base == 2 || i.base == 8) then Some(i)
          else None
  }

  datatype Stretch = Stretch(lo: int, hi: int, zs: seq<Zero>, at: seq<Word>, bytes: nat, end: Word)

  function AsZero(i: Insn): Zero {
    if i.Store? then Zero(i.off, i.kind.Width()) else Zero(0, 0)
  }

  function PriceOf(z: Zero, base: Reg): nat {
    ZeroBytes(z.w, base, z.off)
  }

  /** The run with the store at its end added, if it may be. */
  function Grown(p: Program, base: Reg, r: Stretch): Option<Stretch> {
    if IsTarget(p, r.end) || ZeroStore(p, r.end).None? || ZeroStore(p, r.end).value.base != base then None
    else
      var z := AsZero(ZeroStore(p, r.end).value);
      var zs, at, bytes, end := r.zs + [z], r.at + [r.end], r.bytes + PriceOf(z, base), Wrap(r.end + p.code[r.end].len);
      if z.off == r.hi then Some(Stretch(r.lo, z.off + z.w, zs, at, bytes, end))
      else if z.off + z.w == r.lo then Some(Stretch(z.off, r.hi, zs, at, bytes, end))
      else None
  }

  function Begun(p: Program, a: Word): Stretch
    requires ZeroStore(p, a).Some?
  {
    var i := ZeroStore(p, a).value;
    var z := AsZero(i);
    Stretch(z.off, z.off + z.w, [z], [a], PriceOf(z, i.base), Wrap(a + p.code[a].len))
  }

  lemma GrownGoesOn(p: Program, base: Reg, r: Stretch)
    requires WellFormed(p) && Grown(p, base, r).Some?
    ensures r.end < Grown(p, base, r).value.end == r.end + p.code[r.end].len
  {
    hide WellFormed, IsTarget, PriceOf;
    Placed(p, r.end);
  }

  function Full(p: Program, base: Reg, r: Stretch): Stretch
    requires WellFormed(p)
    decreases W64 - r.end
  {
    if Grown(p, base, r).None? then r
    else
      GrownGoesOn(p, base, r);
      Full(p, base, Grown(p, base, r).value)
  }

  /** The finding at `a` given where the last run ended, and where this one does. */
  function ZeroCheck(p: Program, a: Word, mark: Word): (Option<Stretch>, Word)
    requires WellFormed(p)
  {
    if a < mark || ZeroStore(p, a).None? then (None, mark)
    else
      var base := ZeroStore(p, a).value.base;
      var r := Full(p, base, Begun(p, a));
      var ws := Greedy(r.lo, r.hi);
      (if |r.zs| >= 2 && |ws| < |r.zs| && Cost(r.lo, ws, base) < r.bytes then Some(r) else None, r.end)
  }

  /** Number `k` of the run is the store at `at[k]`, and the next follows it. */
  ghost predicate StoreIs(p: Program, base: Reg, r: Stretch, k: nat) {
    && k < |r.at| == |r.zs| && r.at[k] in p.code && ZeroStore(p, r.at[k]).Some?
    && p.code[r.at[k]].insn.base == base && r.zs[k] == AsZero(p.code[r.at[k]].insn)
    && r.at[k] + p.code[r.at[k]].len == (if k + 1 < |r.at| then r.at[k + 1] else r.end)
    && (k > 0 ==> !IsTarget(p, r.at[k]))
  }

  ghost predicate IsRun(p: Program, a: Word, base: Reg, r: Stretch) {
    && |r.at| == |r.zs| > 0 && r.at[0] == a && a < r.end
    && (forall k :: 0 <= k < |r.at| ==> StoreIs(p, base, r, k))
    && Abutting(r.zs, r.lo, r.hi) && -2048 <= r.lo < r.hi <= 2055
    && r.bytes == Prices(r.zs, base)
  }

  function Prices(zs: seq<Zero>, base: Reg): nat {
    if zs == [] then 0 else Prices(zs[..|zs| - 1], base) + PriceOf(zs[|zs| - 1], base)
  }

  lemma StoreFits(p: Program, a: Word)
    requires WellFormed(p) && ZeroStore(p, a).Some?
    ensures var z := AsZero(p.code[a].insn); -2048 <= z.off <= 2047 && IsWidth(z.w)
  {
    hide WellFormed;
    Placed(p, a);
  }

  lemma BegunIsRun(p: Program, a: Word)
    requires WellFormed(p) && ZeroStore(p, a).Some?
    ensures IsRun(p, a, ZeroStore(p, a).value.base, Begun(p, a))
  {
    hide WellFormed, IsTarget, PriceOf;
    Placed(p, a);
    StoreFits(p, a);
    var r := Begun(p, a);
    assert r.zs[..0] == [];
    assert Prices([], p.code[a].insn.base) == 0;
    assert r.bytes == Prices(r.zs, p.code[a].insn.base);
    assert Abutting(r.zs[..0], r.lo, r.lo);
    assert Abutting(r.zs, r.lo, r.hi);
    assert StoreIs(p, ZeroStore(p, a).value.base, r, 0);
  }

  lemma StoreStays(p: Program, base: Reg, r: Stretch, k: nat)
    requires StoreIs(p, base, r, k) && Grown(p, base, r).Some?
    ensures StoreIs(p, base, Grown(p, base, r).value, k)
  {
    hide IsTarget, PriceOf, ZeroStore;
  }

  lemma StoreAdded(p: Program, base: Reg, r: Stretch)
    requires WellFormed(p) && Grown(p, base, r).Some? && |r.at| == |r.zs|
    ensures StoreIs(p, base, Grown(p, base, r).value, |r.at|)
  {
    hide IsTarget, PriceOf, WellFormed;
    GrownGoesOn(p, base, r);
  }

  lemma GrownAbuts(p: Program, base: Reg, r: Stretch)
    requires WellFormed(p) && Grown(p, base, r).Some? && Abutting(r.zs, r.lo, r.hi) && -2048 <= r.lo < r.hi <= 2055
    requires r.bytes == Prices(r.zs, base)
    ensures var g := Grown(p, base, r).value;
            Abutting(g.zs, g.lo, g.hi) && -2048 <= g.lo < g.hi <= 2055 && g.bytes == Prices(g.zs, base)
  {
    hide IsTarget, PriceOf, WellFormed, Abutting;
    StoreFits(p, r.end);
    var g := Grown(p, base, r).value;
    var z := g.zs[|r.zs|];
    assert g.zs[..|g.zs| - 1] == r.zs;
    AbuttingOne(g.zs, r.lo, r.hi);
  }

  lemma AbuttingOne(zs: seq<Zero>, lo: int, hi: int)
    requires zs != [] && zs[|zs| - 1].w > 0 && Abutting(zs[..|zs| - 1], lo, hi)
    ensures var z := zs[|zs| - 1];
            (z.off == hi ==> Abutting(zs, lo, z.off + z.w)) && (z.off + z.w == lo ==> Abutting(zs, z.off, hi))
  {
  }

  lemma GrownIsRun(p: Program, a: Word, base: Reg, r: Stretch)
    requires WellFormed(p) && IsRun(p, a, base, r) && Grown(p, base, r).Some?
    ensures IsRun(p, a, base, Grown(p, base, r).value)
  {
    hide WellFormed, StoreIs, Abutting, PriceOf, IsTarget, ZeroStore, Prices;
    var g := Grown(p, base, r).value;
    GrownAbuts(p, base, r);
    GrownGoesOn(p, base, r);
    StoreAdded(p, base, r);
    forall k | 0 <= k < |r.at| ensures StoreIs(p, base, g, k) { StoreStays(p, base, r, k); }
  }

  lemma {:induction false} FullIsRun(p: Program, a: Word, base: Reg, r: Stretch)
    requires WellFormed(p) && IsRun(p, a, base, r)
    ensures IsRun(p, a, base, Full(p, base, r))
    decreases W64 - r.end
  {
    hide WellFormed, IsRun, Grown;
    if Grown(p, base, r).Some? {
      GrownIsRun(p, a, base, r);
      GrownGoesOn(p, base, r);
      FullIsRun(p, a, base, Grown(p, base, r).value);
    }
  }

  // ---- when the price alone decides ----

  predicate Aligned(z: Zero) {
    IsWidth(z.w) && z.off % z.w == 0
  }

  /** The widths of the run from the low end up. */
  function Ordered(zs: seq<Zero>, lo: int, hi: int): (ws: seq<int>)
    ensures |ws| == |zs|
  {
    if zs == [] then []
    else
      var z, rest := zs[|zs| - 1], zs[..|zs| - 1];
      if z.off + z.w == hi && Abutting(rest, lo, z.off) then Ordered(rest, lo, z.off) + [z.w]
      else [z.w] + Ordered(rest, lo + z.w, hi)
  }

  lemma {:induction false} TilesWithLast(lo: int, mid: int, ws: seq<int>, w: int, base: Reg)
    requires Tiles(lo, mid, ws) && Fits(mid, w, mid + w)
    ensures Tiles(lo, mid + w, ws + [w]) && Cost(lo, ws + [w], base) == Cost(lo, ws, base) + ZeroBytes(w, base, mid)
    decreases |ws|
  {
    hide ZeroBytes;
    if ws == [] {
      assert ([] + [w])[1..] == [];
    } else {
      TilesWithLast(lo + ws[0], mid, ws[1..], w, base);
      assert (ws + [w])[1..] == ws[1..] + [w];
    }
  }

  lemma {:induction false} AlignedRunTiles(zs: seq<Zero>, lo: int, hi: int, base: Reg)
    requires Abutting(zs, lo, hi) && forall k :: 0 <= k < |zs| ==> Aligned(zs[k])
    ensures lo <= hi && Tiles(lo, hi, Ordered(zs, lo, hi)) && Cost(lo, Ordered(zs, lo, hi), base) == Prices(zs, base)
    decreases |zs|
  {
    hide ZeroBytes;
    if zs != [] {
      var z, rest := zs[|zs| - 1], zs[..|zs| - 1];
      assert Aligned(z);
      if z.off + z.w == hi && Abutting(rest, lo, z.off) {
        AlignedRunTiles(rest, lo, z.off, base);
        TilesWithLast(lo, z.off, Ordered(rest, lo, z.off), z.w, base);
      } else {
        AlignedRunTiles(rest, lo + z.w, hi, base);
        var ws := Ordered(zs, lo, hi);
        assert ws[0] == z.w && ws[1..] == Ordered(rest, lo + z.w, hi);
      }
    }
  }

  /** How many of a cover's stores, and of a run's, are of two bytes. */
  function Shorter(lo: int, ws: seq<int>, base: Reg): nat
    decreases |ws|
  {
    if ws == [] then 0 else (if ZeroBytes(ws[0], base, lo) == 2 then 1 else 0) + Shorter(lo + ws[0], ws[1..], base)
  }

  function ShortIn(zs: seq<Zero>, base: Reg): nat {
    if zs == [] then 0 else ShortIn(zs[..|zs| - 1], base) + if PriceOf(zs[|zs| - 1], base) == 2 then 1 else 0
  }

  lemma {:induction false} CostCounts(lo: int, ws: seq<int>, base: Reg)
    ensures Cost(lo, ws, base) == 4 * |ws| - 2 * Shorter(lo, ws, base)
    decreases |ws|
  {
    hide ZeroBytes;
    if ws != [] {
      CostCounts(lo + ws[0], ws[1..], base);
    }
  }

  lemma {:induction false} PriceCounts(zs: seq<Zero>, base: Reg)
    ensures Prices(zs, base) == 4 * |zs| - 2 * ShortIn(zs, base)
  {
    hide ZeroBytes;
    if zs != [] {
      PriceCounts(zs[..|zs| - 1], base);
    }
  }

  predicate AllAligned(zs: seq<Zero>) {
    forall k :: 0 <= k < |zs| ==> Aligned(zs[k])
  }

  /** The price decides alone, so that a cover that costs less is a shorter one, exactly
      when the cover is shorter or has not two-byte stores to spare: two more than the run
      for every store it has more. */
  lemma PriceDecides(p: Program, a: Word, base: Reg, r: Stretch)
    requires IsRun(p, a, base, r)
    ensures var ws := Greedy(r.lo, r.hi);
            (Cost(r.lo, ws, base) < r.bytes ==> |ws| < |r.zs|) <==>
            (|ws| < |r.zs| || Shorter(r.lo, ws, base) <= ShortIn(r.zs, base) + 2 * (|ws| - |r.zs|))
  {
    hide StoreIs, Greedy, Abutting, Shorter, ShortIn, Cost, Prices;
    CostCounts(r.lo, Greedy(r.lo, r.hi), base);
    PriceCounts(r.zs, base);
  }

  /** No store the cover may have is of two bytes: only words and doublewords off sp at 0
      to 504 are. */
  predicate OutOfShortReach(lo: int, hi: int, base: Reg) {
    base != 2 || hi < 4 || 504 < lo
  }

  /** It does for every run of aligned stores, no tiling at all costing less than the
      cover, and for every other that is not off the stack pointer or lies where no store
      off it is of two bytes. */
  lemma AlignedDecides(p: Program, a: Word, base: Reg, r: Stretch)
    requires IsRun(p, a, base, r) && (AllAligned(r.zs) || OutOfShortReach(r.lo, r.hi, base))
    ensures var ws := Greedy(r.lo, r.hi); Cost(r.lo, ws, base) < r.bytes ==> |ws| < |r.zs|
    ensures AllAligned(r.zs) ==> Cost(r.lo, Greedy(r.lo, r.hi), base) <= r.bytes
  {
    hide StoreIs, Greedy, Abutting, Tiles, Aligned, Cost, Prices, Shorter, ShortIn;
    if AllAligned(r.zs) {
      AlignedRunTiles(r.zs, r.lo, r.hi, base);
      GreedyIsMinimal(r.lo, r.hi, Ordered(r.zs, r.lo, r.hi), base);
    } else {
      assert r.lo <= r.hi by { RunGrows(r.zs, r.lo, r.hi); }
      GreedyTiles(r.lo, r.hi);
      NoneShorter(r.lo, r.hi, Greedy(r.lo, r.hi), base);
      PriceDecides(p, a, base, r);
    }
  }

  lemma {:induction false} RunGrows(zs: seq<Zero>, lo: int, hi: int)
    requires Abutting(zs, lo, hi)
    ensures lo <= hi
  {
    if zs != [] {
      var z, rest := zs[|zs| - 1], zs[..|zs| - 1];
      if z.off + z.w == hi && Abutting(rest, lo, z.off) {
        RunGrows(rest, lo, z.off);
      } else {
        RunGrows(rest, lo + z.w, hi);
      }
    }
  }

  lemma {:induction false} NoneShorter(lo: int, hi: int, ws: seq<int>, base: Reg)
    requires Tiles(lo, hi, ws) && OutOfShortReach(lo, hi, base)
    ensures Shorter(lo, ws, base) == 0 && lo <= hi
    decreases |ws|
  {
    if ws != [] {
      NoneShorter(lo + ws[0], hi, ws[1..], base);
    }
  }

  lemma Takes(lo: int, hi: int, w: int, rest: seq<int>)
    requires lo < hi && Widest(lo, hi, 8) == w && Greedy(lo + w, hi) == rest
    ensures Greedy(lo, hi) == [w] + rest
  {
    hide Widest;
  }

  lemma ThreeCost(lo: int, u: int, v: int, w: int, base: Reg)
    ensures Cost(lo, [u, v, w], base) == ZeroBytes(u, base, lo) + ZeroBytes(v, base, lo + u) + ZeroBytes(w, base,
              lo + u + v)
  {
    hide ZeroBytes;
    assert [u, v, w][1..] == [v, w] && [v, w][1..] == [w] && [w][1..] == [];
    assert Cost(lo + u + v, [w], base) == ZeroBytes(w, base, lo + u + v) + Cost(lo + u + v + w, [], base);
    assert Cost(lo + u, [v, w], base) == ZeroBytes(v, base, lo + u) + Cost(lo + u + v, [w], base);
  }

  lemma TheirCoverOf16()
    ensures Greedy(4, 20) == [4, 8, 4] && Cost(4, [4, 8, 4], 2) == 6
  {
    assert Greedy(20, 20) == [];
    hide Greedy, Cost;
    Takes(16, 20, 4, []);
    Takes(8, 20, 8, [4]);
    Takes(4, 20, 4, [8, 4]);
    ThreeCost(4, 4, 8, 4, 2);
  }

  /** Not so for misaligned ones: two stores of eight bytes at 4 and 12 are eight
      bytes of code, their cover three stores in six. */
  lemma CountDecides()
    ensures var zs, ws := [Zero(4, 8), Zero(12, 8)], Greedy(4, 20);
            Abutting(zs, 4, 20) && Cost(4, ws, 2) < Prices(zs, 2) && |ws| > |zs|
  {
    TheirCoverOf16();
    TwoPrices();
    hide Greedy, Cost, Prices;
    var zs := [Zero(4, 8), Zero(12, 8)];
    assert zs[..1] == [Zero(4, 8)] && [Zero(4, 8)][..0] == [];
  }

  // ---- whether the cover can be encoded ----

  function CoverStore(z: Zero, base: Reg): Insn {
    Store(WidthKind(z.w), 0, base, z.off)
  }

  /** Each of the stores can be encoded. */
  ghost predicate AllEncoded(zs: seq<Zero>, base: Reg) {
    forall z :: z in zs ==> PlainInsn(CoverStore(z, base))
  }

  lemma EncodedFrom(z: Zero, zs: seq<Zero>, base: Reg)
    ensures AllEncoded([z] + zs, base) <==> PlainInsn(CoverStore(z, base)) && AllEncoded(zs, base)
  {
    hide PlainInsn, CoverStore;
    assert z in [z] + zs;
    forall y | y in zs ensures y in [z] + zs {}
  }

  lemma OneEncoded(z: Zero, base: Reg)
    requires IsWidth(z.w) && -2048 <= z.off
    ensures PlainInsn(CoverStore(z, base)) <==> z.off <= 2047
  {
  }

  lemma LaidFrom(lo: int, hi: int)
    requires lo < hi
    ensures var w := Widest(lo, hi, 8);
            && IsWidth(w) && lo + w <= hi && (lo == 2048 ==> lo + w > 2048)
               && (lo < 2048 && hi <= 2048 ==> lo + w <= 2048)
            && (lo < 2048 ==> lo + w <= 2048)
            && Laid(lo, Greedy(lo, hi)) == [Zero(lo, w)] + Laid(lo + w, Greedy(lo + w, hi))
  {
    WidestFits(lo, hi, 8);
    var w := Widest(lo, hi, 8);
    hide Widest;
    var rest := Greedy(lo + w, hi);
    assert Greedy(lo, hi) == [w] + rest && ([w] + rest)[1..] == rest;
    if lo < 2048 { WidthsApart(lo, 2048, w); }
  }

  lemma {:induction false} CoverReaches(lo: int, hi: int, base: Reg)
    requires -2048 <= lo <= hi && lo <= 2048
    ensures AllEncoded(Laid(lo, Greedy(lo, hi)), base) <==> hi <= 2048
    decreases hi - lo
  {
    hide PlainInsn, CoverStore, Widest;
    if lo == hi {
      assert Greedy(lo, hi) == [];
    } else {
      hide Greedy;
      LaidFrom(lo, hi);
      var w := Widest(lo, hi, 8);
      EncodedFrom(Zero(lo, w), Laid(lo + w, Greedy(lo + w, hi)), base);
      OneEncoded(Zero(lo, w), base);
      if lo < 2048 {
        CoverReaches(lo + w, hi, base);
      }
    }
  }

  lemma Added(zs: seq<Zero>, z: Zero, lo: int, hi: int, base: Reg)
    requires Abutting(zs, lo, hi) && z.off == hi && z.w > 0
    ensures Abutting(zs + [z], lo, hi + z.w) && Prices(zs + [z], base) == Prices(zs, base) + PriceOf(z, base)
  {
    assert (zs + [z])[..|zs|] == zs;
  }

  lemma FourStores()
    ensures var zs := [Zero(2038, 1), Zero(2039, 1), Zero(2040, 1), Zero(2041, 8)];
            Abutting(zs, 2038, 2049) && Prices(zs, 2) == 16
  {
    var one := [Zero(2038, 1)];
    var two := one + [Zero(2039, 1)];
    var three := two + [Zero(2040, 1)];
    assert Prices([], 2) == 0 && Abutting([], 2038, 2038);
    hide Abutting, Prices;
    Added([], Zero(2038, 1), 2038, 2038, 2);
    Added(one, Zero(2039, 1), 2038, 2039, 2);
    Added(two, Zero(2040, 1), 2038, 2040, 2);
    Added(three, Zero(2041, 8), 2038, 2041, 2);
    assert [] + one == one;
    assert three + [Zero(2041, 8)] == [Zero(2038, 1), Zero(2039, 1), Zero(2040, 1), Zero(2041, 8)];
  }

  lemma TheirCover()
    ensures Greedy(2038, 2049) == [2, 8, 1] && Cost(2038, [2, 8, 1], 2) == 12
  {
    assert Greedy(2049, 2049) == [];
    hide Greedy, Cost;
    Takes(2048, 2049, 1, []);
    Takes(2040, 2049, 8, [1]);
    Takes(2038, 2049, 2, [8, 1]);
    ThreeCost(2038, 2, 8, 1, 2);
  }

  /** Four stores, cheaper and fewer covered, the last of their cover at 2048. */
  lemma CoverOutOfReach()
    ensures var zs, ws := [Zero(2038, 1), Zero(2039, 1), Zero(2040, 1), Zero(2041, 8)], Greedy(2038, 2049);
            && Abutting(zs, 2038, 2049) && |ws| < |zs| && Cost(2038, ws, 2) < Prices(zs, 2)
            && exists z :: z in Laid(2038, ws) && !PlainInsn(CoverStore(z, 2))
  {
    hide Abutting, Prices, Greedy, Laid, Cost;
    FourStores();
    TheirCover();
    CoverReaches(2038, 2049, 2);
  }

  /** `sd zero,4(sp)` and `sd zero,12(sp)`: their cover is cheaper, and only its count
      stands the check down. */
  function TwoStores(): Program {
    Program(0, 8, map[
      0 := Decoded(Store(SD, 0, 2, 4), 4, {2}),
      4 := Decoded(Store(SD, 0, 2, 12), 4, {2})], {})
  }

  /** The run once the store at its end joins its high end. */
  function Raised(p: Program, base: Reg, r: Stretch, z: Zero): Stretch
    requires r.end in p.code
  {
    Stretch(r.lo, z.off + z.w, r.zs + [z], r.at + [r.end], r.bytes + PriceOf(z, base), Wrap(r.end + p.code[r.end].len))
  }

  lemma GrowsUp(p: Program, base: Reg, r: Stretch, i: Insn)
    requires WellFormed(p) && !IsTarget(p, r.end) && ZeroStore(p, r.end) == Some(i) && i.base == base && i.off == r.hi
    ensures Full(p, base, r) == Full(p, base, Raised(p, base, r, AsZero(i)))
  {
    hide WellFormed, IsTarget, PriceOf;
    assert Grown(p, base, r) == Some(Raised(p, base, r, AsZero(i))) by { hide ZeroStore; }
  }

  /** Code of stores alone, each of four bytes. */
  predicate OnlyStores(p: Program) {
    forall a :: a in p.code ==> p.code[a].insn.Store? && p.code[a].len == 4
  }

  lemma NoTargets(p: Program, a: Word)
    requires OnlyStores(p)
    ensures !IsTarget(p, a)
  {
  }

  lemma TwoStoresPlaced()
    ensures WellFormed(TwoStores())
  {
  }

  lemma TwoStoresAre()
    ensures OnlyStores(TwoStores()) && TwoStores().code.Keys == {0, 4}
    ensures ZeroStore(TwoStores(), 0) == Some(Store(SD, 0, 2, 4))
            && ZeroStore(TwoStores(), 4) == Some(Store(SD, 0, 2, 12))
    ensures ZeroStore(TwoStores(), 8) == None
  {
  }

  /** A run begun, and one more of the same. */
  lemma BegunWith(p: Program, a: Word, i: Insn)
    requires ZeroStore(p, a) == Some(i) && OnlyStores(p) && a + 4 < W64
    ensures Begun(p, a) == Stretch(i.off, i.off + i.kind.Width(), [AsZero(i)], [a], PriceOf(AsZero(i), i.base), a + 4)
  {
    hide PriceOf;
    WrapOfWord(a + 4);
  }

  lemma EndsHere(p: Program, base: Reg, r: Stretch)
    requires WellFormed(p) && ZeroStore(p, r.end) == None
    ensures Full(p, base, r) == r
  {
    hide WellFormed, ZeroStore;
  }

  lemma TwoStoresRun()
    ensures var p := TwoStores();
            && WellFormed(p) && ZeroStore(p, 0) == Some(Store(SD, 0, 2, 4))
            && Full(p, 2, Begun(p, 0)) == Stretch(4, 20, [Zero(4, 8), Zero(12, 8)], [0, 4], 8, 8)
  {
    hide WellFormed, OnlyStores, TwoStores, IsTarget, ZeroStore, PriceOf, Begun, Full;
    TwoStoresPlaced();
    TwoStoresAre();
    var p := TwoStores();
    NoTargets(p, 4);
    MisalignedPrice();
    BegunWith(p, 0, Store(SD, 0, 2, 4));
    FourLong(p, 4);
    var r := Begun(p, 0);
    GrowsUp(p, 2, r, Store(SD, 0, 2, 12));
    EndsHere(p, 2, Raised(p, 2, r, Zero(12, 8)));
    assert [0 as Word] + [4] == [0, 4];
  }

  lemma FourLong(p: Program, a: Word)
    requires OnlyStores(p) && a in p.code
    ensures p.code[a].len == 4
  {
  }

  lemma MisalignedPrice()
    ensures PriceOf(Zero(4, 8), 2) == 4 == PriceOf(Zero(12, 8), 2)
  {
  }

  lemma CountAloneDecides()
    ensures var p := TwoStores();
            var r := Full(p, 2, Begun(p, 0));
            && WellFormed(p) && ZeroCheck(p, 0, 0) == (None, 8)
            && |r.zs| == 2 && Cost(r.lo, Greedy(r.lo, r.hi), 2) < r.bytes
  {
    TwoStoresRun();
    CountDecides();
    assert Prices([Zero(4, 8), Zero(12, 8)], 2) == 8 by { TwoPrices(); }
    hide Full, Begun, WellFormed, Greedy, Cost, TwoStores, Prices, Abutting;
  }

  lemma TwoPrices()
    ensures Prices([Zero(4, 8), Zero(12, 8)], 2) == 8
  {
    var zs := [Zero(4, 8), Zero(12, 8)];
    assert zs[..1] == [Zero(4, 8)] && [Zero(4, 8)][..0] == [];
  }

  /** Three bytes and a doubleword of zero up to the reach of a store. */
  function FarStores(): Program {
    Program(0, 16, map[
      0 := Decoded(Store(SB, 0, 2, 2038), 4, {2}),
      4 := Decoded(Store(SB, 0, 2, 2039), 4, {2}),
      8 := Decoded(Store(SB, 0, 2, 2040), 4, {2}),
      12 := Decoded(Store(SD, 0, 2, 2041), 4, {2})], {})
  }

  lemma FarStorePlaced(a: Word)
    requires a in FarStores().code
    ensures WellPlaced(FarStores(), a, FarStores().code[a]) && a % 4 == 0 && FarStores().code[a].len == 4
  {
  }

  lemma FarStoresPlaced()
    ensures WellFormed(FarStores())
  {
    var p := FarStores();
    forall a | a in p.code ensures WellPlaced(p, a, p.code[a]) && a % 4 == 0 && p.code[a].len == 4 {
      FarStorePlaced(a);
    }
    assert p.vaddr + p.size < W64;
    hide WellPlaced, FarStores;
    forall a, b | a in p.code && b in p.code && a < b ensures a + p.code[a].len <= b { FourApart(a, b); }
  }

  lemma FourApart(a: int, b: int)
    requires a % 4 == 0 && b % 4 == 0 && a < b
    ensures a + 4 <= b
  {
  }

  lemma FarStoresAre()
    ensures OnlyStores(FarStores()) && FarStores().code.Keys == {0, 4, 8, 12}
    ensures ZeroStore(FarStores(), 0) == Some(Store(SB, 0, 2, 2038))
            && ZeroStore(FarStores(), 4) == Some(Store(SB, 0, 2, 2039))
    ensures ZeroStore(FarStores(), 8) == Some(Store(SB, 0, 2, 2040))
            && ZeroStore(FarStores(), 12) == Some(Store(SD, 0, 2, 2041))
    ensures ZeroStore(FarStores(), 16) == None
  {
  }

  lemma FarPrices()
    ensures PriceOf(Zero(2038, 1), 2) == PriceOf(Zero(2039, 1), 2) == PriceOf(Zero(2040, 1), 2) ==
            PriceOf(Zero(2041, 8), 2) == 4
  {
  }

  lemma RaisedBy(p: Program, r: Stretch, i: Insn)
    requires WellFormed(p) && OnlyStores(p) && ZeroStore(p, r.end) == Some(i) && i.base == 2 && i.off == r.hi
    requires PriceOf(AsZero(i), 2) == 4 && r.end + 4 < W64
    ensures var g := Stretch(r.lo, i.off + i.kind.Width(), r.zs + [AsZero(i)], r.at + [r.end], r.bytes + 4, r.end + 4);
            Full(p, 2, r) == Full(p, 2, g)
  {
    hide WellFormed, OnlyStores, IsTarget, PriceOf, Full;
    NoTargets(p, r.end);
    GrowsUp(p, 2, r, i);
    FourLong(p, r.end);
    WrapOfWord(r.end + 4);
  }

  lemma FarStoresRun()
    ensures var p := FarStores();
            && WellFormed(p) && ZeroStore(p, 0) == Some(Store(SB, 0, 2, 2038))
            && Full(p, 2, Begun(p, 0)) ==
               Stretch(2038, 2049, [Zero(2038, 1), Zero(2039, 1), Zero(2040, 1), Zero(2041, 8)], [0, 4, 8, 12], 16, 16)
  {
    hide WellFormed, OnlyStores, FarStores, IsTarget, ZeroStore, PriceOf, Begun, Full;
    FarStoresPlaced();
    FarStoresAre();
    FarPrices();
    var p := FarStores();
    BegunWith(p, 0, Store(SB, 0, 2, 2038));
    var r := Begun(p, 0);
    RaisedBy(p, r, Store(SB, 0, 2, 2039));
    var r2 := Stretch(2038, 2040, r.zs + [Zero(2039, 1)], r.at + [4], 8, 8);
    RaisedBy(p, r2, Store(SB, 0, 2, 2040));
    var r3 := Stretch(2038, 2041, r2.zs + [Zero(2040, 1)], r2.at + [8], 12, 12);
    RaisedBy(p, r3, Store(SD, 0, 2, 2041));
    var r4 := Stretch(2038, 2049, r3.zs + [Zero(2041, 8)], r3.at + [12], 16, 16);
    EndsHere(p, 2, r4);
    assert r4.zs == [Zero(2038, 1), Zero(2039, 1), Zero(2040, 1), Zero(2041, 8)];
    assert r4.at == [0, 4, 8, 12];
  }

  /** It reports those, and a store of their cover cannot be encoded. */
  lemma ReportedOutOfReach()
    ensures var p := FarStores();
            WellFormed(p) && ZeroCheck(p, 0, 0).0.Some? &&
            exists z :: z in CoverOf(ZeroCheck(p, 0, 0).0.value) && !PlainInsn(CoverStore(z, 2))
  {
    FarStoresRun();
    CoverOutOfReach();
    FourStores();
    hide Full, Begun, WellFormed, Greedy, Cost, FarStores, Prices, Abutting, Laid, CoverStore, PlainInsn;
    assert ZeroCheck(FarStores(), 0, 0).0 == Some(Full(FarStores(), 2, Begun(FarStores(), 0)));
  }

  // ---- the rewrite, over whole runs ----

  /** The cover's stores in the first places of the run, nothing in the others. */
  function Put(at: seq<Word>, zs: seq<Zero>, base: Reg): map<Word, Insn> {
    if at == [] then map[]
    else
      Put(at[1..], if zs == [] then [] else zs[1..], base)[at[0] := if zs == [] then Nop else CoverStore(zs[0], base)]
  }

  function PutAt(zs: seq<Zero>, base: Reg, k: nat): Insn {
    if k < |zs| then CoverStore(zs[k], base) else Nop
  }

  ghost predicate Increasing(at: seq<Word>) {
    forall j, k :: 0 <= j < k < |at| ==> at[j] < at[k]
  }

  lemma {:induction false} PutIs(at: seq<Word>, zs: seq<Zero>, base: Reg)
    requires Increasing(at)
    ensures forall k :: 0 <= k < |at| ==> at[k] in Put(at, zs, base) && Put(at, zs, base)[at[k]] == PutAt(zs, base, k)
    ensures forall c :: c in Put(at, zs, base) ==> c in at
  {
    if at != [] {
      var rest := if zs == [] then [] else zs[1..];
      PutIs(at[1..], rest, base);
      forall k | 0 <= k < |at|
        ensures at[k] in Put(at, zs, base) && Put(at, zs, base)[at[k]] == PutAt(zs, base, k)
      {
        if k > 0 {
          assert at[1..][k - 1] == at[k];
        }
      }
    }
  }

  function CoverOf(r: Stretch): seq<Zero> {
    Laid(r.lo, Greedy(r.lo, r.hi))
  }

  function CoverEdits(r: Stretch, base: Reg): map<Word, Insn> {
    Put(r.at, CoverOf(r), base)
  }

  lemma {:induction false} RunIncreases(p: Program, a: Word, base: Reg, r: Stretch, j: nat, k: nat)
    requires WellFormed(p) && IsRun(p, a, base, r) && j < k < |r.at|
    ensures r.at[j] < r.at[k]
    decreases k
  {
    hide WellFormed, IsTarget, ZeroStore, Abutting, Prices;
    assert StoreIs(p, base, r, k - 1);
    Placed(p, r.at[k - 1]);
    if j < k - 1 {
      RunIncreases(p, a, base, r, j, k - 1);
    }
  }

  /** Every instruction of the stretch is in the run. */
  lemma {:induction false} RunHolds(p: Program, a: Word, base: Reg, r: Stretch, k: nat, c: Word) returns (j: nat)
    requires WellFormed(p) && IsRun(p, a, base, r) && c in p.code && k < |r.at| && r.at[k] <= c < r.end
    ensures k <= j < |r.at| && r.at[j] == c
    decreases |r.at| - k
  {
    hide WellFormed, IsTarget, ZeroStore, Abutting, Prices;
    assert StoreIs(p, base, r, k);
    Apart(p, r.at[k], c);
    if c == r.at[k] {
      j := k;
    } else {
      j := RunHolds(p, a, base, r, k + 1, c);
    }
  }

  /** Before store `j` of the run the two memories are what the stores so far of
      either kind made of one memory. */
  ghost predicate Halfway(r: Stretch, base: Reg, j: nat, m: Memory, s: State, t: State) {
    && j < |r.at| == |r.zs| && s.pc == r.at[j]
    && s.mem == Zeroed(m, X(s, base), r.zs[..j])
    && t == s.(mem := Zeroed(m, X(s, base), Part(CoverOf(r), j)))
  }

  function Part(zs: seq<Zero>, j: nat): seq<Zero> {
    if j < |zs| then zs[..j] else zs
  }

  ghost predicate Beside(p: Program, a: Word, base: Reg, r: Stretch, s: State, t: State) {
    if s.pc in p.code && a < s.pc < r.end then exists j, m :: Halfway(r, base, j, m, s, t) else s == t
  }

  lemma {:induction false} LaidFits(lo: int, hi: int, ws: seq<int>)
    requires Tiles(lo, hi, ws)
    ensures forall k :: 0 <= k < |ws| ==> IsWidth(Laid(lo, ws)[k].w)
    decreases |ws|
  {
    if ws != [] {
      LaidFits(lo + ws[0], hi, ws[1..]);
    }
  }

  lemma StoreEffectIs(i: Insn, len: nat, s: State, z: Zero)
    requires i.Store? && !i.kind.IsFp() && i.data == 0 && z == AsZero(i)
    ensures Effect(i, len, s) == s.(mem := StoreZero(s.mem, X(s, i.base), z))
  {
    hide StoreLE;
  }

  lemma CoverEffect(z: Zero, base: Reg, len: nat, s: State)
    requires IsWidth(z.w)
    ensures Effect(CoverStore(z, base), len, s) == s.(mem := StoreZero(s.mem, X(s, base), z))
  {
    StoreEffectIs(CoverStore(z, base), len, s, z);
  }

  lemma PartGrows(m: Memory, x: int, zs: seq<Zero>, j: nat)
    ensures Zeroed(m, x, Part(zs, j + 1)) ==
            if j < |zs| then StoreZero(Zeroed(m, x, Part(zs, j)), x, zs[j]) else Zeroed(m, x, Part(zs, j))
  {
    hide StoreZero;
    if j < |zs| {
      assert Part(zs, j + 1)[..j] == Part(zs, j);
    }
  }

  lemma RunStep(p: Program, a: Word, base: Reg, r: Stretch, j: nat, m: Memory, s: State)
    requires WellFormed(p) && IsRun(p, a, base, r) && j < |r.at| && s.pc == r.at[j]
    requires s.mem == Zeroed(m, X(s, base), r.zs[..j])
    ensures r.at[j] in p.code
    ensures var n := if j + 1 < |r.at| then r.at[j + 1] else r.end;
            Step(p, s) == s.(mem := Zeroed(m, X(s, base), r.zs[..j + 1]), pc := n)
  {
    hide WellFormed, Abutting, Prices, StoreZero, Zeroed, Effect, ZeroStore, IsTarget;
    assert StoreIs(p, base, r, j);
    StoreShape(p, r.at[j]);
    var d := p.code[s.pc];
    Placed(p, s.pc);
    StoreEffectIs(d.insn, d.len, s, r.zs[j]);
    PartGrows(m, X(s, base), r.zs, j);
    assert Part(r.zs, j) == r.zs[..j] && Part(r.zs, j + 1) == r.zs[..j + 1];
    StraightNext(d.insn, d.len, s);
  }

  lemma CoverStep(p: Program, a: Word, base: Reg, r: Stretch, j: nat, m: Memory, t: State)
    requires WellFormed(p) && IsRun(p, a, base, r) && j < |r.at| && t.pc == r.at[j]
    requires t.mem == Zeroed(m, X(t, base), Part(CoverOf(r), j))
    ensures var n := if j + 1 < |r.at| then r.at[j + 1] else r.end;
            Step(Apply(p, CoverEdits(r, base)), t) == t.(mem := Zeroed(m, X(t, base), Part(CoverOf(r), j + 1)), pc := n)
  {
    hide WellFormed, Abutting, Prices, StoreZero, Zeroed, Effect, ZeroStore, IsTarget, CoverEdits, Apply, CoverOf,
         CoverStore;
    var q, cover := Apply(p, CoverEdits(r, base)), CoverOf(r);
    assert StoreIs(p, base, r, j);
    Placed(p, t.pc);
    Replaced(p, a, base, r, j);
    var e := q.code[t.pc];
    PartGrows(m, X(t, base), cover, j);
    if j < |cover| {
      CoverFits(r, j);
      CoverEffect(cover[j], base, e.len, t);
    } else {
      NopEffect(e.len, t);
    }
    StraightNext(e.insn, e.len, t);
  }

  /** One instruction of the run on either side. */
  lemma HalfwayStep(p: Program, a: Word, base: Reg, r: Stretch, j: nat, m: Memory, s: State, t: State)
    requires WellFormed(p) && IsRun(p, a, base, r) && Halfway(r, base, j, m, s, t) && |Greedy(r.lo, r.hi)| < |r.zs|
    ensures Beside(p, a, base, r, Step(p, s), Step(Apply(p, CoverEdits(r, base)), t))
  {
    hide WellFormed, Abutting, Prices, Zeroed, Step, Greedy, CoverEdits, StoreIs, Apply, Laid;
    var cover, x := CoverOf(r), X(s, base);
    assert X(t, base) == x;
    RunStep(p, a, base, r, j, m, s);
    CoverStep(p, a, base, r, j, m, t);
    var s', t' := Step(p, s), Step(Apply(p, CoverEdits(r, base)), t);
    if j + 1 < |r.at| {
      assert Halfway(r, base, j + 1, m, s', t');
      RunIncreases(p, a, base, r, 0, j + 1);
      InRun(p, base, a, r, j + 1);
    } else {
      assert r.zs[..j + 1] == r.zs && Part(cover, j + 1) == cover;
      CoverStoresTheSame(m, x, r.zs, r.lo, r.hi);
    }
  }

  lemma InRun(p: Program, base: Reg, a: Word, r: Stretch, j: nat)
    requires WellFormed(p) && IsRun(p, a, base, r) && j < |r.at|
    ensures r.at[j] in p.code && a <= r.at[j] < r.end
    decreases |r.at| - j
  {
    hide WellFormed, IsTarget, ZeroStore, Abutting, Prices;
    assert StoreIs(p, base, r, j);
    Placed(p, r.at[j]);
    if j > 0 { RunIncreases(p, a, base, r, 0, j); }
    if j + 1 < |r.at| { InRun(p, base, a, r, j + 1); }
  }

  lemma StoreShape(p: Program, a: Word)
    requires ZeroStore(p, a).Some?
    ensures var i := p.code[a].insn; i.Store? && !i.kind.IsFp() && i.data == 0 && !IsTransfer(i)
  {
  }

  lemma CoverFits(r: Stretch, j: nat)
    requires r.lo <= r.hi && j < |CoverOf(r)|
    ensures IsWidth(CoverOf(r)[j].w)
  {
    hide IsWidth, Greedy;
    GreedyTiles(r.lo, r.hi);
    LaidFits(r.lo, r.hi, Greedy(r.lo, r.hi));
  }

  lemma Replaced(p: Program, a: Word, base: Reg, r: Stretch, j: nat)
    requires WellFormed(p) && IsRun(p, a, base, r) && j < |r.at|
    ensures var q := Apply(p, CoverEdits(r, base));
            && r.at[j] in q.code && q.code[r.at[j]].insn == PutAt(CoverOf(r), base, j)
            && q.code[r.at[j]].len == p.code[r.at[j]].len && !IsIndirect(PutAt(CoverOf(r), base, j))
            && !IsTransfer(PutAt(CoverOf(r), base, j))
    ensures SameElsewhere(p, Apply(p, CoverEdits(r, base)), a, r.end)
  {
    hide WellFormed, CoverOf, Put, StoreIs, Abutting, Prices;
    forall j, k | 0 <= j < k < |r.at| ensures r.at[j] < r.at[k] { RunIncreases(p, a, base, r, j, k); }
    PutIs(r.at, CoverOf(r), base);
    forall k | 0 <= k < |r.at| ensures r.at[k] in p.code && a <= r.at[k] < r.end { InRun(p, base, a, r, k); }
    ApplyShape(p, CoverEdits(r, base), a, r.end);
  }

  lemma StepBeside(p: Program, a: Word, base: Reg, r: Stretch, s: State, t: State)
    requires WellFormed(p) && IsRun(p, a, base, r) && |Greedy(r.lo, r.hi)| < |r.zs| && NoLandingInside(p, a, r.end)
    requires Beside(p, a, base, r, s, t)
    ensures Beside(p, a, base, r, Step(p, s), Step(Apply(p, CoverEdits(r, base)), t))
  {
    hide WellFormed, IsTarget, Exec, Greedy, CoverEdits, Zeroed, StoreIs, Abutting, Prices, Laid, Apply,
         NoLandingInside;
    if s.pc in p.code && a < s.pc < r.end {
      var j, m :| Halfway(r, base, j, m, s, t);
      HalfwayStep(p, a, base, r, j, m, s, t);
    } else if s.pc == a {
      assert Halfway(r, base, 0, s.mem, s, t) by { NoneStored(r, base, s); }
      HalfwayStep(p, a, base, r, 0, s.mem, s, t);
    } else {
      OutsideStep(p, a, base, r, s);
    }
  }

  lemma NoneStored(r: Stretch, base: Reg, s: State)
    ensures Zeroed(s.mem, X(s, base), []) == s.mem
    ensures Part(CoverOf(r), 0) == [] && (|r.zs| > 0 ==> r.zs[..0] == [])
  {
  }

  lemma OutsideStep(p: Program, a: Word, base: Reg, r: Stretch, s: State)
    requires WellFormed(p) && IsRun(p, a, base, r) && NoLandingInside(p, a, r.end)
             && !(s.pc in p.code && a <= s.pc < r.end)
    ensures Step(Apply(p, CoverEdits(r, base)), s) == Step(p, s)
    ensures Step(p, s).pc in p.code ==> !(a < Step(p, s).pc < r.end) || Step(p, s) == s
  {
    hide WellFormed, IsTarget, Exec, CoverEdits, Abutting, Prices, ZeroStore;
    Replaced(p, a, base, r, 0);
    forall c | c in p.code && a < c < r.end ensures !IsTarget(p, c) {
      var j := RunHolds(p, a, base, r, 0, c);
      assert StoreIs(p, base, r, j);
    }
    assert StoreIs(p, base, r, 0);
    if Runs(p, s) && Step(p, s).pc in p.code {
      NothingEnters(p, a, r.end, s);
    }
  }

  /** With the cover in the run's place every run goes on as before; only memory
      differs, and only while control is inside. */
  lemma {:induction false} CoverIsInvisible(p: Program, a: Word, base: Reg, r: Stretch, s: State, n: nat)
    requires WellFormed(p) && IsRun(p, a, base, r) && |Greedy(r.lo, r.hi)| < |r.zs|
    requires NoLandingInside(p, a, r.end) && !(a < s.pc < r.end)
    ensures Beside(p, a, base, r, Run(p, s, n), Run(Apply(p, CoverEdits(r, base)), s, n))
  {
    hide WellFormed, IsRun, Step, CoverEdits, Greedy, Beside, Apply;
    if n == 0 {
      assert Beside(p, a, base, r, s, s) by { SameBeside(p, a, base, r, s); }
    } else {
      CoverIsInvisible(p, a, base, r, s, n - 1);
      StepBeside(p, a, base, r, Run(p, s, n - 1), Run(Apply(p, CoverEdits(r, base)), s, n - 1));
    }
  }

  lemma SameBeside(p: Program, a: Word, base: Reg, r: Stretch, s: State)
    requires !(a < s.pc < r.end)
    ensures Beside(p, a, base, r, s, s)
  {
  }

  /** What the check reports is such a run. */
  lemma ReportedRun(p: Program, a: Word, mark: Word)
    requires WellFormed(p) && ZeroCheck(p, a, mark).0.Some?
    ensures var r := ZeroCheck(p, a, mark).0.value;
            ZeroStore(p, a).Some? && IsRun(p, a, ZeroStore(p, a).value.base, r) && |Greedy(r.lo, r.hi)| < |r.zs|
    ensures mark <= a && ZeroCheck(p, a, mark).0.value.end == ZeroCheck(p, a, mark).1
  {
    hide WellFormed, IsRun, Greedy, Cost, Full, Begun;
    BegunIsRun(p, a);
    FullIsRun(p, a, ZeroStore(p, a).value.base, Begun(p, a));
  }

  class ZeroMark {
    var end: Word

    constructor ()
      ensures end == 0
    {
      end := 0;
    }

    method CheckZeroStoreRun(p: Program, a: Word) returns (f: Option<Stretch>)
      requires WellFormed(p)
      modifies this
      ensures (f, end) == ZeroCheck(p, a, old(end))
    {
      hide Grown, WellFormed, Greedy, Cost;
      if a < end || ZeroStore(p, a).None? { return None; }
      var base := ZeroStore(p, a).value.base;
      var r := Begun(p, a);
      while Grown(p, base, r).Some?
        invariant Full(p, base, r) == Full(p, base, Begun(p, a))
        decreases W64 - r.end
      {
        GrownGoesOn(p, base, r);
        r := Grown(p, base, r).value;
      }
      end := r.end;
      if |r.zs| < 2 { return None; }
      BegunIsRun(p, a);
      FullIsRun(p, a, base, Begun(p, a));
      var k, cost := Cover(r.lo, r.hi, base);
      return if k >= |r.zs| || cost >= r.bytes then None else Some(r);
    }
  }
}
