/** Covering a byte range by naturally aligned stores of zero: the greedy cover is
    exact, and minimal both in stores and in encoded bytes. */
module ZeroCover {
  import opened Words
  import opened Machine
  import opened Encoding

  predicate IsWidth(w: int) {
    w == 1 || w == 2 || w == 4 || w == 8
  }

  /** A store of `w` bytes may stand at `pos`. */
  predicate Fits(pos: int, w: int, hi: int) {
    IsWidth(w) && pos % w == 0 && pos + w <= hi
  }

  /** The widths, laid end to end from `lo`, are aligned and end at `hi`. */
  predicate Tiles(lo: int, hi: int, ws: seq<int>)
    decreases |ws|
  {
    if ws == [] then lo == hi else Fits(lo, ws[0], hi) && Tiles(lo + ws[0], hi, ws[1..])
  }

  function Widest(pos: int, hi: int, w: int): (r: int)
    requires IsWidth(w)
    decreases w
  {
    if w > 1 && (pos % w != 0 || pos + w > hi) then Widest(pos, hi, w / 2) else w
  }

  lemma {:induction false} WidestFits(pos: int, hi: int, w: int)
    requires IsWidth(w) && pos < hi
    ensures IsWidth(Widest(pos, hi, w)) && Fits(pos, Widest(pos, hi, w), hi)
    ensures forall v :: Fits(pos, v, hi) && v <= w ==> v <= Widest(pos, hi, w)
    decreases w
  {
    if w > 1 && (pos % w != 0 || pos + w > hi) {
      WidestFits(pos, hi, w / 2);
    }
  }

  /** The widest store that may stand at the low end, repeatedly. */
  function Greedy(lo: int, hi: int): seq<int>
    decreases hi - lo
  {
    if lo >= hi then []
    else
      WidestFits(lo, hi, 8);
      [Widest(lo, hi, 8)] + Greedy(lo + Widest(lo, hi, 8), hi)
  }

  lemma {:induction false} GreedyTiles(lo: int, hi: int)
    requires lo <= hi
    ensures Tiles(lo, hi, Greedy(lo, hi))
    decreases hi - lo
  {
    if lo < hi {
      WidestFits(lo, hi, 8);
      GreedyTiles(lo + Widest(lo, hi, 8), hi);
    }
  }

  // ---- every tiling breaks where the greedy one does ----

  /** A multiple of a width is one of every smaller width. */
  lemma Nested(pos: int, w: int, g: int)
    requires IsWidth(w) && IsWidth(g) && g <= w && pos % w == 0
    ensures pos % g == 0
  {
    var a := pos / w;
    assert pos == w * a;
    if w == 8 && g == 4 { DivModUnique(pos, 4, 2 * a, 0); }
    if w == 8 && g == 2 { DivModUnique(pos, 2, 4 * a, 0); }
    if w == 4 && g == 2 { DivModUnique(pos, 2, 2 * a, 0); }
  }

  /** Two multiples of a width less than one apart are one; if not, at least one
      width lies between. */
  lemma WidthsApart(lo: int, hi: int, g: int)
    requires IsWidth(g) && lo % g == 0 && hi % g == 0 && lo < hi
    ensures lo + g <= hi
  {
    var a, b := lo / g, hi / g;
    assert lo == g * a && hi == g * b;
    if g == 8 { assert a < b; } else if g == 4 { assert a < b; } else if g == 2 { assert a < b; }
  }

  /** No piece crosses the end of an aligned block that no wider piece could fill. */
  lemma NoCrossing(lo: int, g: int, hi: int, pos: int, w: int)
    requires Fits(lo, g, hi) && (forall v :: Fits(lo, v, hi) ==> v <= g)
    requires lo <= pos < lo + g && Fits(pos, w, hi)
    ensures pos + w <= lo + g
  {
    if w > g {
      Nested(pos, w, g);
      if lo < pos { WidthsApart(lo, pos, g); }
    } else {
      Nested(lo, g, w);
      NextBlock(lo, g, w);
      WidthsApart(pos, lo + g, w);
    }
  }

  lemma NextBlock(lo: int, g: int, w: int)
    requires IsWidth(w) && IsWidth(g) && w <= g && lo % g == 0
    ensures (lo + g) % w == 0
  {
    var a := lo / g;
    assert lo == g * a;
    if g == 8 { DivModUnique(lo + g, 8, a + 1, 0); }
    if g == 4 { DivModUnique(lo + g, 4, a + 1, 0); }
    if g == 2 { DivModUnique(lo + g, 2, a + 1, 0); }
    Nested(lo + g, g, w);
  }

  /** So a tiling splits into one of the block and one of the rest. */
  lemma {:induction false} Splits(lo: int, g: int, hi: int, pos: int, ws: seq<int>) returns (n: nat)
    requires Fits(lo, g, hi) && (forall v :: Fits(lo, v, hi) ==> v <= g)
    requires lo <= pos < lo + g && Tiles(pos, hi, ws)
    ensures 1 <= n <= |ws|
    ensures Tiles(pos, lo + g, ws[..n]) && Tiles(lo + g, hi, ws[n..])
    decreases |ws|
  {
    NoCrossing(lo, g, hi, pos, ws[0]);
    var rest := pos + ws[0];
    if rest == lo + g {
      n := 1;
      assert ws[..1][1..] == [];
    } else {
      var k := Splits(lo, g, hi, rest, ws[1..]);
      n := k + 1;
      assert ws[..n][1..] == ws[1..][..k] && ws[1..][k..] == ws[n..];
    }
  }

  // ---- what a cover costs ----

  function WidthKind(w: int): MemKind {
    match w
    case 8 => SD
    case 4 => SW
    case 2 => SH
    case _ => SB
  }

  /** Encoded bytes of a store of zero. */
  function ZeroBytes(w: int, base: Reg, off: int): (c: nat)
    ensures c == 2 || c == 4
  {
    MemBytes(WidthKind(w), 0, base, off, false)
  }

  function Cost(lo: int, ws: seq<int>, base: Reg): nat
    decreases |ws|
  {
    if ws == [] then 0 else ZeroBytes(ws[0], base, lo) + Cost(lo + ws[0], ws[1..], base)
  }

  lemma {:induction false} CostSplits(lo: int, ws: seq<int>, n: nat, mid: int, base: Reg)
    requires n <= |ws| && Tiles(lo, mid, ws[..n])
    ensures Cost(lo, ws, base) == Cost(lo, ws[..n], base) + Cost(mid, ws[n..], base)
    decreases n
  {
    hide ZeroBytes, Fits;
    if n == 0 {
      assert ws[0..] == ws;
    } else {
      assert ws[..n][1..] == ws[1..][..n - 1] && ws[1..][n - 1..] == ws[n..];
      CostSplits(lo + ws[0], ws[1..], n - 1, mid, base);
    }
  }

  /** Two stores or more cost what any one does. */
  lemma CostAtLeast(lo: int, g: int, ws: seq<int>, base: Reg)
    requires ws != [] && Tiles(lo, lo + g, ws) && g > 0
    ensures Cost(lo, ws, base) >= ZeroBytes(g, base, lo)
    ensures |ws| == 1 ==> ws == [g]
  {
    hide ZeroBytes;
    if |ws| > 1 {
      assert ws[1..] != [];
      assert Cost(lo + ws[0], ws[1..], base) >= 2;
    } else {
      assert ws[1..] == [] && ws == [ws[0]];
    }
  }

  lemma GreedyUnfolds(lo: int, hi: int, base: Reg)
    requires lo < hi
    ensures var g := Widest(lo, hi, 8); var rest := Greedy(lo + g, hi);
            Greedy(lo, hi) == [g] + rest && Cost(lo, Greedy(lo, hi), base) ==
              ZeroBytes(g, base, lo) + Cost(lo + g, rest, base)
  {
    hide ZeroBytes, Widest, Fits;
    var rest := Greedy(lo + Widest(lo, hi, 8), hi);
    assert ([Widest(lo, hi, 8)] + rest)[1..] == rest;
  }

  /** Where any tiling of a range breaks: after a block one store could fill. */
  lemma FirstBlock(lo: int, hi: int, ws: seq<int>, base: Reg) returns (g: int, n: nat)
    requires lo < hi && Tiles(lo, hi, ws)
    ensures g == Widest(lo, hi, 8) && g > 0 && lo + g <= hi && 1 <= n <= |ws|
    ensures Tiles(lo + g, hi, ws[n..]) && (n == 1 ==> ws[..n] == [g])
    ensures Cost(lo, ws, base) >= ZeroBytes(g, base, lo) + Cost(lo + g, ws[n..], base)
  {
    hide ZeroBytes, Widest;
    WidestFits(lo, hi, 8);
    g := Widest(lo, hi, 8);
    assert forall v :: Fits(lo, v, hi) ==> v <= 8;
    n := Splits(lo, g, hi, lo, ws);
    hide Tiles;
    CostSplits(lo, ws, n, lo + g, base);
    CostAtLeast(lo, g, ws[..n], base);
  }

  /** No tiling has fewer stores or fewer bytes than the greedy one, and one with as
      few stores is the greedy one. */
  lemma {:induction false} GreedyIsMinimal(lo: int, hi: int, ws: seq<int>, base: Reg)
    requires lo <= hi && Tiles(lo, hi, ws)
    ensures |Greedy(lo, hi)| <= |ws|
    ensures Cost(lo, Greedy(lo, hi), base) <= Cost(lo, ws, base)
    ensures |ws| == |Greedy(lo, hi)| ==> ws == Greedy(lo, hi)
    decreases hi - lo
  {
    hide ZeroBytes, Widest, Fits;
    if lo < hi {
      var g, n := FirstBlock(lo, hi, ws, base);
      hide Tiles, Cost, Greedy;
      GreedyIsMinimal(lo + g, hi, ws[n..], base);
      GreedyUnfolds(lo, hi, base);
      assert ws == ws[..n] + ws[n..];
    } else if ws != [] {
      NoneEmpty(lo, hi, ws);
    }
  }

  lemma NoneEmpty(lo: int, hi: int, ws: seq<int>)
    requires ws != [] && Tiles(lo, hi, ws)
    ensures lo < hi
  {
  }

  /** The count and the price in one walk. */
  method Cover(lo: int, hi: int, base: Reg) returns (n: nat, cost: nat)
    requires lo <= hi
    ensures n == |Greedy(lo, hi)| && cost == Cost(lo, Greedy(lo, hi), base)
  {
    n, cost := 0, 0;
    var pos := lo;
    while pos < hi
      invariant lo <= pos <= hi
      invariant n + |Greedy(pos, hi)| == |Greedy(lo, hi)|
      invariant cost + Cost(pos, Greedy(pos, hi), base) == Cost(lo, Greedy(lo, hi), base)
      decreases hi - pos
    {
      var w := 8;
      while w > 1 && (pos % w != 0 || pos + w > hi)
        invariant IsWidth(w) && Widest(pos, hi, w) == Widest(pos, hi, 8)
        decreases w
      {
        w := w / 2;
      }
      WidestFits(pos, hi, 8);
      assert Greedy(pos, hi)[1..] == Greedy(pos + w, hi);
      n := n + 1;
      cost := cost + ZeroBytes(w, base, pos);
      pos := pos + w;
    }
  }
}
