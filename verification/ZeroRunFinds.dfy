/** Which runs of zero stores are found: the whole run that begins at a store, where its cover
    is better. */
module ZeroRunFinds {
  import opened Words
  import opened Wrappers
  import opened Machine
  import opened Sweep
  import opened ZeroCover
  import opened ZeroRun
  import opened Lines

  /** The instruction stores `z.w` bytes of x0 at `z.off` from sp or s0. */
  predicate StoresNothing(i: Insn, base: Reg, z: Zero) {
    && (base == 2 || base == 8)
    && ((i == Store(SB, 0, base, z.off) && z.w == 1) || (i == Store(SH, 0, base, z.off) && z.w == 2)
        || (i == Store(SW, 0, base, z.off) && z.w == 4) || (i == Store(SD, 0, base, z.off) && z.w == 8))
  }

  predicate ZeroAt(p: Program, c: Word, base: Reg, z: Zero) {
    c in p.code && Readable(p, c) && StoresNothing(p.code[c].insn, base, z)
  }

  lemma ZeroAtIs(p: Program, c: Word, base: Reg, z: Zero)
    ensures ZeroAt(p, c, base, z) <==>
            ZeroStore(p, c).Some? && ZeroStore(p, c).value.base == base && z == AsZero(ZeroStore(p, c).value)
    ensures ZeroStore(p, c).Some? ==> c in p.code && ZeroStore(p, c).value == p.code[c].insn && p.code[c].insn.Store?
  {
  }

  /** The stores of `line`, one after another, `zs` in turn, that make up lo to hi. */
  ghost predicate RunAlong(p: Program, a: Word, base: Reg, line: seq<Word>, zs: seq<Zero>, lo: int, hi: int) {
    && Chain(p, a, line) && |line| == |zs| > 0 && Abutting(zs, lo, hi)
    && (forall k :: 0 <= k < |line| ==> ZeroAt(p, line[k], base, zs[k]))
    && forall k :: 0 < k < |line| ==> !IsTarget(p, line[k])
  }

  /** And none that would make it longer follows. */
  ghost predicate WholeRun(p: Program, a: Word, base: Reg, line: seq<Word>, zs: seq<Zero>, lo: int, hi: int) {
    && RunAlong(p, a, base, line, zs, lo, hi)
    && !exists z :: GoesLonger(p, AfterAll(p, a, line), base, z, lo, hi)
  }

  predicate GoesLonger(p: Program, c: Word, base: Reg, z: Zero, lo: int, hi: int) {
    ZeroAt(p, c, base, z) && !IsTarget(p, c) && (z.off == hi || z.off + z.w == lo)
  }

  /** The run so far. */
  function SoFar(p: Program, a: Word, base: Reg, line: seq<Word>, zs: seq<Zero>, lo: int, hi: int): Stretch
    requires Chain(p, a, line)
  {
    Stretch(lo, hi, zs, line, Prices(zs, base), AfterAll(p, a, line))
  }

  /** Following a run to its end is following any part of it. */
  lemma {:induction false} FullAlong(p: Program, a: Word, base: Reg, line: seq<Word>, zs: seq<Zero>, lo: int, hi: int)
    requires WellFormed(p) && RunAlong(p, a, base, line, zs, lo, hi)
    ensures ZeroStore(p, a).Some? && ZeroStore(p, a).value.base == base
    ensures Full(p, base, Begun(p, a)) == Full(p, base, SoFar(p, a, base, line, zs, lo, hi))
    decreases |zs|
  {
    hide WellFormed, ZeroAt, PriceOf, IsTarget, ZeroStore, Full, Grown;
    ChainStep(p, a, line);
    ZeroAtIs(p, a, base, zs[0]);
    if |zs| == 1 {
      OneAbuts(zs, lo, hi);
      BegunIs(p, a, base, line, zs, lo, hi);
    } else {
      var n := |zs| - 1;
      var lo', hi' := OneLess(zs, lo, hi);
      ChainInit(p, a, line);
      FullAlong(p, a, base, line[..n], zs[..n], lo', hi');
      RunGrows(zs[..n], lo', hi');
      GrownIs(p, a, base, line, zs, lo, hi, lo', hi');
      FullOn(p, base, SoFar(p, a, base, line[..n], zs[..n], lo', hi'));
    }
  }

  lemma FullOn(p: Program, base: Reg, r: Stretch)
    requires WellFormed(p) && Grown(p, base, r).Some?
    ensures Full(p, base, r) == Full(p, base, Grown(p, base, r).value)
  {
    hide WellFormed, Grown;
  }

  lemma OneAbuts(zs: seq<Zero>, lo: int, hi: int)
    requires |zs| == 1 && Abutting(zs, lo, hi)
    ensures lo == zs[0].off && hi == zs[0].off + zs[0].w
  {
  }

  lemma OneLess(zs: seq<Zero>, lo: int, hi: int) returns (lo': int, hi': int)
    requires |zs| > 1 && Abutting(zs, lo, hi)
    ensures var z, rest := zs[|zs| - 1], zs[..|zs| - 1];
            && Abutting(rest, lo', hi') && z.w > 0
            && ((z.off == hi' && hi == z.off + z.w && lo' == lo) || (z.off + z.w == lo' && lo == z.off && hi' == hi))
  {
    var z, rest := zs[|zs| - 1], zs[..|zs| - 1];
    if z.off + z.w == hi && Abutting(rest, lo, z.off) {
      lo', hi' := lo, z.off;
    } else {
      lo', hi' := lo + z.w, hi;
    }
  }

  lemma BegunIs(p: Program, a: Word, base: Reg, line: seq<Word>, zs: seq<Zero>, lo: int, hi: int)
    requires Chain(p, a, line) && |line| == |zs| == 1 && ZeroStore(p, a).Some? && ZeroStore(p, a).value.base == base
    requires ZeroAt(p, a, base, zs[0]) && lo == zs[0].off && hi == zs[0].off + zs[0].w
    ensures Begun(p, a) == SoFar(p, a, base, line, zs, lo, hi)
  {
    hide PriceOf, ZeroAt, ZeroStore, IsTarget;
    ZeroAtIs(p, a, base, zs[0]);
    ChainStep(p, a, line);
    assert line == [a] && zs == [zs[0]] && line[1..] == [] && zs[..0] == [];
    assert Prices(zs, base) == Prices([], base) + PriceOf(zs[0], base);
    assert Begun(p, a).end == SoFar(p, a, base, line, zs, lo, hi).end;
    assert Begun(p, a).bytes == SoFar(p, a, base, line, zs, lo, hi).bytes;
  }

  lemma GrownIs(p: Program, a: Word, base: Reg, line: seq<Word>, zs: seq<Zero>, lo: int, hi: int, lo': int, hi': int)
    requires RunAlong(p, a, base, line, zs, lo, hi) && |zs| > 1
    requires var n := |zs| - 1; Chain(p, a, line[..n]) && AfterAll(p, a, line[..n]) == line[n] && line[n] in p.code
                                && line[n] + p.code[line[n]].len == AfterAll(p, a, line)
    requires var z := zs[|zs| - 1];
             lo' <= hi' && z.w > 0 && ((z.off == hi' && hi == z.off + z.w && lo' == lo)
                                       || (z.off + z.w == lo' && lo == z.off && hi' == hi))
    ensures var n := |zs| - 1;
            Grown(p, base, SoFar(p, a, base, line[..n], zs[..n], lo', hi')) == Some(SoFar(p, a, base, line, zs, lo, hi))
  {
    hide ZeroAt, PriceOf, IsTarget, ZeroStore, Abutting, Chain;
    var n := |zs| - 1;
    ZeroAtIs(p, line[n], base, zs[n]);
    assert line[..n] + [line[n]] == line && zs[..n] + [zs[n]] == zs;
    hide AfterAll;
    assert ZeroAt(p, line[n], base, zs[n]) && !IsTarget(p, line[n]);
  }

  /** Nothing makes a run longer exactly when none that would follows. */
  lemma GrownExactly(p: Program, base: Reg, r: Stretch)
    ensures Grown(p, base, r).Some? <==> exists z :: GoesLonger(p, r.end, base, z, r.lo, r.hi)
  {
    hide PriceOf, IsTarget, ZeroStore, ZeroAt;
    var s := ZeroStore(p, r.end);
    var there := s.Some? && s.value.Store? && s.value.base == base;
    forall z ensures ZeroAt(p, r.end, base, z) <==> there && z == AsZero(s.value) {
      ZeroAtIs(p, r.end, base, z);
    }
    ZeroAtIs(p, r.end, base, Zero(0, 0));
    if Grown(p, base, r).Some? {
      assert GoesLonger(p, r.end, base, AsZero(s.value), r.lo, r.hi);
    }
  }

  lemma {:induction false} FullEnds(p: Program, base: Reg, r: Stretch)
    requires WellFormed(p)
    ensures Grown(p, base, Full(p, base, r)).None?
    decreases W64 - r.end
  {
    hide WellFormed, Grown;
    if Grown(p, base, r).Some? {
      GrownGoesOn(p, base, r);
      FullEnds(p, base, Grown(p, base, r).value);
    }
  }

  /** The stores of a run stand in line. */
  lemma {:induction false} InLine(p: Program, base: Reg, r: Stretch, k: nat)
    requires |r.at| == |r.zs| && k <= |r.at| && forall j :: 0 <= j < |r.at| ==> StoreIs(p, base, r, j)
    ensures var c := if k < |r.at| then r.at[k] else r.end; Chain(p, c, r.at[k..]) && AfterAll(p, c, r.at[k..]) == r.end
    decreases |r.at| - k
  {
    hide ZeroStore, IsTarget;
    if k < |r.at| {
      InLine(p, base, r, k + 1);
      assert StoreIs(p, base, r, k);
      ChainFrom(p, r.at[k], r.at[k + 1..]);
      assert r.at[k..] == [r.at[k]] + r.at[k + 1..];
    }
  }

  lemma RunIsAlong(p: Program, a: Word, base: Reg, r: Stretch)
    requires IsRun(p, a, base, r)
    ensures RunAlong(p, a, base, r.at, r.zs, r.lo, r.hi) && r == SoFar(p, a, base, r.at, r.zs, r.lo, r.hi)
  {
    hide Abutting, ZeroStore, IsTarget, ZeroAt, Prices, Chain;
    InLine(p, base, r, 0);
    assert r.at[0..] == r.at;
    forall k | 0 <= k < |r.at| ensures ZeroAt(p, r.at[k], base, r.zs[k]) && (k > 0 ==> !IsTarget(p, r.at[k])) {
      assert StoreIs(p, base, r, k);
      ZeroAtIs(p, r.at[k], base, r.zs[k]);
    }
  }

  /** The whole run at `a` is one, at or after the mark, that its cover does better. */
  ghost predicate RunFound(p: Program, a: Word, mark: Word, r: Stretch, base: Reg) {
    && mark <= a && WholeRun(p, a, base, r.at, r.zs, r.lo, r.hi) && r == SoFar(p, a, base, r.at, r.zs, r.lo, r.hi)
    && |Greedy(r.lo, r.hi)| < |r.zs| && Cost(r.lo, Greedy(r.lo, r.hi), base) < Prices(r.zs, base)
  }

  /** A run is reported exactly where the whole run from there on takes more stores and more
      bytes than its cover. */
  lemma RunsExactly(p: Program, a: Word, mark: Word, r: Stretch)
    requires WellFormed(p)
    ensures ZeroCheck(p, a, mark).0 == Some(r) <==> exists base: Reg :: RunFound(p, a, mark, r, base)
  {
    hide WellFormed, Greedy, Cost, Prices, Full, WholeRun, Abutting, SoFar;
    if ZeroCheck(p, a, mark).0 == Some(r) {
      var base := ZeroStore(p, a).value.base;
      BegunIsRun(p, a);
      FullIsRun(p, a, base, Begun(p, a));
      RunIsAlong(p, a, base, r);
      FullEnds(p, base, Begun(p, a));
      WholeIs(p, a, base, r.at, r.zs, r.lo, r.hi);
      assert RunFound(p, a, mark, r, base);
    }
    if base: Reg :| RunFound(p, a, mark, r, base) {
      FoundIsFull(p, a, mark, r, base);
      CoverSome(r.lo, r.hi, base);
    }
  }

  lemma WholeIs(p: Program, a: Word, base: Reg, line: seq<Word>, zs: seq<Zero>, lo: int, hi: int)
    requires RunAlong(p, a, base, line, zs, lo, hi)
    ensures WholeRun(p, a, base, line, zs, lo, hi) <==> Grown(p, base, SoFar(p, a, base, line, zs, lo, hi)).None?
  {
    hide RunAlong, GoesLonger, Grown;
    assert Chain(p, a, line) by { AlongHas(p, a, base, line, zs, lo, hi); }
    GrownExactly(p, base, SoFar(p, a, base, line, zs, lo, hi));
  }

  lemma AlongHas(p: Program, a: Word, base: Reg, line: seq<Word>, zs: seq<Zero>, lo: int, hi: int)
    requires RunAlong(p, a, base, line, zs, lo, hi)
    ensures Chain(p, a, line) && Abutting(zs, lo, hi) && zs != []
  {
  }

  lemma FoundIsFull(p: Program, a: Word, mark: Word, r: Stretch, base: Reg)
    requires WellFormed(p) && RunFound(p, a, mark, r, base)
    ensures ZeroStore(p, a).Some? && ZeroStore(p, a).value.base == base && Full(p, base, Begun(p, a)) == r
    ensures r.lo < r.hi && r.bytes == Prices(r.zs, base)
  {
    hide WellFormed, Greedy, Cost, Prices, RunAlong, GoesLonger, Grown, ZeroStore;
    AlongHas(p, a, base, r.at, r.zs, r.lo, r.hi);
    WholeIs(p, a, base, r.at, r.zs, r.lo, r.hi);
    FullAlong(p, a, base, r.at, r.zs, r.lo, r.hi);
    SomeRange(r.zs, r.lo, r.hi);
  }

  lemma SomeRange(zs: seq<Zero>, lo: int, hi: int)
    requires Abutting(zs, lo, hi) && zs != []
    ensures lo < hi
  {
    var z, rest := zs[|zs| - 1], zs[..|zs| - 1];
    if z.off + z.w == hi && Abutting(rest, lo, z.off) {
      RunGrows(rest, lo, z.off);
    } else {
      RunGrows(rest, lo + z.w, hi);
    }
  }

  lemma CoverSome(lo: int, hi: int, base: Reg)
    requires lo < hi
    ensures Greedy(lo, hi) != []
  {
    hide Widest;
  }

  /** A run is judged once: the mark goes to where it ends. */
  lemma MarkGoesToEnd(p: Program, a: Word, mark: Word, base: Reg, line: seq<Word>, zs: seq<Zero>, lo: int, hi: int)
    requires WellFormed(p) && mark <= a && WholeRun(p, a, base, line, zs, lo, hi)
    ensures Chain(p, a, line) && ZeroCheck(p, a, mark).1 == AfterAll(p, a, line)
  {
    hide WellFormed, Greedy, Cost, Prices, RunAlong, GoesLonger, Grown, ZeroStore;
    AlongHas(p, a, base, line, zs, lo, hi);
    WholeIs(p, a, base, line, zs, lo, hi);
    FullAlong(p, a, base, line, zs, lo, hi);
  }
}
