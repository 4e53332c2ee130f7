/** Which near misses are found: of every core, one where there is any, and no farther than
    it need be. */
module FusionMisses {
  import opened Wrappers
  import opened Machine
  import opened Fusion
  import opened Reorder
  import opened Mending
  import opened FusionScan

  // ---- what there is to find ----

  /** The two adjacent instructions would fuse with the operands of the second the other way
      round, or with another first destination, which is dead after them. */
  ghost predicate AdjacentMiss(state: Option<Program>, a: Held, y: Unit, p: Pair) {
    var x := a.unit;
    p.Of() !in a.fused &&
    (FuseTest(p, x.Op(), x.len, y.Op(), y.len) == Swap
     || (FuseTest(p, x.Op(), x.len, y.Op(), y.len) == Rename && !y.target && DeadAfter(state, y, x.Op().rd)))
  }

  /** The instructions after the `k`-th back, in order. */
  function Between(before: seq<Held>, k: nat): seq<Unit>
    requires k <= |before|
  {
    if k == 0 then [] else [before[k - 1].unit] + Between(before, k - 1)
  }

  /** The `k`-th instruction back would fuse but for those between, which one of the two can
      be moved past. */
  ghost predicate SplitMiss(y: Unit, before: seq<Held>, k: nat, p: Pair) {
    && 0 < k <= GAP && k < |before| && p.Of() !in before[k].fused && p != CMov && Fuses(p, before[k].unit, y)
    && (MaySink(before[k].unit, Between(before, k)) || MayHoist(before[k].unit, Between(before, k), y))
  }

  /** Nothing up to the `k`-th back names what ties the pair, ends the line or is a side entry. */
  predicate Clear(y: Unit, before: seq<Held>, k: nat)
    requires k <= |before|
  {
    forall j :: 0 <= j < k ==> Lets(y, before[j].unit)
  }

  predicate Lets(y: Unit, u: Unit) {
    Passable(u) && y.Op().rs1 !in Reads(u.insn) + Writes(u.insn)
  }

  /** Some pair of the core `c` is split at `k`. */
  ghost predicate SplitAt(y: Unit, before: seq<Held>, k: nat, c: Core) {
    k < |before| && Clear(y, before, k) && exists p: Pair :: SplitMiss(y, before, k, p) && p.Of() == c
  }

  ghost predicate AdjacentOf(state: Option<Program>, a: Held, y: Unit, c: Core) {
    exists p: Pair :: AdjacentMiss(state, a, y, p) && p.Of() == c
  }

  ghost predicate NearMiss(state: Option<Program>, b: Held, before: seq<Held>, c: Core) {
    before != [] &&
    (AdjacentOf(state, before[0], b.unit, c)
     || (state.Some? && IsRegister(b.unit.Op().rs1) && exists k :: SplitAt(b.unit, before, k, c)))
  }

  predicate IsRegister(f: Field) {
    f != 0 && f != NoReg
  }

  // ---- one instruction's misses ----

  ghost predicate Tallied(t: Tally, fused: set<Core>, c: Core) {
    c in t.done <==> c in fused || exists m :: m in t.found && m.pair.Of() == c
  }

  lemma ReportedTallied(t: Tally, m: Miss, fused: set<Core>, c: Core)
    requires Tallied(t, fused, c)
    ensures Tallied(Reported(t, m), fused, c)
  {
    var u := Reported(t, m);
    assert m in u.found;
    assert forall n :: n in u.found <==> n in t.found || n == m;
  }

  /** The pairs of `c` from the `i`-th on. */
  ghost predicate AdjacentFrom(state: Option<Program>, a: Held, y: Unit, i: nat, c: Core) {
    exists j :: i <= j < |Pairs| && AdjacentMiss(state, a, y, Pairs[j]) && Pairs[j].Of() == c
  }

  lemma {:induction false} AdjacentFound(state: Option<Program>, a: Held, y: Unit, t: Tally, i: nat, fused: set<Core>,
                                         c: Core)
    requires i <= |Pairs| && Tallied(t, fused, c)
    ensures var u := AdjacentAll(state, a, y, t, i);
            Tallied(u, fused, c) && (c in u.done <==> c in t.done || AdjacentFrom(state, a, y, i, c))
    decreases |Pairs| - i
  {
    hide Tallied, AdjacentMiss, AdjacentOne, Reported;
    if i < |Pairs| {
      AdjacentStep(state, a, y, Pairs[i], t, fused, c);
      AdjacentFound(state, a, y, AdjacentOne(state, a, y, Pairs[i], t), i + 1, fused, c);
    }
  }

  lemma AdjacentStep(state: Option<Program>, a: Held, y: Unit, p: Pair, t: Tally, fused: set<Core>, c: Core)
    requires Tallied(t, fused, c)
    ensures var u := AdjacentOne(state, a, y, p, t);
            && Tallied(u, fused, c)
            && (c in u.done <==> c in t.done || (AdjacentMiss(state, a, y, p) && p.Of() == c))
  {
    hide Tallied, DeadAfter, FuseTest, FuseDecode;
    ReportedTallied(t, Miss(p, Swapped, a.unit, y, []), fused, c);
    ReportedTallied(t, Miss(p, Renamed, a.unit, y, []), fused, c);
  }

  ghost predicate SplitPair(x: Held, y: Unit, p: Pair) {
    p.Of() !in x.fused && MaySplit(p) && Fuses(p, x.unit, y)
  }

  ghost predicate SplitFrom(x: Held, y: Unit, i: nat, c: Core) {
    exists j :: i <= j < |Pairs| && SplitPair(x, y, Pairs[j]) && Pairs[j].Of() == c
  }

  lemma {:induction false} SplitsFound(x: Held, y: Unit, between: seq<Unit>, t: Tally, i: nat, fused: set<Core>,
                                       c: Core)
    requires i <= |Pairs| && Tallied(t, fused, c)
    ensures var u := SplitAll(x, y, between, t, i);
            Tallied(u, fused, c) && (c in u.done <==> c in t.done || SplitFrom(x, y, i, c))
    decreases |Pairs| - i
  {
    hide Tallied, SplitPair, SplitOne;
    if i < |Pairs| {
      SplitStep(x, y, between, Pairs[i], t, fused, c);
      SplitsFound(x, y, between, SplitOne(x, y, between, Pairs[i], t), i + 1, fused, c);
    }
  }

  lemma SplitStep(x: Held, y: Unit, between: seq<Unit>, p: Pair, t: Tally, fused: set<Core>, c: Core)
    requires Tallied(t, fused, c)
    ensures var u := SplitOne(x, y, between, p, t);
            Tallied(u, fused, c) && (c in u.done <==> c in t.done || (SplitPair(x, y, p) && p.Of() == c))
  {
    hide Tallied, FuseTest, FuseDecode;
    ReportedTallied(t, Miss(p, Split, x.unit, y, between), fused, c);
  }

  lemma NamedOne(u: Unit, between: seq<Unit>)
    ensures AllNamed([u] + between) == Reads(u.insn) + Writes(u.insn) + AllNamed(between)
  {
    hide Reads, Writes;
    assert ([u] + between)[1..] == between;
  }

  lemma {:induction false} NamedBetween(y: Unit, before: seq<Held>, k: nat)
    requires k <= |before| && Clear(y, before, k)
    ensures y.Op().rs1 !in AllNamed(Between(before, k))
  {
    hide Reads, Writes, FuseDecode, Passable;
    if k > 0 {
      assert Clear(y, before, k - 1);
      NamedBetween(y, before, k - 1);
      assert Lets(y, before[k - 1].unit);
      NamedOne(before[k - 1].unit, Between(before, k - 1));
    }
  }

  /** From the `k`-th back on. */
  ghost predicate SplitBeyond(y: Unit, before: seq<Held>, k: nat, c: Core) {
    exists j :: k <= j && SplitAt(y, before, j, c)
  }

  lemma {:induction false} BackwardFinds(y: Unit, before: seq<Held>, k: nat, t: Tally, fused: set<Core>, c: Core)
    requires k <= |before| && Clear(y, before, k) && Tallied(t, fused, c)
    ensures var u := Backward(y, before, k, Between(before, k), t);
            Tallied(u, fused, c) && (c in u.done <==> c in t.done || SplitBeyond(y, before, k, c))
    decreases GAP + 1 - k
  {
    hide Tallied, SplitAll, SplitAt, AllNamed, MaySink, MayHoist, Clear, Lets;
    if k < |before| && k <= GAP {
      var x, between := before[k], Between(before, k);
      SplitsFound(x, y, between, t, 0, fused, c);
      SplitHere(y, before, k, c);
      var t1 := if k > 0 && MayMove(x.unit, between, y) then SplitAll(x, y, between, t, 0) else t;
      ClearOn(y, before, k);
      NamedBetween(y, before, k);
      NamedOne(x.unit, between);
      LetsIs(y, x.unit);
      BeyondOn(y, before, k, c);
      if Lets(y, x.unit) {
        BackwardFinds(y, before, k + 1, t1, fused, c);
      }
    } else {
      NoneBeyond(y, before, k, c);
    }
  }

  lemma LetsIs(y: Unit, u: Unit)
    ensures Lets(y, u) <==> Passable(u) && y.Op().rs1 !in Reads(u.insn) + Writes(u.insn)
  {
  }

  lemma ClearOn(y: Unit, before: seq<Held>, k: nat)
    requires k < |before| && Clear(y, before, k)
    ensures Clear(y, before, k + 1) <==> Lets(y, before[k].unit)
  {
    hide Lets;
  }

  lemma SplitHere(y: Unit, before: seq<Held>, k: nat, c: Core)
    requires k < |before| && k <= GAP && Clear(y, before, k)
    ensures SplitAt(y, before, k, c) <==>
            k > 0 && MayMove(before[k].unit, Between(before, k), y) && SplitFrom(before[k], y, 0, c)
  {
    hide Clear, Fuses, MaySink, MayHoist, Between;
    if p: Pair :| SplitMiss(y, before, k, p) && p.Of() == c {
      ListedAt(p);
      assert SplitPair(before[k], y, Pairs[Position(p)]);
    }
    if k > 0 && MayMove(before[k].unit, Between(before, k), y) && SplitFrom(before[k], y, 0, c) {
      var j :| 0 <= j < |Pairs| && SplitPair(before[k], y, Pairs[j]) && Pairs[j].Of() == c;
      assert SplitMiss(y, before, k, Pairs[j]);
    }
  }

  lemma NoneBeyond(y: Unit, before: seq<Held>, k: nat, c: Core)
    requires k >= |before| || k > GAP
    ensures !SplitBeyond(y, before, k, c)
  {
    hide Clear, Fuses, MaySink, MayHoist, Between;
  }

  /** Beyond the `k`-th: it, or, if it lets the walk by, one farther. */
  lemma BeyondOn(y: Unit, before: seq<Held>, k: nat, c: Core)
    requires k < |before| && Clear(y, before, k)
    ensures SplitBeyond(y, before, k, c) <==>
            SplitAt(y, before, k, c) || (Lets(y, before[k].unit) && SplitBeyond(y, before, k + 1, c))
  {
    hide SplitMiss, Lets;
    if SplitBeyond(y, before, k, c) {
      var j :| k <= j && SplitAt(y, before, j, c);
      if j > k { assert Lets(y, before[k].unit); }
    }
  }

  lemma AdjacentListed(state: Option<Program>, a: Held, y: Unit, c: Core)
    ensures AdjacentFrom(state, a, y, 0, c) <==> AdjacentOf(state, a, y, c)
  {
    hide AdjacentMiss;
    if p: Pair :| AdjacentMiss(state, a, y, p) && p.Of() == c {
      ListedAt(p);
      assert AdjacentMiss(state, a, y, Pairs[Position(p)]);
    }
  }

  /** A core that did not fuse the instruction has a miss counted exactly when there is one
      to find: a swap, a rename or a split within reach. */
  lemma MissesExactly(state: Option<Program>, b: Held, before: seq<Held>, c: Core)
    requires c !in b.fused
    ensures (exists m :: m in MissesOf(state, b, before) && m.pair.Of() == c) <==> NearMiss(state, b, before, c)
  {
    hide AdjacentAll, Backward, FuseDecode, SplitAt, AdjacentOf;
    if before != [] {
      var t0 := Tally(b.fused, []);
      AdjacentFound(state, before[0], b.unit, t0, 0, b.fused, c);
      AdjacentListed(state, before[0], b.unit, c);
      var t := AdjacentAll(state, before[0], b.unit, t0, 0);
      ClearNone(b.unit, before);
      BackwardFinds(b.unit, before, 0, t, b.fused, c);
      assert c in AllCores;
    }
  }

  lemma ClearNone(y: Unit, before: seq<Held>)
    ensures Clear(y, before, 0) && Between(before, 0) == []
  {
  }

  // ---- which one ----

  /** Those of `c` in `u` were in `t`, or are split by `between`; if it had one, they were. */
  ghost predicate NewBy(t: Tally, u: Tally, between: seq<Unit>, c: Core) {
    && t.done <= u.done
    && forall m :: m in u.found && m.pair.Of() == c && m !in t.found ==>
         c !in t.done && m.near.Split? && m.between == between
  }

  lemma {:induction false} SplitsNew(x: Held, y: Unit, between: seq<Unit>, t: Tally, i: nat, c: Core)
    requires i <= |Pairs|
    ensures NewBy(t, SplitAll(x, y, between, t, i), between, c)
    decreases |Pairs| - i
  {
    hide Fuses;
    if i < |Pairs| {
      SplitsNew(x, y, between, SplitOne(x, y, between, Pairs[i], t), i + 1, c);
    }
  }

  /** Split at the nearest place it could be from the `k`-th back on. */
  ghost predicate NearestFrom(y: Unit, before: seq<Held>, k: nat, c: Core, between: seq<Unit>) {
    exists j :: k <= j && SplitAt(y, before, j, c) && between == Between(before, j)
                && forall i :: k <= i < j ==> !SplitAt(y, before, i, c)
  }

  lemma {:induction false} BackwardNearest(y: Unit, before: seq<Held>, k: nat, t: Tally, fused: set<Core>, c: Core)
    requires k <= |before| && Clear(y, before, k) && Tallied(t, fused, c)
    ensures var u := Backward(y, before, k, Between(before, k), t);
            forall m :: m in u.found && m.pair.Of() == c && m !in t.found ==>
              c !in t.done && m.near.Split? && NearestFrom(y, before, k, c, m.between)
    decreases GAP + 1 - k
  {
    hide SplitAll, SplitAt, AllNamed, MaySink, MayHoist, Clear, Lets, NearestFrom;
    if k < |before| && k <= GAP {
      var x, between := before[k], Between(before, k);
      SplitsFound(x, y, between, t, 0, fused, c);
      SplitsNew(x, y, between, t, 0, c);
      SplitHere(y, before, k, c);
      var t1 := if k > 0 && MayMove(x.unit, between, y) then SplitAll(x, y, between, t, 0) else t;
      ClearOn(y, before, k);
      NamedBetween(y, before, k);
      NamedOne(x.unit, between);
      LetsIs(y, x.unit);
      NearestHere(y, before, k, c);
      if Lets(y, x.unit) {
        BackwardNearest(y, before, k + 1, t1, fused, c);
      }
    }
  }

  lemma NearestHere(y: Unit, before: seq<Held>, k: nat, c: Core)
    requires k < |before|
    ensures SplitAt(y, before, k, c) ==> NearestFrom(y, before, k, c, Between(before, k))
    ensures !SplitAt(y, before, k, c) ==>
              forall b :: NearestFrom(y, before, k + 1, c, b) ==> NearestFrom(y, before, k, c, b)
  {
    hide SplitMiss, Clear;
    forall b | !SplitAt(y, before, k, c) && NearestFrom(y, before, k + 1, c, b)
      ensures NearestFrom(y, before, k, c, b)
    {
      var j :| k + 1 <= j && SplitAt(y, before, j, c) && b == Between(before, j)
               && forall i :: k + 1 <= i < j ==> !SplitAt(y, before, i, c);
    }
  }

  lemma {:induction false} AdjacentUnsplit(state: Option<Program>, a: Held, y: Unit, t: Tally, i: nat)
    requires i <= |Pairs| && forall m :: m in t.found ==> !m.near.Split?
    ensures forall m :: m in AdjacentAll(state, a, y, t, i).found ==> !m.near.Split?
    decreases |Pairs| - i
  {
    hide FuseTest, FuseDecode, DeadAfter;
    if i < |Pairs| {
      AdjacentUnsplit(state, a, y, AdjacentOne(state, a, y, Pairs[i], t), i + 1);
    }
  }

  /** A miss that is split stands where no adjacent one of its core does, at the nearest
      place. */
  lemma NearestFirst(state: Option<Program>, b: Held, before: seq<Held>, m: Miss)
    requires m in MissesOf(state, b, before) && m.near.Split?
    ensures before != [] && !AdjacentOf(state, before[0], b.unit, m.pair.Of())
    ensures NearestFrom(b.unit, before, 0, m.pair.Of(), m.between)
  {
    hide AdjacentAll, Backward, FuseDecode, SplitAt, AdjacentOf, NearestFrom;
    var c, t0 := m.pair.Of(), Tally(b.fused, []);
    AdjacentFound(state, before[0], b.unit, t0, 0, b.fused, c);
    AdjacentUnsplit(state, before[0], b.unit, t0, 0);
    AdjacentListed(state, before[0], b.unit, c);
    ClearNone(b.unit, before);
    BackwardNearest(b.unit, before, 0, AdjacentAll(state, before[0], b.unit, t0, 0), b.fused, c);
  }
}
