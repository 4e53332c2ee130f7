/** The fusion report of one section: a ring of the latest instructions, the pairs
    counted as they complete and the misses judged one instruction later. */
module FusionScan {
  import opened Words
  import opened Wrappers
  import opened Machine
  import opened Liveness
  import opened Fusion
  import opened Reorder
  import opened Mending

  /** The slots of the ring. */
  const RING: nat := 10

  datatype Held = Held(unit: Unit, fused: set<Core>)

  const Blank: Held := Held(Unit(0, Nop, 0, false), {})

  // ---- what the ring and the cells should hold ----

  /** How many instructions end the section without a gap. */
  function Unbroken(s: Section): (n: nat)
    ensures n <= |s|
  {
    if s == [] || s[|s| - 1].None? then 0 else 1 + Unbroken(s[..|s| - 1])
  }

  ghost function FusedIn(s: Section, k: int): set<Core> {
    set c: Core | Paired(c, s, k - 1) || Paired(c, s, k)
  }

  /** Pairs of one kind counted among the first `n`. */
  function CellCount(p: Pair, s: Section, n: nat): nat
    requires n <= |s|
  {
    if n < 2 then 0
    else CellCount(p, s, n - 1) + if Counts(p, s, n - 2) then 1 else 0
  }

  predicate Counts(p: Pair, s: Section, k: int) {
    Paired(p.Of(), s, k) && FirstPair(p.Of(), s[k].value, s[k + 1].value, 0) == Some(p)
  }

  /** What has been decoded so far decides what was paired. */
  lemma {:induction false} PairedPrefix(c: Core, s: Section, t: Section, k: int)
    requires |s| <= |t| && t[..|s|] == s && k + 1 < |s|
    ensures Paired(c, t, k) == Paired(c, s, k)
    decreases k
  {
    hide FirstPair;
    if k >= 0 {
      assert t[k] == t[..|s|][k] && t[k + 1] == t[..|s|][k + 1];
      if k > 0 {
        PairedPrefix(c, s, t, k - 1);
      }
    }
  }

  lemma CountsPrefix(p: Pair, s: Section, t: Section, k: nat)
    requires |s| <= |t| && t[..|s|] == s && k + 1 < |s|
    ensures Counts(p, t, k) == Counts(p, s, k)
  {
    hide Paired, FirstPair;
    PairedPrefix(p.Of(), s, t, k);
    assert t[k] == t[..|s|][k] && t[k + 1] == t[..|s|][k + 1];
  }

  lemma {:induction false} CellPrefix(p: Pair, s: Section, t: Section, n: nat)
    requires |s| <= |t| && t[..|s|] == s && n <= |s|
    ensures CellCount(p, t, n) == CellCount(p, s, n)
  {
    hide Counts;
    if n >= 2 {
      CellPrefix(p, s, t, n - 1);
      CountsPrefix(p, s, t, n - 2);
    }
  }

  lemma NonePairedAtEnd(c: Core, s: Section)
    ensures !Paired(c, s, |s| - 1) && (|s| > 0 && s[|s| - 1].None? ==> !Paired(c, s, |s| - 2))
  {
  }

  /** One pair of the core at most is counted for two instructions. */
  function OfCore(c: Core, s: Section, n: nat, from: nat): nat
    requires n <= |s| && from <= |Pairs|
    decreases |Pairs| - from
  {
    if from == |Pairs| then 0
    else (if Pairs[from].Of() == c then CellCount(Pairs[from], s, n) else 0) + OfCore(c, s, n, from + 1)
  }

  lemma {:induction false} OfCoreGrows(c: Core, s: Section, n: nat, from: nat)
    requires 2 <= n <= |s| && from <= |Pairs|
    ensures OfCore(c, s, n, from) == OfCore(c, s, n - 1, from) + if CountedWithin(c, s, n - 2, from) then 1 else 0
    decreases |Pairs| - from
  {
    hide Paired, FirstPair, CountedWithin, Counts;
    if from < |Pairs| {
      OfCoreGrows(c, s, n, from + 1);
      CountsHere(c, s, n - 2, from);
    } else {
      NothingWithin(c, s, n - 2);
    }
  }

  lemma NothingWithin(c: Core, s: Section, k: int)
    ensures !CountedWithin(c, s, k, |Pairs|)
  {
    hide Paired, FirstPair;
  }

  lemma CountsHere(c: Core, s: Section, k: int, from: nat)
    requires from < |Pairs|
    ensures var here := Pairs[from].Of() == c && Counts(Pairs[from], s, k);
            && (CountedWithin(c, s, k, from) <==> here || CountedWithin(c, s, k, from + 1))
            && !(here && CountedWithin(c, s, k, from + 1))
  {
    hide Within, FirstPair, Fuses;
    Elsewhere(from);
    if Paired(c, s, k) {
      PairedFirst(c, s, k);
      hide Paired;
      FirstOf(c, s[k].value, s[k + 1].value, 0);
    }
  }

  lemma PairedFirst(c: Core, s: Section, k: int)
    requires Paired(c, s, k)
    ensures 0 <= k && k + 1 < |s| && s[k].Some? && s[k + 1].Some? && FirstPair(c, s[k].value, s[k + 1].value, 0).Some?
  {
    hide FirstPair;
  }

  predicate CountedWithin(c: Core, s: Section, k: int, from: nat)
    requires from <= |Pairs|
  {
    Paired(c, s, k) && var f := FirstPair(c, s[k].value, s[k + 1].value, 0); f.Some? && Within(f.value, from)
  }

  /** The pair is listed at `from` or after. */
  predicate Within(p: Pair, from: nat)
    requires from <= |Pairs|
  {
    p in Pairs[from..]
  }

  lemma Elsewhere(from: nat)
    requires from < |Pairs|
    ensures forall p :: Within(p, from) <==> p == Pairs[from] || Within(p, from + 1)
    ensures !Within(Pairs[from], from + 1)
  {
    OneMore(Pairs, from);
    forall j | from < j < |Pairs| ensures Pairs[j] != Pairs[from] {
      PositionIs(j);
      PositionIs(from);
    }
    NotLater(Pairs, from);
    hide Pairs;
  }

  lemma OneMore(s: seq<Pair>, from: nat)
    requires from < |s|
    ensures forall p :: p in s[from..] <==> p == s[from] || p in s[from + 1..]
  {
    assert s[from..] == [s[from]] + s[from + 1..];
  }

  lemma NotLater(s: seq<Pair>, from: nat)
    requires from < |s| && forall j :: from < j < |s| ==> s[j] != s[from]
    ensures s[from] !in s[from + 1..]
  {
  }

  /** Each pair is listed once. */
  lemma PositionIs(k: nat)
    requires k < |Pairs|
    ensures Position(Pairs[k]) == k
  {
  }

  lemma {:induction false} FirstOf(c: Core, x: Unit, y: Unit, from: nat)
    requires from <= |Pairs|
    ensures var f := FirstPair(c, x, y, from);
            f.Some? ==> f.value.Of() == c && Within(f.value, from) && Fuses(f.value, x, y)
    decreases |Pairs| - from
  {
    if from < |Pairs| {
      FirstOf(c, x, y, from + 1);
      Elsewhere(from);
    }
  }

  /** The cells of a core add up to the pairs it fuses. */
  lemma {:induction false} CellsAddUp(c: Core, s: Section, n: nat)
    requires n <= |s|
    ensures OfCore(c, s, n, 0) == Fused(c, s, n)
  {
    hide FirstPair, Within, Paired;
    if n < 2 {
      NoCells(c, s, n, 0);
    } else {
      CellsAddUp(c, s, n - 1);
      OfCoreGrows(c, s, n, 0);
      if Paired(c, s, n - 2) {
        PairedFirst(c, s, n - 2);
        FirstOf(c, s[n - 2].value, s[n - 1].value, 0);
      }
    }
  }

  lemma {:induction false} NoCells(c: Core, s: Section, n: nat, from: nat)
    requires n <= |s| && n < 2 && from <= |Pairs|
    ensures OfCore(c, s, n, from) == 0
    decreases |Pairs| - from
  {
    if from < |Pairs| {
      NoCells(c, s, n, from + 1);
    }
  }

  // ---- the near misses of one instruction ----

  ghost predicate AllMisses(state: Option<Program>, ms: seq<Miss>) {
    forall k :: 0 <= k < |ms| ==> IsMiss(state, ms[k])
  }

  /** Of the misses that are plain to judge, exactly the mendable are mended. */
  ghost predicate AllJudged(state: Option<Program>, ms: seq<Miss>) {
    forall k :: 0 <= k < |ms| && Plainly(ms[k]) ==> (Mended(state, ms[k]) <==> Mendable(ms[k]))
  }

  lemma MissesJudged(state: Option<Program>, ms: seq<Miss>)
    requires AllMisses(state, ms)
    ensures AllJudged(state, ms)
  {
    hide IsMiss, Plainly, Mended, Mendable;
    forall k | 0 <= k < |ms| && Plainly(ms[k]) ensures Mended(state, ms[k]) <==> Mendable(ms[k]) {
      MendedExactly(state, ms[k]);
    }
  }

  /** The halves and what is between them stand in the section as they do in the miss,
      the second half at `k`. */
  ghost predicate StandsAt(s: Section, m: Miss, k: nat) {
    && |m.between| < k < |s| && s[k] == Some(m.second) && s[k - 1 - |m.between|] == Some(m.first)
    && forall i :: 0 <= i < |m.between| ==> s[k - |m.between| + i] == Some(m.between[i])
  }

  ghost predicate Stands(s: Section, m: Miss) {
    exists k: nat :: StandsAt(s, m, k)
  }

  ghost predicate AllStand(s: Section, ms: seq<Miss>) {
    forall j :: 0 <= j < |ms| ==> Stands(s, ms[j])
  }

  lemma StillStand(s: Section, o: Option<Unit>, ms: seq<Miss>)
    ensures AllStand(s, ms) ==> AllStand(s + [o], ms)
    ensures o == None && AllStand(s + [o], ms) ==> AllStand(s, ms)
  {
    forall j | 0 <= j < |ms|
      ensures Stands(s, ms[j]) ==> Stands(s + [o], ms[j])
      ensures o == None && Stands(s + [o], ms[j]) ==> Stands(s, ms[j])
    {
      StillStands(s, o, ms[j]);
    }
  }

  lemma StillStands(s: Section, o: Option<Unit>, m: Miss)
    ensures Stands(s, m) ==> Stands(s + [o], m)
    ensures o == None && Stands(s + [o], m) ==> Stands(s, m)
  {
    if Stands(s, m) {
      var k: nat :| StandsAt(s, m, k);
      assert StandsAt(s + [o], m, k);
    }
    if o == None && Stands(s + [o], m) {
      var k: nat :| StandsAt(s + [o], m, k);
      assert StandsAt(s, m, k);
    }
  }

  /** The section is the program's code. */
  ghost predicate OfProgram(p: Program, s: Section) {
    forall k :: 0 <= k < |s| && s[k].Some? ==>
      && StandsIn(p, s[k].value)
      && (k + 1 < |s| && s[k + 1].Some? ==> s[k + 1].value.addr == s[k].value.addr + s[k].value.len)
  }

  /** A rename found in the program's code is invisible in all its runs. */
  lemma ScannedRename(p: Program, section: Section, m: Miss, s: State, n: nat)
    requires WellFormed(p) && OfProgram(p, section) && Stands(section, m) && IsMiss(Some(p), m) && m.near.Renamed?
             && Mendable(m)
    requires ZeroSafe(p, Wrap(m.second.addr + m.second.len), XDest(m.first.insn)) && s.pc == m.first.addr
    ensures var d, e := XDest(m.first.insn), XDest(m.second.insn);
            var was := Run(p, s, 2);
            var now := Effect(Reading(m.second.insn, d, e), 4, Effect(WithDest(m.first.insn, e), 4, s)).(pc := was.pc);
            Run(p, now, n) == if WrittenWithin(p, was, d, n) then Run(p, was, n) else SetX(Run(p, was, n), d, X(s, d))
  {
    RenamedIs(Some(p), m);
    HalvesStand(p, section, m);
    hide *;
    RenameIsInvisible(p, m, s, n);
  }

  lemma RenamedIs(state: Option<Program>, m: Miss)
    requires IsMiss(state, m) && m.near.Renamed?
    ensures m.between == []
  {
    hide FoundDead, FuseTest, FuseDecode;
  }

  lemma HalvesStand(p: Program, section: Section, m: Miss)
    requires OfProgram(p, section) && Stands(section, m) && m.between == []
    ensures StandsIn(p, m.first) && StandsIn(p, m.second) && m.second.addr == m.first.addr + m.first.len
  {
    hide StandsIn;
    var k: nat :| StandsAt(section, m, k);
    assert section[k - 1] == Some(m.first) && section[k] == Some(m.second);
  }

  /** They stand newest first in `before`, the second half before them all. */
  ghost predicate TakenFrom(m: Miss, y: Unit, before: seq<Held>) {
    && m.second == y && |m.between| < |before| && m.first == before[|m.between|].unit
    && forall i :: 0 <= i < |m.between| ==> m.between[i] == before[|m.between| - 1 - i].unit
  }

  ghost predicate AllTaken(ms: seq<Miss>, y: Unit, before: seq<Held>) {
    forall k :: 0 <= k < |ms| ==> TakenFrom(ms[k], y, before)
  }

  lemma TakenStands(ring: seq<Held>, n: nat, s: Section, off: nat, ms: seq<Miss>)
    requires RingIs(ring, n, s) && off < n && n <= |ring| && AllTaken(ms, ring[off].unit, ring[off + 1..n])
    ensures AllStand(s, ms)
  {
    hide FusedIn;
    forall j | 0 <= j < |ms| ensures Stands(s, ms[j]) {
      var m := ms[j];
      assert TakenFrom(m, ring[off].unit, ring[off + 1..n]);
      assert RingHolds(ring, s, off) && RingHolds(ring, s, off + 1 + |m.between|);
      forall i | 0 <= i < |m.between| ensures s[|s| - 1 - off - |m.between| + i] == Some(m.between[i]) {
        assert RingHolds(ring, s, off + |m.between| - i);
      }
      assert StandsAt(s, m, |s| - 1 - off);
    }
  }

  /** Every core misses once, and none that has fused either half. */
  ghost predicate OncePerCore(ms: seq<Miss>, done: set<Core>, fused: set<Core>) {
    && fused <= done
    && (forall k :: 0 <= k < |ms| ==> ms[k].pair.Of() in done && ms[k].pair.Of() !in fused)
    && (forall j, k :: 0 <= j < k < |ms| ==> ms[j].pair.Of() != ms[k].pair.Of())
  }

  // ---- judging one instruction ----

  /** The cores whose miss is counted, and the misses. */
  datatype Tally = Tally(done: set<Core>, found: seq<Miss>)

  function Reported(t: Tally, m: Miss): Tally {
    Tally(t.done + {m.pair.Of()}, t.found + [m])
  }

  predicate DeadAfter(state: Option<Program>, y: Unit, r: Field) {
    state.Some? && r != NoReg && WalkAnswer(state.value, Wrap(y.addr + y.len), r) == Dead
  }

  /** One pair of adjacent instructions: a swap needs nothing more, a rename its
      first destination dead afterwards and no branch into the second. */
  function AdjacentOne(state: Option<Program>, a: Held, y: Unit, p: Pair, t: Tally): Tally {
    var x := a.unit;
    var r := FuseTest(p, x.Op(), x.len, y.Op(), y.len);
    if p.Of() in t.done + a.fused then t
    else if r == Swap then Reported(t, Miss(p, Swapped, x, y, []))
    else if r == Rename && !y.target && DeadAfter(state, y, x.Op().rd) then Reported(t, Miss(p, Renamed, x, y, []))
    else t
  }

  function AdjacentAll(state: Option<Program>, a: Held, y: Unit, t: Tally, i: nat): Tally
    requires i <= |Pairs|
    decreases |Pairs| - i
  {
    if i == |Pairs| then t else AdjacentAll(state, a, y, AdjacentOne(state, a, y, Pairs[i], t), i + 1)
  }

  /** One pair whose halves stand apart. */
  function SplitOne(x: Held, y: Unit, between: seq<Unit>, p: Pair, t: Tally): Tally {
    if MaySplit(p) && p.Of() !in t.done + x.fused && Fuses(p, x.unit, y) then
        Reported(t, Miss(p, Split, x.unit, y, between))
    else t
  }

  function SplitAll(x: Held, y: Unit, between: seq<Unit>, t: Tally, i: nat): Tally
    requires i <= |Pairs|
    decreases |Pairs| - i
  {
    if i == |Pairs| then t else SplitAll(x, y, between, SplitOne(x, y, between, Pairs[i], t), i + 1)
  }

  predicate MayMove(x: Unit, between: seq<Unit>, y: Unit) {
    MaySink(x, between) || MayHoist(x, between, y)
  }

  /** Backwards from the second half, newest first, until something names its tied
      register, ends the line or is a side entry. */
  function Backward(y: Unit, before: seq<Held>, k: nat, between: seq<Unit>, t: Tally): Tally
    decreases GAP + 1 - k
  {
    if k >= |before| || k > GAP then t
    else
      var x := before[k];
      var t1 := if k > 0 && MayMove(x.unit, between, y) then SplitAll(x, y, between, t, 0) else t;
      if !Passable(x.unit) || y.Op().rs1 in AllNamed([x.unit] + between) then t1
      else Backward(y, before, k + 1, [x.unit] + between, t1)
  }

  const AllCores: set<Core> := {X100, SiFive, XiangShan}

  /** The misses of `b`, the instructions before it newest first. */
  function MissesOf(state: Option<Program>, b: Held, before: seq<Held>): seq<Miss> {
    if b.fused == AllCores || before == [] then []
    else
      var t := AdjacentAll(state, before[0], b.unit, Tally(b.fused, []), 0);
      var tied := b.unit.Op().rs1;
      if state.None? || t.done == AllCores || tied == 0 || tied == NoReg then t.found
          else Backward(b.unit, before, 0, [], t).found
  }

  /** Every miss is what it says, and each core misses once. */
  ghost predicate Sound(state: Option<Program>, t: Tally, fused: set<Core>) {
    AllMisses(state, t.found) && OncePerCore(t.found, t.done, fused)
  }

  lemma ReportedSound(state: Option<Program>, t: Tally, fused: set<Core>, m: Miss)
    requires Sound(state, t, fused) && IsMiss(state, m) && m.pair.Of() !in t.done
    ensures Sound(state, Reported(t, m), fused)
  {
    hide IsMiss;
  }

  lemma AdjacentSound(state: Option<Program>, a: Held, y: Unit, p: Pair, t: Tally, fused: set<Core>)
    requires Sound(state, t, fused) && (state.Some? ==> WellFormed(state.value))
    ensures Sound(state, AdjacentOne(state, a, y, p, t), fused)
  {
    hide FuseTest, FuseDecode, WellFormed, WalkAnswer, WalkClosed, Sound, FoundDead;
    var x := a.unit;
    if p.Of() !in t.done + a.fused {
      var r := FuseTest(p, x.Op(), x.len, y.Op(), y.len);
      if r == Swap {
        ReportedSound(state, t, fused, Miss(p, Swapped, x, y, []));
      } else if r == Rename && !y.target && DeadAfter(state, y, x.Op().rd) {
        WalkedDead(state, y, x.Op().rd);
        ReportedSound(state, t, fused, Miss(p, Renamed, x, y, []));
      }
    }
  }

  lemma WalkedDead(state: Option<Program>, y: Unit, r: Field)
    requires DeadAfter(state, y, r) && WellFormed(state.value)
    ensures r != NoReg && FoundDead(state, Wrap(y.addr + y.len), r)
  {
    hide WellFormed, WalkAnswer, WalkClosed;
    WalkAnswers(state.value, Wrap(y.addr + y.len), r);
  }

  lemma {:induction false} AdjacentAllSound(state: Option<Program>, a: Held, y: Unit, t: Tally, i: nat,
                                            fused: set<Core>)
    requires i <= |Pairs| && Sound(state, t, fused) && (state.Some? ==> WellFormed(state.value))
    ensures Sound(state, AdjacentAll(state, a, y, t, i), fused)
    decreases |Pairs| - i
  {
    hide Sound, AdjacentOne, WellFormed;
    if i < |Pairs| {
      AdjacentSound(state, a, y, Pairs[i], t, fused);
      AdjacentAllSound(state, a, y, AdjacentOne(state, a, y, Pairs[i], t), i + 1, fused);
    }
  }

  lemma {:induction false} SplitAllSound(state: Option<Program>, x: Held, y: Unit, between: seq<Unit>, t: Tally,
                                         i: nat, fused: set<Core>)
    requires i <= |Pairs| && Sound(state, t, fused) && MayMove(x.unit, between, y)
    requires 0 < |between| <= GAP && AllPassable(between)
    ensures Sound(state, SplitAll(x, y, between, t, i), fused)
    decreases |Pairs| - i
  {
    hide Sound, Fuses, MaySink, MayHoist, AllPassable;
    if i < |Pairs| {
      var p := Pairs[i];
      if MaySplit(p) && p.Of() !in t.done + x.fused && Fuses(p, x.unit, y) {
        ReportedSound(state, t, fused, Miss(p, Split, x.unit, y, between));
      }
      SplitAllSound(state, x, y, between, SplitOne(x, y, between, p, t), i + 1, fused);
    }
  }

  lemma {:induction false} BackwardSound(state: Option<Program>, y: Unit, before: seq<Held>, k: nat,
                                         between: seq<Unit>, t: Tally,
                                         fused: set<Core>)
    requires Sound(state, t, fused) && k <= GAP + 1 && |between| == k && AllPassable(between)
    ensures Sound(state, Backward(y, before, k, between, t), fused)
    decreases GAP + 1 - k
  {
    hide Sound, MayMove, SplitAll, AllNamed, AllPassable, Passable;
    if k < |before| && k <= GAP {
      var x := before[k];
      var t1 := if k > 0 && MayMove(x.unit, between, y) then SplitAll(x, y, between, t, 0) else t;
      if k > 0 && MayMove(x.unit, between, y) {
        SplitAllSound(state, x, y, between, t, 0, fused);
      }
      if Passable(x.unit) && y.Op().rs1 !in AllNamed([x.unit] + between) {
        BetweenGrows(x.unit, between);
        BackwardSound(state, y, before, k + 1, [x.unit] + between, t1, fused);
      }
    }
  }

  /** Every miss has passed the test of its kind and is mended exactly if mendable,
      and each core misses once, never a half it has fused. */
  lemma MissesSound(state: Option<Program>, b: Held, before: seq<Held>)
    requires state.Some? ==> WellFormed(state.value)
    ensures AllMisses(state, MissesOf(state, b, before)) && AllJudged(state, MissesOf(state, b, before))
    ensures exists done: set<Core> :: OncePerCore(MissesOf(state, b, before), done, b.fused)
  {
    hide WellFormed, AdjacentAll, Backward, IsMiss;
    assert Sound(state, Tally(b.fused, []), b.fused);
    if b.fused != AllCores && before != [] {
      AdjacentAllSound(state, before[0], b.unit, Tally(b.fused, []), 0, b.fused);
      var t := AdjacentAll(state, before[0], b.unit, Tally(b.fused, []), 0);
      BackwardSound(state, b.unit, before, 0, [], t, b.fused);
    }
    MissesJudged(state, MissesOf(state, b, before));
  }

  lemma ReportedTaken(t: Tally, m: Miss, y: Unit, before: seq<Held>)
    requires AllTaken(t.found, y, before) && TakenFrom(m, y, before)
    ensures AllTaken(Reported(t, m).found, y, before)
  {
    hide TakenFrom;
  }

  lemma {:induction false} AdjacentTaken(state: Option<Program>, y: Unit, before: seq<Held>, t: Tally, i: nat)
    requires i <= |Pairs| && before != [] && AllTaken(t.found, y, before)
    ensures AllTaken(AdjacentAll(state, before[0], y, t, i).found, y, before)
    decreases |Pairs| - i
  {
    hide FuseTest, FuseDecode, WalkAnswer;
    if i < |Pairs| {
      ReportedTaken(t, Miss(Pairs[i], Swapped, before[0].unit, y, []), y, before);
      ReportedTaken(t, Miss(Pairs[i], Renamed, before[0].unit, y, []), y, before);
      AdjacentTaken(state, y, before, AdjacentOne(state, before[0], y, Pairs[i], t), i + 1);
    }
  }

  lemma {:induction false} SplitTaken(x: Held, y: Unit, between: seq<Unit>, before: seq<Held>, t: Tally, i: nat)
    requires i <= |Pairs| && AllTaken(t.found, y, before)
    requires |between| < |before| && x == before[|between|]
    requires forall j :: 0 <= j < |between| ==> between[j] == before[|between| - 1 - j].unit
    ensures AllTaken(SplitAll(x, y, between, t, i).found, y, before)
    decreases |Pairs| - i
  {
    hide Fuses;
    if i < |Pairs| {
      ReportedTaken(t, Miss(Pairs[i], Split, x.unit, y, between), y, before);
      SplitTaken(x, y, between, before, SplitOne(x, y, between, Pairs[i], t), i + 1);
    }
  }

  lemma {:induction false} BackwardTaken(y: Unit, before: seq<Held>, k: nat, between: seq<Unit>, t: Tally)
    requires AllTaken(t.found, y, before) && k <= GAP + 1 && |between| == k <= |before|
    requires forall j :: 0 <= j < k ==> between[j] == before[k - 1 - j].unit
    ensures AllTaken(Backward(y, before, k, between, t).found, y, before)
    decreases GAP + 1 - k
  {
    hide AllTaken, MayMove, SplitAll, AllNamed, Passable;
    if k < |before| && k <= GAP {
      var x := before[k];
      var t1 := if k > 0 && MayMove(x.unit, between, y) then SplitAll(x, y, between, t, 0) else t;
      SplitTaken(x, y, between, before, t, 0);
      if Passable(x.unit) && y.Op().rs1 !in AllNamed([x.unit] + between) {
        BackwardTaken(y, before, k + 1, [x.unit] + between, t1);
      }
    }
  }

  /** Each is of `b` and the instructions before it. */
  lemma MissesTaken(state: Option<Program>, b: Held, before: seq<Held>)
    ensures AllTaken(MissesOf(state, b, before), b.unit, before)
  {
    hide AdjacentAll, Backward, TakenFrom;
    if b.fused != AllCores && before != [] {
      AdjacentTaken(state, b.unit, before, Tally(b.fused, []), 0);
      var t := AdjacentAll(state, before[0], b.unit, Tally(b.fused, []), 0);
      BackwardTaken(b.unit, before, 0, [], t);
    }
  }

  method AdjacentPair(state: Option<Program>, a: Held, y: Unit, p: Pair, t: Tally) returns (t': Tally)
    requires state.Some? ==> WellFormed(state.value)
    ensures t' == AdjacentOne(state, a, y, p, t)
  {
    hide FuseTest, FuseDecode, WellFormed, WalkAnswer, WalkClosed;
    var x := a.unit;
    if p.Of() in t.done + a.fused { return t; }
    var r := FuseTest(p, x.Op(), x.len, y.Op(), y.len);
    if r == Swap { return Reported(t, Miss(p, Swapped, x, y, [])); }
    if r == Rename && state.Some? && !y.target && x.Op().rd != NoReg {
      var answer := Walk(state.value, Wrap(y.addr + y.len), x.Op().rd);
      if answer == Dead { return Reported(t, Miss(p, Renamed, x, y, [])); }
    }
    return t;
  }

  method Adjacent(state: Option<Program>, a: Held, y: Unit, t0: Tally) returns (t: Tally)
    requires state.Some? ==> WellFormed(state.value)
    ensures t == AdjacentAll(state, a, y, t0, 0)
  {
    hide AdjacentOne, WellFormed;
    t := t0;
    for i := 0 to |Pairs|
      invariant AdjacentAll(state, a, y, t, i) == AdjacentAll(state, a, y, t0, 0)
    {
      t := AdjacentPair(state, a, y, Pairs[i], t);
    }
  }

  method AcrossGap(x: Held, y: Unit, between: seq<Unit>, t0: Tally) returns (t: Tally)
    ensures t == SplitAll(x, y, between, t0, 0)
  {
    hide Fuses;
    t := t0;
    for i := 0 to |Pairs|
      invariant SplitAll(x, y, between, t, i) == SplitAll(x, y, between, t0, 0)
    {
      t := SplitOne(x, y, between, Pairs[i], t);
    }
  }

  /** Walks back from the second half over the instructions before it, newest
      first, adding up what those passed over read and write. */
  method WalkBack(y: Unit, before: seq<Held>, t0: Tally) returns (t: Tally)
    ensures t == Backward(y, before, 0, [], t0)
  {
    hide MayMove, SplitAll, Reads, Writes, FuseDecode, PureDef, AllNamed, AllReads, AllWrites, AllPure;
    t := t0;
    var between: seq<Unit> := [];
    var read: set<int>, written: set<int> := {}, {};
    var pure := true;
    Nothing();
    var k := 0;
    while k < |before| && k <= GAP
      invariant 0 <= k && Backward(y, before, k, between, t) == Backward(y, before, 0, [], t0)
      invariant read == AllReads(between) && written == AllWrites(between) && pure == AllPure(between)
      decreases GAP + 1 - k
    {
      var x := before[k];
      SumsAre(x.unit, between, y, read, written, pure);
      if k > 0 && MayMoveBy(x.unit, y, read, written, pure) { t := AcrossGap(x, y, between, t); }
      BetweenGrows(x.unit, between);
      read := Reads(x.unit.insn) + read;
      written := Writes(x.unit.insn) + written;
      pure := PureDef(x.unit.insn) && pure;
      assert AllNamed([x.unit] + between) == read + written by { AllNamedIs([x.unit] + between); }
      if !Passable(x.unit) || y.Op().rs1 in read + written { return; }
      between := [x.unit] + between;
      k := k + 1;
    }
  }

  lemma Nothing()
    ensures AllReads([]) == {} && AllWrites([]) == {} && AllPure([])
  {
  }

  lemma AllNamedIs(us: seq<Unit>)
    ensures AllNamed(us) == AllReads(us) + AllWrites(us)
  {
  }

  /** The tests on the sums. */
  function MayMoveBy(x: Unit, y: Unit, read: set<int>, written: set<int>, pure: bool): bool {
    var named, o := read + written, y.Op();
    || (x.Op().rd !in named && written !! Sources(x.Op()))
    || (!y.target && x.Op().rd !in named && written !! (Sources(o) - {o.rs1}) && o.rd !in named
        && (o.op == OpLoad || o.op == OpStore ==> pure))
  }

  lemma SumsAre(x: Unit, between: seq<Unit>, y: Unit, read: set<int>, written: set<int>, pure: bool)
    requires read == AllReads(between) && written == AllWrites(between) && pure == AllPure(between)
    ensures MayMoveBy(x, y, read, written, pure) == MayMove(x, between, y)
  {
    hide FuseDecode, AllReads, AllWrites, AllPure;
  }

  /** The near misses of `b`, once both its neighbours have had their chance. */
  method Misses(state: Option<Program>, b: Held, before: seq<Held>) returns (found: seq<Miss>)
    requires state.Some? ==> WellFormed(state.value)
    ensures found == MissesOf(state, b, before) && AllMisses(state, found) && AllJudged(state, found)
  {
    hide WellFormed, AllMisses, AllJudged, AdjacentAll, Backward, FuseDecode;
    MissesSound(state, b, before);
    if b.fused == AllCores || before == [] { return []; }
    var t := Adjacent(state, before[0], b.unit, Tally(b.fused, []));
    var tied := b.unit.Op().rs1;
    if state.None? || t.done == AllCores || tied == 0 || tied == NoReg { return t.found; }
    t := WalkBack(b.unit, before, t);
    return t.found;
  }

  lemma BetweenGrows(x: Unit, between: seq<Unit>)
    ensures AllReads([x] + between) == Reads(x.insn) + AllReads(between)
    ensures AllWrites([x] + between) == Writes(x.insn) + AllWrites(between)
    ensures AllPure([x] + between) == (PureDef(x.insn) && AllPure(between))
    ensures Passable(x) && AllPassable(between) ==> AllPassable([x] + between)
  {
    hide Reads, Writes, PureDef, Passable;
    assert ([x] + between)[1..] == between;
    assert forall k :: 0 <= k < |between| ==> ([x] + between)[k + 1] == between[k];
    assert ([x] + between)[0] == x;
  }

  // ---- the report ----

  function Least(a: nat, b: nat): nat {
    if a < b then a else b
  }

  /** The `k`-th slot of the ring holds the `k`-th instruction back. */
  ghost predicate RingHolds(ring: seq<Held>, s: Section, k: nat) {
    && k < |ring| && k < |s| && s[|s| - 1 - k].Some?
    && ring[k] == Held(s[|s| - 1 - k].value, FusedIn(s, |s| - 1 - k))
  }

  ghost predicate RingIs(ring: seq<Held>, n: nat, s: Section) {
    n == Least(RING, Unbroken(s)) && forall k :: 0 <= k < n ==> RingHolds(ring, s, k)
  }

  ghost predicate CellsAre(cells: seq<nat>, s: Section) {
    |cells| == |Pairs| && forall i :: 0 <= i < |Pairs| ==> cells[i] == CellCount(Pairs[i], s, |s|)
  }

  // ---- the misses of a section ----

  lemma {:induction false} UnbrokenSome(s: Section, k: nat)
    requires k < Unbroken(s)
    ensures s[|s| - 1 - k].Some?
  {
    if k > 0 {
      UnbrokenSome(s[..|s| - 1], k - 1);
    }
  }

  /** The `k`-th instruction back, with the cores that fused it so far. */
  ghost function HeldAt(s: Section, k: nat): Held
    requires k < Unbroken(s)
  {
    UnbrokenSome(s, k);
    Held(s[|s| - 1 - k].value, FusedIn(s, |s| - 1 - k))
  }

  /** The instructions back from `from` on that the ring can hold. */
  ghost function Recent(s: Section, from: nat): seq<Held> {
    var n := Least(RING, Unbroken(s));
    seq(if from < n then n - from else 0, j requires 0 <= j < (if from < n then n - from else 0) => HeldAt(s, from + j))
  }

  /** The misses of the `off`-th instruction back, if there is one. */
  ghost function JudgedOf(state: Option<Program>, s: Section, off: nat): seq<Miss> {
    if off < Least(RING, Unbroken(s)) then MissesOf(state, HeldAt(s, off), Recent(s, off + 1)) else []
  }

  /** Each instruction is judged once the next is decoded, or at a gap. */
  ghost function MissesTo(state: Option<Program>, s: Section): seq<Miss> {
    if s == [] then []
    else
      var before := s[..|s| - 1];
      MissesTo(state, before) + if s[|s| - 1].Some? then JudgedOf(state, s, 1) else JudgedOf(state, before, 0)
  }

  /** And the last at the end. */
  ghost function SectionMisses(state: Option<Program>, s: Section): seq<Miss> {
    MissesTo(state, s) + JudgedOf(state, s, 0)
  }

  lemma RingRecent(ring: seq<Held>, n: nat, s: Section, off: nat)
    requires |ring| == RING && RingIs(ring, n, s) && off < n
    ensures off < Unbroken(s) && n <= RING && ring[off] == HeldAt(s, off) && ring[off + 1..n] == Recent(s, off + 1)
  {
    hide FusedIn, Unbroken;
    assert RingHolds(ring, s, off);
    forall k | off < k < n ensures ring[k] == HeldAt(s, k) { assert RingHolds(ring, s, k); }
  }

  lemma RingSize(ring: seq<Held>, n: nat, s: Section)
    requires RingIs(ring, n, s)
    ensures n == Least(RING, Unbroken(s))
  {
  }

  lemma GapEnds(ring: seq<Held>, cells: seq<nat>, s: Section)
    requires CellsAre(cells, s)
    ensures RingIs(ring, 0, s + [None]) && CellsAre(cells, s + [None])
  {
    hide Paired, FirstPair;
    var t := s + [None];
    forall i | 0 <= i < |Pairs| ensures cells[i] == CellCount(Pairs[i], t, |t|) {
      assert t[..|s|] == s;
      CellPrefix(Pairs[i], s, t, |s|);
      NonePairedAtEnd(Pairs[i].Of(), t);
    }
  }

  /** What decoding `u` after `s` pairs: each core once, with its first pair, unless
      the one before is taken. */
  ghost predicate NewPairs(s: Section, u: Unit, added: set<Core>) {
    forall c: Core :: c in added <==> Paired(c, s + [Some(u)], |s| - 1)
  }

  lemma PairsNow(c: Core, s: Section, u: Unit)
    ensures var t := s + [Some(u)];
            Paired(c, t, |s| - 1) <==>
            |s| > 0 && s[|s| - 1].Some? && FirstPair(c, s[|s| - 1].value, u, 0).Some? && c !in FusedIn(s, |s| - 1)
    ensures !Paired(c, s + [Some(u)], |s|) && !Paired(c, s, |s| - 1)
  {
    hide FirstPair;
    var t := s + [Some(u)];
    NonePairedAtEnd(c, s);
    NonePairedAtEnd(c, t);
    if |s| > 0 {
      assert t[|s| - 1] == s[|s| - 1] && t[|s|] == Some(u) && t[..|s|] == s;
      PairedPrefix(c, s, t, |s| - 2);
    }
  }

  lemma OlderStay(s: Section, u: Unit, j: nat)
    requires j + 1 < |s|
    ensures FusedIn(s + [Some(u)], j) == FusedIn(s, j)
  {
    hide Paired;
    var t := s + [Some(u)];
    assert t[..|s|] == s;
    forall c: Core ensures Paired(c, t, j) == Paired(c, s, j) && Paired(c, t, j - 1) == Paired(c, s, j - 1) {
      PairedPrefix(c, s, t, j);
      PairedPrefix(c, s, t, j - 1);
    }
  }

  /** The ring and the section once the newest instruction has had its chance. */
  lemma RingGrows(was: seq<Held>, n: nat, s: Section, u: Unit, added: set<Core>, ring: seq<Held>)
    requires |was| == |ring| == RING && RingIs(was, n, s) && NewPairs(s, u, added)
    requires ring[0] == Held(u, added)
    requires n > 0 ==> ring[1] == Held(was[0].unit, was[0].fused + added)
    requires forall k :: 2 <= k < RING ==> ring[k] == was[k - 1]
    ensures RingIs(ring, Least(RING, n + 1), s + [Some(u)])
  {
    hide Paired, FusedIn;
    var t := s + [Some(u)];
    assert t[..|s|] == s;
    forall k | 0 <= k < Least(RING, n + 1) ensures RingHolds(ring, t, k) {
      if k == 0 {
        NewestFused(s, u, added);
      } else {
        assert RingHolds(was, s, k - 1);
        assert t[|t| - 1 - k] == s[|s| - 1 - (k - 1)];
        if k == 1 { SecondFused(s, u, added); } else { OlderStay(s, u, |s| - k); }
      }
    }
  }

  lemma NewestFused(s: Section, u: Unit, added: set<Core>)
    requires NewPairs(s, u, added)
    ensures FusedIn(s + [Some(u)], |s|) == added
  {
    hide Paired;
    forall c: Core ensures c in FusedIn(s + [Some(u)], |s|) <==> c in added { PairsNow(c, s, u); }
  }

  lemma SecondFused(s: Section, u: Unit, added: set<Core>)
    requires NewPairs(s, u, added) && |s| > 0
    ensures FusedIn(s + [Some(u)], |s| - 1) == FusedIn(s, |s| - 1) + added
  {
    hide Paired;
    var t := s + [Some(u)];
    assert t[..|s|] == s;
    var now, before := FusedIn(t, |s| - 1), FusedIn(s, |s| - 1);
    forall c: Core ensures c in now <==> c in before || c in added {
      PairsNow(c, s, u);
      PairedPrefix(c, s, t, |s| - 2);
    }
  }

  /** The cell a newly paired core bumps. */
  lemma CellGrows(p: Pair, s: Section, u: Unit)
    ensures var t := s + [Some(u)];
            CellCount(p, t, |t|) == CellCount(p, s, |s|) +
            if Paired(p.Of(), t, |s| - 1) && FirstPair(p.Of(), s[|s| - 1].value, u, 0) == Some(p) then 1 else 0
  {
    hide Paired, FirstPair;
    var t := s + [Some(u)];
    assert t[..|s|] == s;
    CellPrefix(p, s, t, |s|);
    PairsNow(p.Of(), s, u);
  }

  /** Every core's cells add up to the pairs it fuses, the most it could. */
  ghost predicate AddUp(s: Section) {
    && (forall c: Core :: OfCore(c, s, |s|, 0) == Fused(c, s, |s|))
    && (forall c: Core, m: set<int> :: Matching(c, s, m, |s|) ==> |m| <= OfCore(c, s, |s|, 0))
  }

  lemma TotalsAre(s: Section)
    ensures AddUp(s)
  {
    hide OfCore, Fused, Matching;
    forall c: Core ensures OfCore(c, s, |s|, 0) == Fused(c, s, |s|) { CellsAddUp(c, s, |s|); }
    forall c: Core, m: set<int> | Matching(c, s, m, |s|) ensures |m| <= OfCore(c, s, |s|, 0) {
      NoneBetter(c, s, m, |s|);
    }
  }

  class FusionReport {
    const ring: array<Held>
    const cells: array<nat>
    var n: nat
    var misses: seq<Miss>
    ghost var scanned: Section

    ghost predicate Valid()
      reads this, ring, cells
    {
      && ring.Length == RING && cells.Length == |Pairs|
      && RingIs(ring[..], n, scanned) && CellsAre(cells[..], scanned)
    }

    constructor ()
      ensures Valid() && fresh(ring) && fresh(cells) && scanned == [] && misses == []
    {
      ring := new Held[RING](_ => Blank);
      cells := new nat[|Pairs|](_ => 0);
      n, misses, scanned := 0, [], [];
    }

    /** The oldest slot becomes the newest. */
    method Rotate(h: Held)
      requires ring.Length == RING
      modifies ring
      ensures ring[0] == h && forall k :: 1 <= k < RING ==> ring[k] == old(ring[k - 1])
    {
      for i := RING downto 1
        invariant forall k :: 0 <= k < i ==> ring[k] == old(ring[k])
        invariant forall k :: i <= k < RING ==> ring[k] == old(ring[k - 1])
      {
        ring[i] := ring[i - 1];
      }
      ring[0] := h;
    }

    /** Fuses the newest instruction with the one before it, for every core that has
        used neither, under the first pair that matches. */
    method PairUp(a: Unit, taken: set<Core>, u: Unit)
      requires ring.Length == RING && cells.Length == |Pairs| && ring[0] == Held(u, {}) && ring[1] == Held(a, taken)
      modifies ring, cells
      ensures ring[0].unit == u && ring[1] == Held(a, taken + ring[0].fused) && ring[2..] == old(ring[2..])
      ensures forall c :: c in ring[0].fused <==> c !in taken && FoundBefore(c, a, u, |Pairs|)
      ensures forall j :: 0 <= j < |Pairs| ==> cells[j] == old(cells[j]) + Bump(taken, a, u, j)
    {
      hide Fuses, FoundBefore;
      NoneBefore(a, u);
      for i := 0 to |Pairs|
        invariant ring[0].unit == u && ring[1] == Held(a, taken + ring[0].fused) && ring[2..] == old(ring[2..])
        invariant forall c :: c in ring[0].fused <==> c !in taken && FoundBefore(c, a, u, i)
        invariant forall j :: 0 <= j < i ==> cells[j] == old(cells[j]) + Bump(taken, a, u, j)
        invariant forall j :: i <= j < |Pairs| ==> cells[j] == old(cells[j])
      {
        var p := Pairs[i];
        if p.Of() !in ring[1].fused + ring[0].fused && Fuses(p, a, u) {
          cells[i] := cells[i] + 1;
          ring[1] := ring[1].(fused := ring[1].fused + {p.Of()});
          ring[0] := ring[0].(fused := ring[0].fused + {p.Of()});
        }
        forall c: Core ensures FoundBefore(c, a, u, i + 1) ==
          (FoundBefore(c, a, u, i) || (p.Of() == c && Fuses(p, a, u))) {
          FoundOne(c, a, u, i);
        }
      }
    }

    /** Takes the next instruction in, then judges the one before it. */
    method Decode(state: Option<Program>, u: Unit)
      requires Valid() && (state.Some? ==> WellFormed(state.value)) && AllMisses(state, misses)
               && AllStand(scanned, misses)
      modifies this, ring, cells
      ensures Valid() && scanned == old(scanned) + [Some(u)] && AllMisses(state, misses) && AllStand(scanned, misses)
      ensures misses == old(misses) + JudgedOf(state, scanned, 1)
    {
      hide RingIs, CellsAre, WellFormed, AllMisses, AllStand, NewPairs, MissesOf, HeldAt, Recent;
      ghost var s, was, counts := scanned, ring[..], cells[..];
      var before := n;
      Rotate(Held(u, {}));
      n := Least(RING, n + 1);
      if n >= 2 {
        PairUp(ring[1].unit, ring[1].fused, u);
      }
      Completed(was, before, s, u, ring[..], counts, cells[..]);
      StillStand(scanned, Some(u), misses);
      scanned := scanned + [Some(u)];
      RingSize(ring[..], n, scanned);
      if n >= 2 {
        RingRecent(ring[..], n, scanned, 1);
        JudgeAt(state, 1);
      }
    }

    method JudgeAt(state: Option<Program>, off: nat)
      requires ring.Length == RING && off < n <= RING && (state.Some? ==> WellFormed(state.value))
               && AllMisses(state, misses)
      requires RingIs(ring[..], n, scanned) && AllStand(scanned, misses)
      modifies this`misses
      ensures AllMisses(state, misses) && AllStand(scanned, misses)
              && misses == old(misses) + MissesOf(state, ring[off], ring[off + 1..n])
    {
      hide WellFormed, IsMiss, MissesOf, AllJudged, AllTaken, Stands, RingIs;
      var found := Misses(state, ring[off], ring[off + 1..n]);
      MissesTaken(state, ring[off], ring[off + 1..n]);
      TakenStands(ring[..], n, scanned, off, found);
      misses := misses + found;
    }

    /** Nothing follows the newest instruction: it is judged, and the ring begins anew. */
    method Break(state: Option<Program>)
      requires Valid() && (state.Some? ==> WellFormed(state.value)) && AllMisses(state, misses)
               && AllStand(scanned, misses)
      modifies this
      ensures Valid() && scanned == old(scanned) + [None] && AllMisses(state, misses) && AllStand(scanned, misses)
      ensures misses == old(misses) + JudgedOf(state, old(scanned), 0)
    {
      hide WellFormed, AllMisses, AllStand, RingHolds, CellCount, MissesOf, HeldAt, Recent;
      RingSize(ring[..], n, scanned);
      if n >= 1 {
        RingRecent(ring[..], n, scanned, 0);
        JudgeAt(state, 0);
      }
      GapEnds(ring[..], cells[..], scanned);
      StillStand(scanned, None, misses);
      n := 0;
      scanned := scanned + [None];
    }

    /** What has been taken in is judged as it should be. */
    ghost predicate Judged(state: Option<Program>)
      reads this, ring, cells
    {
      && Valid() && (state.Some? ==> WellFormed(state.value))
      && AllMisses(state, misses) && AllStand(scanned, misses) && misses == MissesTo(state, scanned)
    }

    /** An instruction, or a halfword that does not decode. */
    method Take(state: Option<Program>, o: Option<Unit>)
      requires Judged(state)
      modifies this, ring, cells
      ensures Judged(state) && scanned == old(scanned) + [o]
    {
      hide WellFormed, AllMisses, AllStand, RingIs, CellsAre, JudgedOf;
      ghost var was := scanned;
      match o {
        case Some(u) => Decode(state, u);
        case None => Break(state);
      }
      assert scanned[..|scanned| - 1] == was;
    }

    /** The whole section. Each cell counts its pairs, every core's cells add up to
        the most pairs it could fuse; the misses are those of each instruction in turn, and
        every one stands in the section and is mended exactly if mendable. */
    method Scan(state: Option<Program>, section: Section)
      requires Valid() && scanned == [] && misses == [] && (state.Some? ==> WellFormed(state.value))
      modifies this, ring, cells
      ensures CellsAre(cells[..], section) && AllMisses(state, misses) && AllJudged(state, misses)
              && AllStand(section, misses)
      ensures misses == SectionMisses(state, section)
      ensures AddUp(section)
    {
      NothingJudged(state);
      var i := 0;
      hide WellFormed, AllMisses, AllJudged, AllStand, RingIs, CellsAre, AddUp, JudgedOf, MissesTo;
      while i < |section|
        invariant i <= |section| && Judged(state) && scanned == section[..i]
      {
        Take(state, section[i]);
        i := i + 1;
      }
      assert section[..i] == section;
      Break(state);
      MissesJudged(state, misses);
      StillStand(section, None, misses);
      TotalsAre(section);
      assert CellsAre(cells[..], section) by { SameCells(cells[..], section); }
    }
  }

  lemma NothingJudged(state: Option<Program>)
    ensures AllMisses(state, []) && AllStand([], []) && MissesTo(state, []) == []
  {
  }

  /** The state after the newest instruction: nothing before it, or its pairs with
      the one before. */
  ghost predicate Advanced(was: seq<Held>, before: nat, u: Unit, ring: seq<Held>, counts: seq<nat>, cells: seq<nat>) {
    && |was| == |ring| == RING && |cells| == |counts| == |Pairs| && ring[0].unit == u
    && (forall k :: 2 <= k < RING ==> ring[k] == was[k - 1])
    && (before == 0 ==> ring[0].fused == {} && cells == counts)
    && (before > 0 ==>
          var a, taken, added := was[0].unit, was[0].fused, ring[0].fused;
          && ring[1] == Held(a, taken + added)
          && (forall c :: c in added <==> c !in taken && FoundBefore(c, a, u, |Pairs|))
          && (forall j :: 0 <= j < |Pairs| ==> cells[j] == counts[j] + Bump(taken, a, u, j)))
  }

  lemma NothingBefore(s: Section)
    requires Unbroken(s) == 0
    ensures |s| > 0 ==> s[|s| - 1].None?
  {
  }

  lemma NewPairsAre(was: seq<Held>, before: nat, s: Section, u: Unit, ring: seq<Held>, counts: seq<nat>,
                    cells: seq<nat>)
    requires RingIs(was, before, s) && Advanced(was, before, u, ring, counts, cells)
    ensures NewPairs(s, u, ring[0].fused)
  {
    hide FirstPair, FoundBefore, Bump, Paired, FusedIn;
    forall c: Core ensures c in ring[0].fused <==> Paired(c, s + [Some(u)], |s| - 1) {
      PairsNow(c, s, u);
      if before == 0 {
        NothingBefore(s);
      } else {
        assert RingHolds(was, s, 0);
        FirstIs(c, was[0].unit, u, |Pairs|);
        NoPairLeft(c, was[0].unit, u);
      }
    }
  }

  lemma NoPairLeft(c: Core, x: Unit, y: Unit)
    ensures FirstPair(c, x, y, |Pairs|) == None
  {
  }

  lemma CellIs(was: seq<Held>, before: nat, s: Section, u: Unit, ring: seq<Held>, counts: seq<nat>, cells: seq<nat>,
               j: nat)
    requires RingIs(was, before, s) && Advanced(was, before, u, ring, counts, cells) && j < |Pairs|
    requires CellsAre(counts, s)
    ensures cells[j] == CellCount(Pairs[j], s + [Some(u)], |s| + 1)
  {
    hide FirstPair, FoundBefore, Paired, FusedIn, Fuses, CellCount;
    var p := Pairs[j];
    CellGrows(p, s, u);
    PairsNow(p.Of(), s, u);
    if before == 0 {
      NothingBefore(s);
    } else {
      assert RingHolds(was, s, 0);
      BumpIs(was[0].fused, was[0].unit, u, j);
    }
  }

  lemma BumpIs(taken: set<Core>, x: Unit, y: Unit, j: nat)
    requires j < |Pairs|
    ensures Bump(taken, x, y, j) == if Pairs[j].Of() !in taken
            && FirstPair(Pairs[j].Of(), x, y, 0) == Some(Pairs[j]) then 1 else 0
  {
    hide Fuses, Within, FoundBefore, FirstPair;
    var c := Pairs[j].Of();
    FirstIs(c, x, y, j);
    FirstHere(c, x, y, j);
    FirstOf(c, x, y, 0);
    Listed(j);
  }

  lemma FirstHere(c: Core, x: Unit, y: Unit, j: nat)
    requires j < |Pairs| && c == Pairs[j].Of()
    ensures Fuses(Pairs[j], x, y) ==> FirstPair(c, x, y, j) == Some(Pairs[j])
  {
    hide Fuses;
  }

  lemma Listed(j: nat)
    requires j < |Pairs|
    ensures Within(Pairs[j], j)
  {
    assert Pairs[j..][0] == Pairs[j];
  }

  lemma Completed(was: seq<Held>, before: nat, s: Section, u: Unit, ring: seq<Held>, counts: seq<nat>, cells: seq<nat>)
    requires RingIs(was, before, s) && CellsAre(counts, s) && Advanced(was, before, u, ring, counts, cells)
    ensures RingIs(ring, Least(RING, before + 1), s + [Some(u)]) && CellsAre(cells, s + [Some(u)])
  {
    hide RingIs, NewPairs, CellCount, FoundBefore, Bump;
    NewPairsAre(was, before, s, u, ring, counts, cells);
    RingGrows(was, before, s, u, ring[0].fused, ring);
    forall j | 0 <= j < |Pairs| ensures cells[j] == CellCount(Pairs[j], s + [Some(u)], |s| + 1) {
      CellIs(was, before, s, u, ring, counts, cells, j);
    }
  }

  lemma SameCells(cells: seq<nat>, s: Section)
    requires CellsAre(cells, s + [None])
    ensures CellsAre(cells, s)
  {
    hide Paired, FirstPair;
    var t := s + [None];
    forall i | 0 <= i < |Pairs| ensures cells[i] == CellCount(Pairs[i], s, |s|) {
      assert t[..|s|] == s;
      CellPrefix(Pairs[i], s, t, |s|);
      NonePairedAtEnd(Pairs[i].Of(), t);
    }
  }

  // ---- the first pair that matches ----

  predicate FoundBefore(c: Core, x: Unit, y: Unit, i: nat)
    requires i <= |Pairs|
  {
    i > 0 && (FoundBefore(c, x, y, i - 1) || (Pairs[i - 1].Of() == c && Fuses(Pairs[i - 1], x, y)))
  }

  lemma FoundOne(c: Core, x: Unit, y: Unit, i: nat)
    requires i < |Pairs|
    ensures FoundBefore(c, x, y, i + 1) == (FoundBefore(c, x, y, i) || (Pairs[i].Of() == c && Fuses(Pairs[i], x, y)))
  {
  }

  lemma NoneBefore(x: Unit, y: Unit)
    ensures forall c: Core :: !FoundBefore(c, x, y, 0)
  {
  }

  function Bump(taken: set<Core>, x: Unit, y: Unit, j: nat): nat
    requires j < |Pairs|
  {
    var p := Pairs[j];
    if p.Of() !in taken && Fuses(p, x, y) && !FoundBefore(p.Of(), x, y, j) then 1 else 0
  }

  lemma {:induction false} FirstIs(c: Core, x: Unit, y: Unit, i: nat)
    requires i <= |Pairs|
    ensures !FoundBefore(c, x, y, i) ==> FirstPair(c, x, y, 0) == FirstPair(c, x, y, i)
    ensures FoundBefore(c, x, y, i) ==> FirstPair(c, x, y, 0).Some? && !Within(FirstPair(c, x, y, 0).value, i)
  {
    hide Fuses, Within;
    if i > 0 {
      FirstIs(c, x, y, i - 1);
      Elsewhere(i - 1);
      FirstOf(c, x, y, i - 1);
    }
  }
}
