/** The near misses of fusion, and exactly which of them a small change mends. */
module Mending {
  import opened Words
  import opened Wrappers
  import opened Machine
  import opened Liveness
  import opened DeletionChecks
  import opened Fusion
  import opened Reorder
  import opened Moves

  /** The most instructions a split pair may have between its halves. */
  const GAP: nat := 7

  datatype Near = Swapped | Renamed | Split

  datatype Miss = Miss(pair: Pair, near: Near, first: Unit, second: Unit, between: seq<Unit>)

  // ---- what is reported ----

  ghost predicate FoundDead(state: Option<Program>, at: Word, r: Reg) {
    state.Some? && FoundClosed(state.value, at, r)
  }

  predicate Passable(u: Unit) {
    !u.target && !StopsWalk(u.insn)
  }

  predicate AllPassable(us: seq<Unit>) {
    forall k :: 0 <= k < |us| ==> Passable(us[k])
  }

  /** The test a miss has passed. */
  ghost predicate IsMiss(state: Option<Program>, m: Miss) {
    var x, y := m.first, m.second;
    match m.near
    case Swapped => m.between == [] && FuseTest(m.pair, x.Op(), x.len, y.Op(), y.len) == Swap
    case Renamed =>
      && m.between == [] && FuseTest(m.pair, x.Op(), x.len, y.Op(), y.len) == Rename && !y.target
      && x.Op().rd != NoReg && FoundDead(state, Wrap(y.addr + y.len), x.Op().rd)
    case Split =>
      && Fuses(m.pair, x, y) && MaySplit(m.pair) && (MaySink(x, m.between) || MayHoist(x, m.between, y))
      && 0 < |m.between| <= GAP && AllPassable(m.between)
  }

  // ---- what it is for ----

  /** With the second at full size, the two fuse. */
  predicate FusesInstead(p: Pair, i: Insn, len: nat, j: Insn) {
    FuseTest(p, FuseDecode(i, len), len, FuseDecode(j, 4), 4) == Yes
  }

  /** The two in place of the miss's halves do to every state what those do. */
  ghost predicate DoTheSame(m: Miss, i: Insn, j: Insn) {
    forall s :: Effect(j, 4, Effect(i, 4, s)) == Both(m, s)
  }

  ghost function Both(m: Miss, s: State): State {
    Effect(m.second.insn, m.second.len, Effect(m.first.insn, m.first.len, s))
  }

  /** They do so but for one register, which they leave alone. */
  ghost predicate DoTheSameBut(m: Miss, i: Insn, j: Insn, d: Reg) {
    forall s :: Effect(j, 4, Effect(i, 4, s)) == SetX(Both(m, s), d, X(s, d))
  }

  /** The change the miss is reported for makes its halves fuse and computes the same,
      but for a register answered dead. */
  ghost predicate Mended(state: Option<Program>, m: Miss) {
    var x, y := m.first, m.second;
    match m.near
    case Swapped =>
      var j := SwapOperands(y.insn);
      FusesInstead(m.pair, x.insn, x.len, j) && DoTheSame(m, x.insn, j)
    case Renamed =>
      var d, e := XDest(x.insn), XDest(y.insn);
      var i, j := WithDest(x.insn, e), Reading(y.insn, d, e);
      FusesInstead(m.pair, i, 4, j) && DoTheSameBut(m, i, j, d) && FoundDead(state, Wrap(y.addr + y.len), d)
    case Split =>
      && Fuses(m.pair, x, y)
      && ((MaySink(x, m.between) && Same(AsWritten(x, m.between, y), Sunk(x, m.between, y))) ||
          (MayHoist(x, m.between, y) && Same(AsWritten(x, m.between, y), Hoisted(x, m.between, y))))
  }

  /** Nothing of the miss keeps it from being mended: no product is added to itself,
      and no address is formed elsewhere. */
  predicate Mendable(m: Miss) {
    var x, y := m.first, m.second;
    match m.near
    case Swapped => true
    case Renamed => !(m.pair == MulAdd && y.insn.Alu? && y.insn.src == R(XDest(x.insn)))
    case Split => AllShielded(m.between, y) && (x.insn.Auipc? ==> MayHoist(x, m.between, y))
  }

  /** Decoded as instructions are; and of a split pair, that any address formed
      between its halves is either kept or written over unused. */
  predicate Plainly(m: Miss) {
    && Sized([m.first, m.second] + m.between)
    && (forall k :: 0 <= k < |m.between| ==> !m.between[k].insn.Then?)
    && (m.near.Split? ==> AllClear(m.between, m.second))
  }

  /** A size shows in what a call returns to and nowhere else. */
  lemma AnySize(i: Insn, len: nat, len': nat, s: State)
    requires i.Alu? || i.Lui? || i.Auipc?
    ensures Effect(i, len, s) == Effect(i, len', s)
  {
    hide AluVal;
  }

  /** A half that a swap or a rename is offered for. */
  lemma OfferedShape(p: Pair, x: Unit, y: Unit)
    requires FuseTest(p, x.Op(), x.len, y.Op(), y.len) == Swap || FuseTest(p, x.Op(), x.len, y.Op(), y.len) == Rename
    ensures (x.insn.Alu? || x.insn.Lui? || x.insn.Auipc?) && x.insn.rd != 0 && y.insn.Alu?
  {
  }

  lemma SwappedMended(state: Option<Program>, m: Miss)
    requires IsMiss(state, m) && m.near.Swapped?
    ensures Mended(state, m)
  {
    hide FuseTest, FuseDecode, Effect;
    var x, y := m.first, m.second;
    OfferedShape(m.pair, x, y);
    var j := SwapOperands(y.insn);
    forall s ensures Effect(j, 4, Effect(x.insn, 4, s)) == Both(m, s) {
      AnySize(x.insn, 4, x.len, s);
      AnySize(j, 4, y.len, Effect(x.insn, x.len, s));
      SwapMends(m.pair, x, y, Effect(x.insn, x.len, s));
    }
    var s := SomeState();
    SwapMends(m.pair, x, y, s);
  }

  lemma RenamedMended(state: Option<Program>, m: Miss)
    requires IsMiss(state, m) && m.near.Renamed?
    ensures Mended(state, m) <==> Mendable(m)
  {
    hide FuseTest, FuseDecode, Effect, WithDest, Reading, WalkClosed;
    var x, y := m.first, m.second;
    OfferedShape(m.pair, x, y);
    RenameMends(m.pair, x, y);
    FieldIs(x);
    var d, e := XDest(x.insn), XDest(y.insn);
    var i, j := WithDest(x.insn, e), Reading(y.insn, d, e);
    forall s ensures Effect(j, 4, Effect(i, 4, s)) == SetX(Both(m, s), d, X(s, d)) {
      RenamedShape(x.insn, y.insn, d, e);
      AnySize(i, 4, x.len, s);
      AnySize(j, 4, y.len, Effect(i, x.len, s));
      RenameKeeps(m.pair, x, y, s);
    }
  }

  lemma FieldIs(x: Unit)
    requires x.insn.Alu? || x.insn.Lui? || x.insn.Auipc?
    ensures x.Op().rd != NoReg ==> x.Op().rd == XDest(x.insn)
  {
  }

  lemma RenamedShape(i: Insn, j: Insn, d: Reg, e: Reg)
    requires (i.Alu? || i.Lui? || i.Auipc?) && j.Alu?
    ensures var i' := WithDest(i, e); i'.Alu? || i'.Lui? || i'.Auipc?
    ensures Reading(j, d, e).Alu?
  {
  }

  lemma SplitMended(state: Option<Program>, m: Miss)
    requires IsMiss(state, m) && m.near.Split? && Plainly(m)
    ensures Mended(state, m) <==> Mendable(m)
  {
    hide Fuses, FuseDecode, MaySink, MayHoist, AllClear, AllShielded, Same, AsWritten, Sunk, Hoisted;
    var x, y := m.first, m.second;
    assert InLine(m.between) && Sized(m.between) && Sized([x]) && Sized([y]) by { Sizes(m); }
    hide InLine, Sized;
    SizedBytes(m.between);
    if MaySink(x, m.between) { SinkExactly(m.pair, x, m.between, y); }
    if MayHoist(x, m.between, y) { HoistExactly(m.pair, x, m.between, y); }
  }

  lemma Sizes(m: Miss)
    requires Plainly(m) && AllPassable(m.between)
    ensures InLine(m.between) && Sized(m.between) && Sized([m.first]) && Sized([m.second])
  {
    hide AllClear;
    var all := [m.first, m.second] + m.between;
    assert all[0] == m.first && all[1] == m.second;
    forall k | 0 <= k < |m.between|
      ensures IsStraight(m.between[k].insn) && !m.between[k].insn.Then?
              && (m.between[k].len == 2 || m.between[k].len == 4)
    {
      assert all[k + 2] == m.between[k] && Passable(m.between[k]);
    }
  }

  /** Exactly the mendable misses are mended. */
  lemma MendedExactly(state: Option<Program>, m: Miss)
    requires IsMiss(state, m) && Plainly(m)
    ensures Mended(state, m) <==> Mendable(m)
  {
    hide IsMiss, Mended, Plainly, Mendable;
    match m.near {
      case Swapped => SwappedMended(state, m); SwappedMendable(m);
      case Renamed => RenamedMended(state, m);
      case Split => SplitMended(state, m);
    }
  }

  lemma SwappedMendable(m: Miss)
    requires m.near.Swapped?
    ensures Mendable(m)
  {
  }

  // ---- a rename, over whole runs ----

  ghost predicate StandsIn(p: Program, u: Unit) {
    u.addr in p.code && p.code[u.addr].insn == u.insn && p.code[u.addr].len == u.len
  }

  /** With the two renamed and the register they leave alone answered dead behind them,
      the rest of every run is the same but for it. */
  lemma RenameIsInvisible(p: Program, m: Miss, s: State, n: nat)
    requires WellFormed(p) && IsMiss(Some(p), m) && m.near.Renamed? && Mendable(m)
    requires StandsIn(p, m.first) && StandsIn(p, m.second) && m.second.addr == m.first.addr + m.first.len
    requires ZeroSafe(p, Wrap(m.second.addr + m.second.len), XDest(m.first.insn)) && s.pc == m.first.addr
    ensures var d, e := XDest(m.first.insn), XDest(m.second.insn);
            var i, j := WithDest(m.first.insn, e), Reading(m.second.insn, d, e);
            var was := Run(p, s, 2);
            var now := Effect(j, 4, Effect(i, 4, s)).(pc := was.pc);
            && FusesInstead(m.pair, i, 4, j)
            && if WrittenWithin(p, was, d, n) then Run(p, now, n) == Run(p, was, n)
               else Run(p, now, n) == SetX(Run(p, was, n), d, X(s, d))
  {
    hide FuseTest, FuseDecode, WithDest, Reading, WellFormed, Effect, FoundClosed, ZeroSafe, DeadAt, Mendable, Run;
    var x, y := m.first, m.second;
    OfferedShape(m.pair, x, y);
    RenamedMended(Some(p), m);
    FieldIs(x);
    TwoSteps(p, m, s);
    var d := XDest(x.insn);
    var was := Run(p, s, 2);
    AnsweredIsDead(p, Wrap(y.addr + y.len), d);
    DeadIsInvisible(p, d, was, X(s, d), n);
  }

  lemma TwoSteps(p: Program, m: Miss, s: State)
    requires WellFormed(p) && StandsIn(p, m.first) && StandsIn(p, m.second)
             && m.second.addr == m.first.addr + m.first.len
    requires s.pc == m.first.addr && (m.first.insn.Alu? || m.first.insn.Lui? || m.first.insn.Auipc?)
             && m.second.insn.Alu?
    ensures Run(p, s, 2) == Both(m, s).(pc := Wrap(m.second.addr + m.second.len))
  {
    hide Effect, WellFormed;
    var x, y := m.first, m.second;
    var t := Effect(x.insn, x.len, s);
    EffectKeeps(x.insn, x.len, s, 1);
    Placed(p, x.addr);
    Placed(p, y.addr);
    StraightNext(x.insn, x.len, s);
    assert Run(p, s, 0) == s;
    assert Run(p, s, 1) == Step(p, s) == t.(pc := y.addr);
    StraightNext(y.insn, y.len, t.(pc := y.addr));
    assert Run(p, s, 2) == Step(p, t.(pc := y.addr));
    MovedAlu(y.insn, y.len, t, y.addr);
    EffectKeeps(y.insn, y.len, t, 1);
  }

  lemma MovedAlu(i: Insn, len: nat, s: State, pc: Word)
    requires i.Alu?
    ensures Effect(i, len, s.(pc := pc)) == Effect(i, len, s).(pc := pc)
  {
    EffectIgnoresPc(i, len, len, s, pc);
  }
}
