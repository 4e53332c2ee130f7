/** A stretch of code whose stack pointer is moved at another point than before,
    with every access through it re-offset to reach the same address. */
module SpShift {
  import opened Words
  import opened Machine
  import opened ImmediateForms
  import opened Sweep
  import opened Deletion

  const SP: Reg := 2

  function SpAdjust(i: Insn): (k: int)
    ensures k != 0 ==> i == Alu(Add, SP, SP, K(k))
  {
    match i
    case Alu(Add, 2, 2, K(k)) => k
    case _ => 0
  }

  /** An access through sp whose data is not sp itself. */
  predicate SpAccess(i: Insn) {
    (i.Load? && i.base == SP && (i.kind.IsFp() || i.rd != SP)) ||
    (i.Store? && i.base == SP && (i.kind.IsFp() || i.data != SP))
  }

  function WithOffset(i: Insn, off: int): Insn {
    match i
    case Load(k, rd, base, _) => Load(k, rd, base, off)
    case Store(k, data, base, _) => Store(k, data, base, off)
    case _ => i
  }

  function Adjust(k: int): Insn {
    if k == 0 then Nop else Alu(Add, SP, SP, K(k))
  }

  /** Entered with sp off by `d`, `j` does what `i` does and leaves it off by `n`. */
  predicate Shifts(i: Insn, j: Insn, d: int, n: int) {
    || (i == Alu(Add, SP, SP, K(SpAdjust(i))) && j == Adjust(n - d + SpAdjust(i)))
    || (SpAccess(i) && j == WithOffset(i, i.off - d) && n == d)
    || (j == i && n == d && SP !in Reads(i) && SP !in Writes(i) && !IsTransfer(i))
  }

  /** sp moved by `d`. */
  function Moved(s: State, d: int): State {
    SetX(s, SP, Wrap(X(s, SP) + d))
  }

  lemma AdjustEffect(k: int, len: nat, s: State)
    ensures Effect(Adjust(k), len, s) == Moved(s, k)
  {
    if k == 0 {
      assert Wrap(X(s, SP)) == X(s, SP) && s.x[SP := s.x[SP]] == s.x;
    } else {
      WrapAdds(X(s, SP), k);
    }
  }

  lemma MovedTwice(s: State, d: int, k: int)
    ensures Moved(Moved(s, d), k) == Moved(s, d + k)
  {
    WrapAdds(k, X(s, SP) + d);
    assert Moved(Moved(s, d), k).x == Moved(s, d + k).x;
  }

  lemma AccessAddress(s: State, off: int, d: int)
    ensures Address(Moved(s, d), SP, off - d) == Address(s, SP, off)
  {
    WrapAdds(off - d, X(s, SP) + d);
  }

  lemma AccessShifts(i: Insn, len: nat, s: State, d: int)
    requires SpAccess(i)
    ensures Effect(WithOffset(i, i.off - d), len, Moved(s, d)) == Moved(Effect(i, len, s), d)
  {
    AccessAddress(s, i.off, d);
    hide LoadLE, StoreLE, Extend, Wrap;
  }

  /** An adjustment not equal to a Nop, or of zero, keeps its spelling apart. */
  lemma AdjustShifts(k: int, len: nat, s: State, d: int, n: int)
    ensures Effect(Adjust(n - d + k), len, Moved(s, d)) == Moved(Effect(Alu(Add, SP, SP, K(k)), len, s), n)
  {
    AdjustEffect(n - d + k, len, Moved(s, d));
    MovedTwice(s, d, n - d + k);
    PlainAdjust(k, len, s);
    MovedTwice(s, k, n);
    hide Moved, Effect;
    assert d + (n - d + k) == k + n;
  }

  lemma PlainAdjust(k: int, len: nat, s: State)
    ensures Effect(Alu(Add, SP, SP, K(k)), len, s) == Moved(s, k)
  {
    WrapAdds(X(s, SP), k);
  }

  /** One instruction of the stretch. */
  lemma ShiftedEffect(i: Insn, j: Insn, d: int, n: int, len: nat, s: State)
    requires Shifts(i, j, d, n)
    ensures Effect(j, len, Moved(s, d)) == Moved(Effect(i, len, s), n)
    ensures !IsTransfer(i) && !IsTransfer(j)
  {
    hide Effect, Moved, Reads, Writes;
    if i == Alu(Add, SP, SP, K(SpAdjust(i))) && j == Adjust(n - d + SpAdjust(i)) {
      AdjustShifts(SpAdjust(i), len, s, d, n);
    } else if SpAccess(i) && j == WithOffset(i, i.off - d) && n == d {
      AccessShifts(i, len, s, d);
    } else {
      Unnamed(i, len, s, d);
    }
  }

  lemma Unnamed(i: Insn, len: nat, s: State, d: int)
    requires SP !in Reads(i) && SP !in Writes(i)
    ensures Effect(i, len, Moved(s, d)) == Moved(Effect(i, len, s), d)
  {
    hide Effect, Reads, Writes;
    EffectIgnores(i, len, s, SP, Wrap(X(s, SP) + d));
    EffectKeeps(i, len, s, SP);
  }

  // ---- the whole program ----

  /** How far sp is off on arriving at each address; outside the stretch, not. */
  function OffBy(delta: map<int, int>, a: Word, end: Word, c: int): int {
    if a < c < end && c in delta then delta[c] else 0
  }

  /** `q` is `p` with the stretch from `a` to `end` shifted. */
  ghost predicate Restacked(p: Program, q: Program, a: Word, end: Word, delta: map<int, int>) {
    && a in p.code && a < end && (forall c :: c in delta ==> 0 <= c < W64 && c as Word in p.code)
       && SameElsewhere(p, q, a, end) && Contiguous(p, a, end)
    && (forall c :: c in p.code && a < c < end ==> !IsTarget(p, c))
    && (forall c :: c in p.code && a <= c < end ==>
          Shifts(p.code[c].insn, q.code[c].insn, OffBy(delta, a, end, c), OffBy(delta, a, end, c + p.code[c].len)))
  }

  ghost predicate Beside(p: Program, a: Word, end: Word, delta: map<int, int>, s: State, t: State) {
    t == Moved(s, OffBy(delta, a, end, s.pc))
  }

  lemma MovedByZero(s: State)
    ensures Moved(s, 0) == s
  {
    assert s.x[SP := s.x[SP]] == s.x;
  }

  lemma MovedPc(s: State, d: int, pc: Word)
    ensures Moved(s, d).(pc := pc) == Moved(s.(pc := pc), d)
  {
  }

  lemma StepInside(p: Program, q: Program, a: Word, end: Word, delta: map<int, int>, s: State, t: State)
    requires WellFormed(p) && Restacked(p, q, a, end, delta) && Beside(p, a, end, delta, s, t)
    requires s.pc in p.code && a <= s.pc < end
    ensures Beside(p, a, end, delta, Step(p, s), Step(q, t))
  {
    hide Effect, Shifts, Moved, WellFormed, IsTarget, OffBy, NextPc;
    var d, e := p.code[s.pc], q.code[s.pc];
    Placed(p, s.pc);
    assert Shifts(d.insn, e.insn, OffBy(delta, a, end, s.pc), OffBy(delta, a, end, s.pc + d.len));
    ShiftedEffect(d.insn, e.insn, OffBy(delta, a, end, s.pc), OffBy(delta, a, end, s.pc + d.len), d.len, s);
    StraightNext(d.insn, d.len, s);
    StraightNext(e.insn, d.len, t);
    assert t.pc == s.pc by { SamePc(s, OffBy(delta, a, end, s.pc)); }
    MovedPc(Effect(d.insn, d.len, s), OffBy(delta, a, end, s.pc + d.len), Wrap(s.pc + d.len));
  }

  lemma SamePc(s: State, d: int)
    ensures Moved(s, d).pc == s.pc
  {
  }

  lemma StepBeside(p: Program, q: Program, a: Word, end: Word, delta: map<int, int>, s: State, t: State)
    requires WellFormed(p) && Restacked(p, q, a, end, delta) && NoLandingInside(p, a, end)
    requires Beside(p, a, end, delta, s, t)
    ensures Beside(p, a, end, delta, Step(p, s), Step(q, t))
  {
    hide WellFormed, Shifts, IsTarget, Moved, Exec;
    MovedByZero(s);
    MovedByZero(Step(p, s));
    if s.pc in p.code && a <= s.pc < end {
      StepInside(p, q, a, end, delta, s, t);
    } else if s.pc in p.code {
      assert s == t;
      if Runs(p, s) && Step(p, s).pc in p.code {
        NothingEnters(p, a, end, s);
      }
    } else {
      SamePc(s, OffBy(delta, a, end, s.pc));
    }
  }

  /** Original and rewritten run, from any state outside the stretch: one state at
      every step, but for sp while control is inside, and there sp is off by the
      amount the stretch says. */
  lemma {:induction false} RestackingIsInvisible(p: Program, q: Program, a: Word, end: Word, delta: map<int, int>,
                                                 s: State, n: nat)
    requires WellFormed(p) && Restacked(p, q, a, end, delta) && NoLandingInside(p, a, end) && !(a < s.pc < end)
    ensures Beside(p, a, end, delta, Run(p, s, n), Run(q, s, n))
    ensures !(a < Run(p, s, n).pc < end) ==> Run(q, s, n) == Run(p, s, n)
  {
    hide WellFormed, Restacked, Moved, Step;
    MovedByZero(Run(p, s, n));
    if n > 0 {
      RestackingIsInvisible(p, q, a, end, delta, s, n - 1);
      StepBeside(p, q, a, end, delta, Run(p, s, n - 1), Run(q, s, n - 1));
    }
  }
}
