/** Deleting the definition of a register and rewriting its readers: a relation
    between the original run and the rewritten one that every step keeps. */
module Deletion {
  import opened Words
  import opened Machine
  import opened Sweep
  import opened Liveness

  /** What the deleted instruction put in the register. */
  datatype Def = Copy(rs: Reg) | Const(k: int) | Anything

  ghost predicate Holds(def: Def, r: Reg, s: State) {
    match def
    case Copy(rs) => X(s, r) == X(s, rs)
    case Const(k) => X(s, r) == Wrap(k)
    case Anything => true
  }

  /** What `r` holds on arriving at each address of the line. */
  type Defs = map<int, Def>

  function DefAt(defs: Defs, n: int, end: Word): Def {
    if n < end && n in defs then defs[n] else Anything
  }

  /** `i` only sets `r`, to what `def` says. */
  ghost predicate Defines(i: Insn, r: Reg, def: Def) {
    && IsStraight(i) && Writes(i) == {r}
    && forall len: nat, s: State ::
         Effect(i, len, s) == SetX(s, r, X(Effect(i, len, s), r)) && Holds(def, r, Effect(i, len, s))
  }

  /** Where `r` holds what `def` says, `j` on any other `r` does what `i` does but
      for `r`, which then holds what `next` says; the last of the line may also
      write `r` alike on both sides. */
  ghost predicate Carries(i: Insn, j: Insn, r: Reg, def: Def, next: Def, last: bool) {
    && IsStraight(i) && IsStraight(j)
    && forall len: nat, s: State, v: Word :: Holds(def, r, s) ==>
         && Effect(j, len, SetX(s, r, v)) ==
            (if last && r in Writes(i) then Effect(i, len, s) else SetX(Effect(i, len, s), r, v))
         && (last || Holds(next, r, Effect(i, len, s)))
  }

  /** The instructions from `a` up to `end` follow one another. */
  ghost predicate Contiguous(p: Program, a: Word, end: int) {
    forall c :: c in p.code && a <= c < end ==>
      c + p.code[c].len <= end && (c + p.code[c].len < end ==> Wrap(c + p.code[c].len) in p.code)
  }

  /** `q` differs from `p` in instructions from `a` up to `end` only. */
  ghost predicate SameElsewhere(p: Program, q: Program, a: Word, end: int) {
    && q == p.(code := q.code) && q.code.Keys == p.code.Keys
    && (forall c :: c in p.code ==> q.code[c].len == p.code[c].len)
    && (forall c :: c in p.code && !(a <= c < end) ==> q.code[c] == p.code[c])
  }

  /** The instruction at `c` of the line, replaced by `j`. */
  ghost predicate EditAt(p: Program, c: Word, j: Insn, end: Word, r: Reg, defs: Defs)
    requires c in p.code
  {
    && !IsTarget(p, c)
    && var n := c + p.code[c].len;
       Carries(p.code[c].insn, j, r, DefAt(defs, c, end), DefAt(defs, n, end), n == end)
  }

  /** `q` deletes the definition of `r` at `a` and rewrites the straight line from
      there to `end`. */
  ghost predicate Edits(p: Program, q: Program, a: Word, end: Word, r: Reg, defs: Defs) {
    && r != 0 && a in p.code && a + p.code[a].len <= end
    && SameElsewhere(p, q, a, end) && Contiguous(p, a, end)
    && Defines(p.code[a].insn, r, DefAt(defs, a + p.code[a].len, end)) && q.code[a].insn == Nop
    && (forall c :: c in p.code && a < c < end ==> EditAt(p, c, q.code[c].insn, end, r, defs))
  }

  /** And after that line `r` is written or dead. */
  ghost predicate Deletes(p: Program, q: Program, a: Word, end: Word, r: Reg, defs: Defs) {
    && Edits(p, q, a, end, r, defs)
    && (DeadAt(p, end, r) ||
        exists c :: c in p.code && a < c < end && c + p.code[c].len == end && r in Writes(p.code[c].insn))
  }

  /** The two states are one but for `r`, which on the line still holds what the
      definition gave it and elsewhere is dead. */
  ghost predicate Beside(a: Word, end: Word, r: Reg, defs: Defs, p: Program, s: State, t: State) {
    && t == SetX(s, r, X(t, r))
    && (if s.pc in p.code && a < s.pc < end then Holds(DefAt(defs, s.pc, end), r, s) else s == t || DeadAt(p, s.pc, r))
  }

  // ---- one step ----

  /** Nothing enters the line but from above. */
  lemma StaysOut(p: Program, q: Program, a: Word, end: Word, r: Reg, defs: Defs, s: State)
    requires WellFormed(p) && Deletes(p, q, a, end, r, defs) && NoLandingInside(p, a, end)
    requires s.pc in p.code && !(a <= s.pc < end) && Runs(p, s) && Step(p, s).pc in p.code
    ensures !(a < Step(p, s).pc < end)
  {
    hide Step, Deletes, WellFormed, IsTarget, NoLandingInside;
    forall c | c in p.code && a < c < end ensures !IsTarget(p, c) {
      NotTarget(p, q, a, end, r, defs, c);
    }
    InCode(p, q, a, end, r, defs);
    NothingEnters(p, a, end, s);
  }

  lemma InCode(p: Program, q: Program, a: Word, end: Word, r: Reg, defs: Defs)
    requires Deletes(p, q, a, end, r, defs)
    ensures a in p.code
  {
    hide SameElsewhere, Contiguous, EditAt, Defines, DeadAt;
  }

  lemma NotTarget(p: Program, q: Program, a: Word, end: Word, r: Reg, defs: Defs, c: Word)
    requires Deletes(p, q, a, end, r, defs) && c in p.code && a < c < end
    ensures !IsTarget(p, c) && a in p.code
  {
    hide Carries, Defines, DeadAt, IsTarget;
    assert EditAt(p, c, q.code[c].insn, end, r, defs);
  }

  lemma StepAtDefinition(p: Program, q: Program, a: Word, end: Word, r: Reg, defs: Defs, s: State, t: State)
    requires WellFormed(p) && Deletes(p, q, a, end, r, defs) && s.pc == a && t == SetX(s, r, X(t, r))
    ensures var s', t' := Step(p, s), Step(q, t);
            s'.pc == a + p.code[a].len && (s'.pc < end ==> s'.pc in p.code) && t' == SetX(s', r, X(t, r))
              && X(t', r) == X(t, r) && Holds(DefAt(defs, s'.pc, end), r, s')
  {
    hide Effect, Carries, DeadAt, IsTarget, WellFormed, NextPc, Holds, Writes;
    var d := p.code[a];
    Placed(p, a);
    StraightNext(d.insn, d.len, s);
    StraightNext(Nop, d.len, t);
    assert Effect(Nop, d.len, t) == t by { NopEffect(d.len, t); }
    var e := Effect(d.insn, d.len, s);
    assert e == SetX(s, r, X(e, r)) && Holds(DefAt(defs, a + d.len, end), r, e);
    HoldsIgnoresPc(DefAt(defs, a + d.len, end), r, e, Wrap(a + d.len));
  }

  lemma NopEffect(len: nat, s: State)
    ensures Effect(Nop, len, s) == s
  {
  }

  lemma HoldsIgnoresPc(def: Def, r: Reg, s: State, pc: Word)
    ensures Holds(def, r, s.(pc := pc)) == Holds(def, r, s)
  {
  }

  lemma StepOnLine(p: Program, q: Program, a: Word, end: Word, r: Reg, defs: Defs, s: State, t: State)
    requires WellFormed(p) && Deletes(p, q, a, end, r, defs) && s.pc in p.code && a < s.pc < end
    requires t == SetX(s, r, X(t, r)) && Holds(DefAt(defs, s.pc, end), r, s)
    ensures var s', t', i, n := Step(p, s), Step(q, t), p.code[s.pc].insn, s.pc + p.code[s.pc].len;
            && s'.pc == n <= end
            && (if r in Writes(i) && n == end then t' == s' else t' == SetX(s', r, X(t', r)))
            && (n < end ==> Holds(DefAt(defs, n, end), r, s') && s'.pc in p.code)
  {
    hide Effect, Defines, DeadAt, IsTarget, WellFormed, Writes, Holds, DefAt;
    var d, e := p.code[s.pc], q.code[s.pc];
    Placed(p, s.pc);
    assert EditAt(p, s.pc, e.insn, end, r, defs);
    StraightNext(d.insn, d.len, s);
    StraightNext(e.insn, d.len, t);
    HoldsIgnoresPc(DefAt(defs, s.pc + d.len, end), r, Effect(d.insn, d.len, s), Wrap(s.pc + d.len));
    var v := X(t, r);
    assert Effect(e.insn, d.len, SetX(s, r, v)) ==
           if s.pc + d.len == end && r in Writes(d.insn) then Effect(d.insn, d.len, s)
               else SetX(Effect(d.insn, d.len, s), r, v);
  }

  lemma StepOutside(p: Program, q: Program, a: Word, end: Word, r: Reg, defs: Defs, s: State, t: State)
    requires WellFormed(p) && Deletes(p, q, a, end, r, defs) && NoLandingInside(p, a, end)
    requires Beside(a, end, r, defs, p, s, t) && !(a <= s.pc < end)
    ensures Step(q, t) == Step(p, t)
    ensures Beside(a, end, r, defs, p, Step(p, s), Step(q, t))
  {
    hide Closed, Effect, Reads, Writes, NextPc, Defines, Carries, IsTarget, Holds, WellFormed;
    assert q.code.Keys == p.code.Keys;
    if s.pc in p.code {
      if Runs(p, s) && Step(p, s).pc in p.code {
        StaysOut(p, q, a, end, r, defs, s);
      }
      if s != t {
        var set0: set<Word> :| s.pc in set0 && Closed(p, set0, r);
        StepIgnoresDead(p, set0, r, s, X(t, r));
        assert Runs(p, s) && r !in Writes(p.code[s.pc].insn) ==> DeadAt(p, Step(p, s).pc, r);
      }
    }
  }

  lemma StepBeside(p: Program, q: Program, a: Word, end: Word, r: Reg, defs: Defs, s: State, t: State)
    requires WellFormed(p) && Deletes(p, q, a, end, r, defs) && NoLandingInside(p, a, end)
    requires Beside(a, end, r, defs, p, s, t)
    ensures Beside(a, end, r, defs, p, Step(p, s), Step(q, t))
  {
    hide Step, Carries, Defines, IsTarget, Holds, DeadAt, WellFormed;
    Placed0(p, q, a, end, r, defs);
    if s.pc in p.code && a < s.pc < end {
      StepOnLine(p, q, a, end, r, defs, s, t);
      SetItself(Step(q, t), r);
      LineEnds(p, q, a, end, r, defs, s.pc);
    } else if s.pc == a {
      StepAtDefinition(p, q, a, end, r, defs, s, t);
      LineEnds(p, q, a, end, r, defs, a);
    } else if s.pc in p.code {
      StepOutside(p, q, a, end, r, defs, s, t);
    } else {
      Stuck(p, q, s, t);
    }
  }

  lemma Placed0(p: Program, q: Program, a: Word, end: Word, r: Reg, defs: Defs)
    requires WellFormed(p) && Deletes(p, q, a, end, r, defs)
    ensures a < a + p.code[a].len <= end
  {
    hide Carries, Defines, IsTarget, DeadAt, WellFormed;
    Placed(p, a);
  }

  lemma SetItself(s: State, r: Reg)
    ensures SetX(s, r, X(s, r)) == s
  {
    assert r != 0 ==> s.x[r := s.x[r]] == s.x;
  }

  lemma Stuck(p: Program, q: Program, s: State, t: State)
    requires s.pc !in p.code && t.pc !in q.code
    ensures Step(p, s) == s && Step(q, t) == t
  {
  }

  /** Whoever reaches the end of the line with `r` unwritten finds it dead there. */
  lemma LineEnds(p: Program, q: Program, a: Word, end: Word, r: Reg, defs: Defs, c: Word)
    requires WellFormed(p) && Deletes(p, q, a, end, r, defs) && c in p.code && a <= c < end
    ensures c + p.code[c].len == end && (c == a || r !in Writes(p.code[c].insn)) ==> DeadAt(p, end, r)
  {
    hide Edits, DeadAt, WellFormed, Writes;
    Placed(p, c);
    if !DeadAt(p, end, r) {
      var e :| e in p.code && a < e < end && e + p.code[e].len == end && r in Writes(p.code[e].insn);
      Placed(p, e);
      Apart(p, c, e);
    }
  }

  /** The original run and the rewritten one, from any state outside the line:
      the same pc, memory and registers at every step, but for `r`, and `r` too
      wherever it is not dead or still to be rewritten. */
  lemma {:induction false} DeletionIsInvisible(p: Program, q: Program, a: Word, end: Word, r: Reg, defs: Defs,
                                               s: State, n: nat)
    requires WellFormed(p) && Deletes(p, q, a, end, r, defs) && NoLandingInside(p, a, end)
    requires !(a < s.pc < end)
    ensures Beside(a, end, r, defs, p, Run(p, s, n), Run(q, s, n))
  {
    hide Deletes, Step, Holds;
    if n > 0 {
      DeletionIsInvisible(p, q, a, end, r, defs, s, n - 1);
      StepBeside(p, q, a, end, r, defs, Run(p, s, n - 1), Run(q, s, n - 1));
    }
  }
}
