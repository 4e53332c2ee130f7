/** The linear sweep: the table it holds before each address, and why that table
    is true at every state of every run that comes by. */
module Sweep {
  import opened Words
  import opened Wrappers
  import opened Machine
  import opened MemoryFacts
  import opened Window

  /** The instruction that ends at `a`: a two-byte one, or else a four-byte one. */
  function Prev(p: Program, a: Word): Option<Word> {
    if a >= 2 && a - 2 in p.code && p.code[a - 2].len == 2 then Some(a - 2)
    else if a >= 4 && a - 4 in p.code && p.code[a - 4].len == 4 then Some(a - 4)
    else None
  }

  /** `t` is in the side-entry map: a relative transfer of the sweep goes to it. */
  predicate IsTarget(p: Program, t: Word) {
    && p.vaddr <= t < p.vaddr + p.size
    && exists a :: a in p.code && TransfersTo(p.code[a].insn, a, t)
  }

  predicate TransfersTo(i: Insn, a: Word, t: Word) {
    (i.Branch? || i.Jal?) && Wrap(a + i.off) == t
  }

  predicate Direct(i: Insn, off: int) {
    match i
    case Branch(_, _, _, o) => o == off
    case Jal(_, o) => o == off
    case _ => false
  }

  /** The side entries are the places in the section a branch, jump or call goes to, and no
      others. */
  lemma TargetsExactly(p: Program, t: Word)
    ensures IsTarget(p, t) <==>
            p.vaddr <= t < p.vaddr + p.size &&
            exists a: Word, off: int :: a in p.code && Direct(p.code[a].insn, off) && t == Wrap(a + off)
  {
    hide Wrap;
    if IsTarget(p, t) {
      var a :| a in p.code && TransfersTo(p.code[a].insn, a, t);
      assert Direct(p.code[a].insn, p.code[a].insn.off);
    }
  }

  /** The table before `a`. A halfword that does not decode drops it. */
  function WindowAt(p: Program, a: Word): Table
    decreases a
  {
    match Prev(p, a)
    case Some(b) => Observed(WindowAt(p, b), p.code[b].insn, b, IsTarget(p, a) || !Readable(p, b))
    case None => Empty
  }

  ghost predicate TrueHere(p: Program, s: State) {
    Mapped(s.mem) && (s.pc in p.code ==> TableTrue(WindowAt(p, s.pc), s))
  }

  /** Nothing is carried into `a`: it begins the section, follows undecodable
      bytes or a transfer that does not fall through, or is a side entry. */
  predicate Quiet(p: Program, a: Word) {
    match Prev(p, a)
    case Some(b) => IsTarget(p, a) || EndsRegion(p.code[b].insn)
    case None => true
  }

  ghost predicate QuietLandings(p: Program) {
    forall a :: a in p.landings ==> Quiet(p, a)
  }

  lemma QuietIsEmpty(p: Program, a: Word)
    requires Quiet(p, a)
    ensures WindowAt(p, a) == Empty
  {
  }

  lemma EmptyTrue(s: State)
    ensures TableTrue(Empty, s)
  {
  }

  /** Memory never loses a mapped byte. */
  lemma {:induction false} EffectMapped(i: Insn, len: nat, s: State)
    requires Mapped(s.mem)
    ensures Mapped(Effect(i, len, s).mem)
    decreases i
  {
    hide XResult, FResult, Digit, Gap;
    if i.Then? {
      EffectMapped(i.first, len, s);
      EffectMapped(i.rest, len, Effect(i.first, len, s));
    }
  }

  lemma PrevOfNext(p: Program, a: Word)
    requires WellFormed(p) && a in p.code
    ensures a + p.code[a].len < W64 && Prev(p, a + p.code[a].len) == Some(a)
  {
    hide PlainInsn, Reads, Writes;
    var n := a + p.code[a].len;
    assert p.code[a].len == 4 && n - 2 in p.code ==> a < n - 2;
  }

  lemma TableIgnoresPc(t: Table, s: State, pc: Word)
    ensures TableTrue(t, s.(pc := pc)) == TableTrue(t, s)
  {
    hide LoadLE, AluVal, Extend, Low;
    assert SlotsTrue(t.slots, s.(pc := pc)) == SlotsTrue(t.slots, s) by {
      forall k | 0 <= k < |t.slots|
        ensures SlotTrue(t.slots[k], s.(pc := pc)) == SlotTrue(t.slots[k], s)
      {
      }
    }
    assert forall r: Reg :: X(s.(pc := pc), r) == X(s, r);
    forall r | r in t.comps
      ensures CompTrue(t.comps[r], r, s.(pc := pc)) == CompTrue(t.comps[r], r, s)
    {
    }
  }

  lemma FallsThrough(p: Program, s: State)
    requires WellFormed(p) && TrueHere(p, s) && s.pc in p.code && !EndsRegion(p.code[s.pc].insn)
    ensures var d := p.code[s.pc];
            s.pc + d.len < W64 && TableTrue(WindowAt(p, s.pc + d.len), Effect(d.insn, d.len, s).(pc := s.pc + d.len))
  {
    hide TableTrue, Observed, Effect, Mapped, IsTarget, PlainInsn, Reads, Writes;
    var d := p.code[s.pc];
    PrevOfNext(p, s.pc);
    var n: Word := s.pc + d.len;
    assert PlainInsn(d.insn) by {
      assert WellPlaced(p, s.pc, d);
    }
    ObservedTrue(WindowAt(p, s.pc), d.insn, d.len, s.pc, IsTarget(p, n) || !Readable(p, s.pc), s);
    TableIgnoresPc(WindowAt(p, n), Effect(d.insn, d.len, s), n);
  }

  /** A direct transfer that is taken lands on a side entry. */
  lemma TransferLands(p: Program, s: State)
    requires WellFormed(p) && Runs(p, s) && Step(p, s).pc in p.code
    ensures var d, n := p.code[s.pc], Step(p, s).pc;
            d.insn.Jalr? || (n == s.pc + d.len && !d.insn.Jal?) || IsTarget(p, n)
    ensures p.code[s.pc].insn.Jalr? ==> Step(p, s).pc in p.landings
  {
    hide Effect, Taken, WellFormed, ClearBit0;
    var d, n := p.code[s.pc], Step(p, s).pc;
    Placed(p, n);
    Placed(p, s.pc);
    assert (d.insn.Branch? || d.insn.Jal?) && n == Wrap(s.pc + d.insn.off) ==> TransfersTo(d.insn, s.pc, n);
  }

  ghost predicate NoLandingInside(p: Program, a: Word, end: Word) {
    forall c :: c in p.landings ==> !(a < c < end)
  }

  /** A stretch that begins at `a` and has no side entry is entered from above. */
  lemma NothingEnters(p: Program, a: Word, end: Word, s: State)
    requires WellFormed(p) && a in p.code && NoLandingInside(p, a, end)
    requires forall c :: c in p.code && a < c < end ==> !IsTarget(p, c)
    requires s.pc in p.code && !(a <= s.pc < end) && Runs(p, s) && Step(p, s).pc in p.code
    ensures !(a < Step(p, s).pc < end)
  {
    hide Step, WellFormed, IsTarget;
    var c := Step(p, s).pc;
    Placed(p, s.pc);
    TransferLands(p, s);
    if a < c < end {
      Apart(p, s.pc, a);
    }
  }

  lemma Lands(p: Program, s: State, n: Word)
    requires WellFormed(p) && QuietLandings(p) && Runs(p, s) && n in p.code
    requires n == Step(p, s).pc && (n != s.pc + p.code[s.pc].len || EndsRegion(p.code[s.pc].insn))
    ensures Quiet(p, n) && WindowAt(p, n) == Empty
  {
    hide Step, Observed, WellFormed, IsTarget;
    PrevOfNext(p, s.pc);
    TransferLands(p, s);
    QuietIsEmpty(p, n);
  }

  /** A step that falls through meets the table the sweep made of it; one that
      does not lands where the table is empty. */
  lemma StepKeepsTrue(p: Program, s: State)
    requires WellFormed(p) && QuietLandings(p) && TrueHere(p, s)
    ensures TrueHere(p, Step(p, s))
  {
    hide TableTrue, Effect, Mapped, NextPc, WellFormed, QuietLandings, WindowAt;
    if Runs(p, s) {
      var d, n := p.code[s.pc], Step(p, s).pc;
      EffectMapped(d.insn, d.len, s);
      if n == s.pc + d.len && !EndsRegion(d.insn) {
        FallsThrough(p, s);
      } else if n in p.code {
        Lands(p, s, n);
        EmptyTrue(Step(p, s));
      }
    }
  }

  /** A run may start anywhere the table is empty. */
  ghost predicate Starts(p: Program, s: State) {
    Mapped(s.mem) && Quiet(p, s.pc)
  }

  /** At every state of every run the table the sweep holds there is true. */
  lemma {:induction false} WindowIsTrue(p: Program, s: State, n: nat)
    requires WellFormed(p) && QuietLandings(p) && Starts(p, s)
    ensures TrueHere(p, Run(p, s, n))
  {
    if n == 0 {
      QuietIsEmpty(p, s.pc);
      EmptyTrue(s);
    } else {
      WindowIsTrue(p, s, n - 1);
      StepKeepsTrue(p, Run(p, s, n - 1));
    }
  }
}
