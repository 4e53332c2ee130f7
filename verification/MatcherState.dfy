/** The matcher's tables as the sweep keeps them, and the check that reads them. */
module MatcherState {
  import opened Words
  import opened Wrappers
  import opened Machine
  import opened Window
  import opened Sweep
  import opened Liveness
  import opened Matcher

  /** The count a finding offers in place of the sequence. */
  datatype BitCount = BitCount(rd: Reg, src: Reg, wide: bool, start: Word, insns: nat)

  class PopcountTables {
    var entry: map<Reg, Entry>
    var known: map<Reg, Word>

    ghost function View(): Tables
      reads this
    {
      Tables(entry, known)
    }

    constructor ()
      ensures View() == NoTables
    {
      entry, known := map[], map[];
    }

    /** An unrelated write: the register's entry and every stage computed from it. */
    method KillRegister(r: Reg)
      modifies this
      ensures View() == Kill(old(View()), r)
    {
      known := known - {r};
      var q: int := 0;
      while q < 32
        invariant 0 <= q <= 32 && known == old(known) - {r}
        invariant entry == map c | c in old(entry) && (c >= q || (c != r && old(entry)[c].src != r)) :: old(entry)[c]
      {
        if q in entry && (q == r || entry[q].src == r) {
          entry := entry - {q};
        }
        q := q + 1;
      }
    }

    method ClearRegister(r: Reg)
      modifies this
      ensures View() == ClearDst(old(View()), r)
    {
      entry, known := entry - {r}, known - {r};
    }

    method Set(rd: Reg, e: Entry)
      modifies this`entry
      ensures entry == old(entry)[rd := e]
    {
      entry := entry[rd := e];
    }

    /** Carries out what an instruction is to the matcher. */
    method Apply(m: Move, len: nat, a: Word)
      modifies this
      ensures View() == After(old(View()), m, len, a)
    {
      hide Written;
      match m {
        case Constant(rd, v) =>
          KillRegister(rd);
          known := known[rd := v];
        case Open(rd, src) =>
          KillRegister(rd);
          Set(rd, Opened(src, len, a));
        case Advance(rd, e, st, _, _) =>
          ClearRegister(rd);
          Set(rd, Written(e, rd, st, len));
        case Spoil(rd) => KillRegister(rd);
        case Leave =>
      }
    }

    /** Folds the instruction at `a` into the tables. */
    method Observe(p: Program, a: Word)
      requires WellFormed(p) && a in p.code && View() == TablesAt(p, a)
      modifies this
      ensures a + p.code[a].len < W64 && View() == TablesAt(p, a + p.code[a].len)
    {
      hide MoveOf, WellFormed, IsTarget, TablesAt, After;
      var d := p.code[a];
      TablesOn(p, a);
      Apply(MoveOf(Tables(entry, known), d.insn, d.len), d.len, a);
      if IsTarget(p, Wrap(a + d.len)) || !Readable(p, a) || EndsRegion(d.insn) {
        entry, known := map[], map[];
      }
    }

    method CheckSwarPopcount(p: Program, a: Word) returns (f: Option<BitCount>)
      requires WellFormed(p) && a in p.code && View() == TablesAt(p, a)
      ensures f == BitCountAt(p, a)
    {
      hide Closes, TablesAt, WalkClosed, IsTarget, WellFormed, XDest, WalkAnswer;
      if !Readable(p, a) { return None; }
      var d := p.code[a];
      var t := Tables(entry, known);
      var r := Closes(t, d.insn);
      if r.Some? { ClosesShape(t, d.insn); }
      if r.None? || IsTarget(p, a) { return None; }
      var e := entry[r.value];
      if e.clobbered {
        var answer := Walk(p, Wrap(a + d.len), e.src);
        if answer != Dead { return None; }
      }
      return Some(BitCount(XDest(d.insn), e.src, e.wide, e.start, e.insns + 1));
    }
  }

  /** A finding closes a product of its own width, at no side entry; a source the sequence
      wrote over must be answered dead. */
  function BitCountAt(p: Program, a: Word): Option<BitCount> {
    if a !in p.code || !Readable(p, a) || Closes(TablesAt(p, a), p.code[a].insn).None? || IsTarget(p, a) then None
    else
      var e := TablesAt(p, a).entry[Closes(TablesAt(p, a), p.code[a].insn).value];
      if e.clobbered && WalkAnswer(p, Wrap(a + p.code[a].len), e.src) != Dead then None
      else Some(BitCount(XDest(p.code[a].insn), e.src, e.wide, e.start, e.insns + 1))
  }

  /** Every finding counts twelve instructions. */
  lemma ReportsTwelve(p: Program, a: Word)
    requires BitCountAt(p, a).Some?
    ensures BitCountAt(p, a).value.insns == 12
  {
    hide TablesAt, WalkAnswer, IsTarget;
    ClosesShape(TablesAt(p, a), p.code[a].insn);
    AlwaysTwelve(p, a, Closes(TablesAt(p, a), p.code[a].insn).value);
  }

  lemma TablesOn(p: Program, a: Word)
    requires WellFormed(p) && a in p.code
    ensures a + p.code[a].len < W64 && Wrap(a + p.code[a].len) == a + p.code[a].len
    ensures var d := p.code[a];
            var t := TablesAt(p, a);
            TablesAt(p, a + d.len) ==
            if IsTarget(p, a + d.len) || !Readable(p, a) || EndsRegion(d.insn) then NoTables
            else After(t, MoveOf(t, d.insn, d.len), d.len, a)
  {
    hide WellFormed, MoveOf, After, IsTarget;
    PrevOfNext(p, a);
  }
}
