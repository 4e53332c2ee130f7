/** A transfer to an unconditional jump, sent straight to where the jump goes. */
module Threading {
  import opened Words
  import opened Wrappers
  import opened Machine
  import opened Sweep
  import opened Liveness
  import ImmediateForms

  const THREAD_HOPS: nat := 8

  datatype Hop = Hop(dest: Word, wrote: Reg)

  /** The unconditional jump at `at`: `j`, or `auipc rd` + `jr lo(rd)`, which also
      leaves the auipc's result in rd. `wrote` is x0 for a jump that writes nothing. */
  function JumpAt(p: Program, at: Word): Option<Hop> {
    if at !in p.code || !Readable(p, at) then None
    else
      var d := p.code[at];
      if d.insn.Jal? then
        if d.insn.rd != 0 then None else Some(Hop(Wrap(at + d.insn.off), 0))
      else if d.len == 4 && d.insn.Auipc? && d.insn.rd != 0 && at + 4 < W64 then
        var b: Word := at + 4;
        if b in p.code && Readable(p, b) && p.code[b].len == 4 && p.code[b].insn.Jalr?
           && p.code[b].insn.rd == 0 && p.code[b].insn.rs1 == d.insn.rd
        then Some(Hop(ClearBit0(Wrap(at + (d.insn.imm + p.code[b].insn.imm))), d.insn.rd))
        else None
      else None
  }

  predicate JalReaches(offset: int) {
    -1048576 <= offset <= 1048574 && offset % 2 == 0
  }

  /** Encoded bytes of a conditional branch. */
  function BranchSize(i: Insn, offset: int): nat
    requires i.Branch?
  {
    if i.cond != Beq && i.cond != Bne then 4
    else if i.rs2 != 0 || !(8 <= i.rs1 <= 15) then 4
    else if offset < -256 || offset > 254 || offset % 2 != 0 then 4
    else 2
  }

  /** The transfer reaches `offset`, in its own encoding class. */
  predicate Reaches(i: Insn, len: nat, offset: int) {
    if i.Branch? then
      -4096 <= offset <= 4094 && (len == 2 ==> BranchSize(i, offset) == 2)
    else
      JalReaches(offset) && (len == 2 ==> -2048 <= offset <= 2046)
  }

  /** `n` jumps lead from `from` to `dest`, writing `regs` on the way. */
  ghost predicate Chain(p: Program, from: Word, dest: Word, regs: set<Reg>, n: nat)
    decreases n
  {
    if n == 0 then from == dest && regs == {}
    else exists mid: Word, before: set<Reg> ::
           && Chain(p, from, mid, before, n - 1) && JumpAt(p, mid).Some?
           && JumpAt(p, mid).value.dest == dest && regs == before + NonZero(JumpAt(p, mid).value.wrote)
  }

  lemma ChainStarts(p: Program, from: Word)
    ensures Chain(p, from, from, {}, 0)
  {
  }

  lemma ChainGrows(p: Program, from: Word, mid: Word, regs: set<Reg>, n: nat)
    requires Chain(p, from, mid, regs, n) && JumpAt(p, mid).Some?
    ensures Chain(p, from, JumpAt(p, mid).value.dest, regs + NonZero(JumpAt(p, mid).value.wrote), n + 1)
  {
    hide JumpAt;
  }

  /** Asks the liveness walk about every register of `regs` at `to`. */
  method AllDead(p: Program, to: Word, regs: set<Reg>) returns (dead: bool)
    requires WellFormed(p)
    ensures dead <==> AllAnsweredDead(p, to, regs)
    ensures dead ==> forall r :: r in regs && r != 0 ==> FoundClosed(p, to, r)
  {
    hide WalkClosed, WellFormed, WalkAnswer;
    var r := 1;
    while r < 32
      invariant 1 <= r <= 32
      invariant forall q: Reg :: 1 <= q < r && q in regs ==> FoundClosed(p, to, q) && WalkAnswer(p, to, q) == Dead
    {
      if r in regs {
        var answer := Walk(p, to, r);
        if answer != Dead { return false; }
      }
      r := r + 1;
    }
    return true;
  }

  datatype Threaded = Threaded(dest: Word, hops: nat, skipped: set<Reg>)

  /** What the check established about the transfer at `a`. */
  ghost predicate Threads(p: Program, a: Word, t: Threaded) {
    && a in p.code && (p.code[a].insn.Branch? || p.code[a].insn.Jal?)
    && Chain(p, Wrap(a + p.code[a].insn.off), t.dest, t.skipped, t.hops)
    && (t.dest == a + p.code[a].len ==> p.code[a].insn.Branch? || p.code[a].insn.rd == 0)
    && forall r :: r in t.skipped ==> DeadAt(p, t.dest, r)
  }

  ghost predicate SafeBeyond(p: Program, t: Threaded) {
    forall r :: r in t.skipped ==> ZeroSafe(p, t.dest, r)
  }

  lemma WalkedThreads(p: Program, a: Word, t: Threaded)
    requires WellFormed(p) && SafeBeyond(p, t)
    requires a in p.code && (p.code[a].insn.Branch? || p.code[a].insn.Jal?)
    requires Chain(p, Wrap(a + p.code[a].insn.off), t.dest, t.skipped, t.hops)
    requires t.dest == a + p.code[a].len ==> p.code[a].insn.Branch? || p.code[a].insn.rd == 0
    requires forall r :: r in t.skipped ==> FoundClosed(p, t.dest, r)
    ensures Threads(p, a, t)
  {
    hide Chain, WalkClosed, WellFormed, ZeroSafe, DeadAt;
    forall r | r in t.skipped ensures DeadAt(p, t.dest, r) {
      AnsweredIsDead(p, t.dest, r);
    }
  }

  predicate AllAnsweredDead(p: Program, to: Word, regs: set<Reg>) {
    forall r :: r in regs && r != 0 ==> WalkAnswer(p, to, r) == Dead
  }

  /** The next jump, if it is followed. */
  function NextHop(p: Program, a: Word, t: Threaded): Option<Threaded>
    requires a in p.code
  {
    var hop := JumpAt(p, t.dest);
    if hop == None || hop.value.dest == t.dest then None
    else
      var to, regs := hop.value.dest, t.skipped + NonZero(hop.value.wrote);
      if Reaches(p.code[a].insn, p.code[a].len, Signed(Wrap(to - a))) && AllAnsweredDead(p, to, regs) then
        Some(Threaded(to, t.hops + 1, regs))
      else None
  }

  /** The jumps followed from `t.dest` on, no more than `left` of them. */
  function Follow(p: Program, a: Word, t: Threaded, left: nat): Threaded
    requires a in p.code
    decreases left
  {
    if left == 0 || NextHop(p, a, t) == None then t else Follow(p, a, NextHop(p, a, t).value, left - 1)
  }

  /** A branch over exactly one jump, which goes elsewhere and which the branch turned
      round could reach: left to the check that deletes the jump. */
  predicate OverJump(p: Program, a: Word)
    requires a in p.code
  {
    var i, second := p.code[a].insn, Wrap(a + p.code[a].len);
    && i.Branch? && second in p.code && Readable(p, second) && !IsTarget(p, second)
    && var j := p.code[second].insn;
       && j.Jal? && j.rd == 0 && a + i.off == second + p.code[second].len && second + j.off != a + i.off
       && -4096 <= second + j.off - a <= 4094 && (second + j.off - a) % 2 == 0
  }

  function ThreadOutcome(p: Program, a: Word): Option<Threaded>
    requires a in p.code
  {
    var d := p.code[a];
    if !Readable(p, a) || !(d.insn.Branch? || d.insn.Jal?) || Wrap(a + d.insn.off) == a + d.len
        || OverJump(p, a) then None
    else
      var t := Follow(p, a, Threaded(Wrap(a + d.insn.off), 0, {}), THREAD_HOPS);
      if t.hops == 0 || (t.dest == a + d.len && d.insn.Jal? && d.insn.rd != 0) then None else Some(t)
  }

  /** What holds of the jumps followed so far. */
  ghost predicate Followed(p: Program, a: Word, from: Word, t: Threaded) {
    && a in p.code && Chain(p, from, t.dest, t.skipped, t.hops) && 0 !in t.skipped
    && (t.hops > 0 ==>
          && Reaches(p.code[a].insn, p.code[a].len, Signed(Wrap(t.dest - a)))
          && forall r :: r in t.skipped ==> FoundClosed(p, t.dest, r))
  }

  lemma AnsweredWalked(p: Program, to: Word, regs: set<Reg>)
    requires WellFormed(p) && AllAnsweredDead(p, to, regs)
    ensures forall r :: r in regs && r != 0 ==> FoundClosed(p, to, r)
  {
    hide WalkClosed, WalkAnswer, WellFormed;
    forall r | r in regs && r != 0 ensures FoundClosed(p, to, r) { WalkAnswers(p, to, r); }
  }

  lemma HopSound(p: Program, a: Word, from: Word, t: Threaded)
    requires WellFormed(p) && Followed(p, a, from, t) && NextHop(p, a, t).Some?
    ensures Followed(p, a, from, NextHop(p, a, t).value) && NextHop(p, a, t).value.hops == t.hops + 1
  {
    hide WellFormed, Reaches, JumpAt, FoundClosed, Chain, AllAnsweredDead, Wrap, Signed;
    var hop := JumpAt(p, t.dest);
    var to, regs := hop.value.dest, t.skipped + NonZero(hop.value.wrote);
    ChainGrows(p, from, t.dest, t.skipped, t.hops);
    AnsweredWalked(p, to, regs);
  }

  /** Every jump followed leads where it says, within reach, past dead registers. */
  lemma {:induction false} FollowSound(p: Program, a: Word, from: Word, t: Threaded, left: nat)
    requires WellFormed(p) && Followed(p, a, from, t)
    ensures var u := Follow(p, a, t, left); Followed(p, a, from, u) && t.hops <= u.hops <= t.hops + left
    decreases left
  {
    hide WellFormed, NextHop, Followed;
    assert a in p.code by { InCode(p, a, from, t); }
    if left > 0 && NextHop(p, a, t) != None {
      HopSound(p, a, from, t);
      FollowSound(p, a, from, NextHop(p, a, t).value, left - 1);
    }
  }

  lemma InCode(p: Program, a: Word, from: Word, t: Threaded)
    requires Followed(p, a, from, t)
    ensures a in p.code
  {
    hide Chain, Reaches;
  }

  /** The next jump, its registers asked about one by one. */
  method HopOn(p: Program, a: Word, t: Threaded) returns (next: Option<Threaded>)
    requires WellFormed(p) && a in p.code
    ensures next == NextHop(p, a, t)
  {
    hide WellFormed, Reaches, JumpAt, AllAnsweredDead, Wrap, Signed, FoundClosed;
    var hop := JumpAt(p, t.dest);
    if hop == None || hop.value.dest == t.dest { return None; }
    var to, regs := hop.value.dest, t.skipped + NonZero(hop.value.wrote);
    if !Reaches(p.code[a].insn, p.code[a].len, Signed(Wrap(to - a))) { return None; }
    var dead := AllDead(p, to, regs);
    return if dead then Some(Threaded(to, t.hops + 1, regs)) else None;
  }

  /** What a finding promises of the jumps it skips. */
  ghost predicate ThreadRight(p: Program, a: Word, t: Threaded) {
    && a in p.code && (p.code[a].insn.Branch? || p.code[a].insn.Jal?) && 1 <= t.hops <= THREAD_HOPS
    && Wrap(a + p.code[a].insn.off) != a + p.code[a].len
    && Followed(p, a, Wrap(a + p.code[a].insn.off), t)
  }

  lemma ThreadIsSound(p: Program, a: Word)
    requires WellFormed(p) && a in p.code && ThreadOutcome(p, a).Some?
    ensures ThreadRight(p, a, ThreadOutcome(p, a).value)
    ensures SafeBeyond(p, ThreadOutcome(p, a).value) ==> Threads(p, a, ThreadOutcome(p, a).value)
  {
    hide WellFormed, Reaches, FoundClosed, Chain, Follow, SafeBeyond, Threads, Wrap, Signed;
    var from := Wrap(a + p.code[a].insn.off);
    ChainStarts(p, from);
    FollowSound(p, a, from, Threaded(from, 0, {}), THREAD_HOPS);
    if SafeBeyond(p, ThreadOutcome(p, a).value) {
      WalkedThreads(p, a, ThreadOutcome(p, a).value);
    }
  }

  /** Follows the jumps from where the transfer at `a` goes, as far as it reaches
      and the registers the skipped jumps wrote are dead. */
  method CheckTransferToJump(p: Program, a: Word) returns (found: Option<Threaded>)
    requires WellFormed(p) && a in p.code
    ensures found == ThreadOutcome(p, a)
    ensures found.Some? ==> ThreadRight(p, a, found.value)
    ensures found.Some? && SafeBeyond(p, found.value) ==> Threads(p, a, found.value)
  {
    hide SafeBeyond, Threads, ThreadRight, WellFormed, NextHop, Wrap, Signed;
    if ThreadOutcome(p, a).Some? { ThreadIsSound(p, a); }
    var d := p.code[a];
    if !Readable(p, a) || !(d.insn.Branch? || d.insn.Jal?) { return None; }
    var from: Word := Wrap(a + d.insn.off);
    if from == a + d.len || OverJump(p, a) { return None; }
    var t, left: nat := Threaded(from, 0, {}), THREAD_HOPS;
    while left > 0
      invariant Follow(p, a, t, left) == Follow(p, a, Threaded(from, 0, {}), THREAD_HOPS)
      decreases left
    {
      var next := HopOn(p, a, t);
      if next == None { break; }
      t, left := next.value, left - 1;
    }
    return if t.hops == 0 || (t.dest == a + d.len && d.insn.Jal? && d.insn.rd != 0) then None else Some(t);
  }

  /** The transfer sent to `dest`; deleted where that is what follows it. */
  function Retargeted(p: Program, a: Word, dest: Word): Program
    requires a in p.code && (p.code[a].insn.Branch? || p.code[a].insn.Jal?)
  {
    var d := p.code[a];
    var i := if dest == a + d.len then Nop else d.insn.(off := Signed(Wrap(dest - a)));
    p.(code := p.code[a := d.(insn := i)])
  }

  // ---- why nothing notices ----

  /** One state but for registers that are dead there. */
  ghost predicate Alike(p: Program, s: State, t: State) {
    && s.pc == t.pc && s.f == t.f && s.mem == t.mem
    && forall r: Reg :: X(s, r) != X(t, r) ==> DeadAt(p, s.pc, r)
  }

  ghost predicate SameOn(regs: set<Reg>, s: State, t: State) {
    forall r: Reg :: r in regs ==> X(s, r) == X(t, r)
  }

  lemma ResultsFrom(i: Insn, len: nat, s: State, t: State)
    requires !i.Then? && s.pc == t.pc && s.f == t.f && s.mem == t.mem && SameOn(Reads(i), s, t)
    ensures XResult(i, len, t) == XResult(i, len, s) && FResult(i, t) == FResult(i, s)
    ensures MemResult(i, t) == MemResult(i, s) && NextPc(i, len, t) == NextPc(i, len, s)
  {
    hide AluVal, Extend, LoadLE, StoreLE, Taken, ClearBit0, Box, Sext;
    assert X(s, 0) == X(t, 0);
  }

  /** The same instruction from two such states leaves two such states. */
  lemma EffectFrom(i: Insn, len: nat, s: State, t: State)
    requires !i.Then? && s.pc == t.pc && s.f == t.f && s.mem == t.mem && SameOn(Reads(i), s, t)
    ensures var s', t' := Effect(i, len, s), Effect(i, len, t);
            && s'.pc == t'.pc && s'.f == t'.f && s'.mem == t'.mem
            && (forall r: Reg :: r in Writes(i) || X(s, r) == X(t, r) ==> X(s', r) == X(t', r))
    ensures NextPc(i, len, t) == NextPc(i, len, s)
  {
    ResultsFrom(i, len, s, t);
    hide XResult, FResult, MemResult, NextPc, Reads;
  }

  lemma DeadIsUnread(p: Program, a: Word, r: Reg)
    requires DeadAt(p, a, r)
    ensures a in p.code && r !in Reads(p.code[a].insn)
    ensures r !in Writes(p.code[a].insn) ==> Passes(p, a, r) && forall b :: b in Succs(p, a) ==> DeadAt(p, b, r)
  {
    hide Reads, Writes, Succs;
    var s: set<Word> :| a in s && Closed(p, s, r);
    assert Kills(p, a, r) || (Passes(p, a, r) && Succs(p, a) <= s);
    if r !in Writes(p.code[a].insn) {
      forall b | b in Succs(p, a) ensures DeadAt(p, b, r) {
        assert b in s;
      }
    }
  }

  /** Both runs take the instruction at one pc. */
  lemma StepAlike(p: Program, q: Program, s: State, t: State)
    requires WellFormed(p) && Alike(p, s, t) && s.pc in p.code && q.landings == p.landings
    requires s.pc in q.code && q.code[s.pc] == p.code[s.pc]
    ensures Alike(p, Step(p, s), Step(q, t))
  {
    hide Effect, NextPc, Reads, Writes, DeadAt, Succs, WellFormed, X;
    var d := p.code[s.pc];
    Placed(p, s.pc);
    forall r: Reg | r in Reads(d.insn) ensures X(s, r) == X(t, r) {
      if X(s, r) != X(t, r) { DeadIsUnread(p, s.pc, r); }
    }
    EffectFrom(d.insn, d.len, s, t);
    var s', t' := Step(p, s), Step(q, t);
    PcOnly(Effect(d.insn, d.len, s), NextPc(d.insn, d.len, s));
    PcOnly(Effect(d.insn, d.len, t), NextPc(d.insn, d.len, t));
    assert Runs(p, s) == Runs(q, t);
    forall r: Reg | X(s', r) != X(t', r)
      ensures DeadAt(p, s'.pc, r)
    {
      assert X(s, r) != X(t, r);
      if Runs(p, s) {
        DeadIsUnread(p, s.pc, r);
        NextIsSucc(p, s);
      }
    }
  }

  lemma PcOnly(s: State, pc: Word)
    ensures forall r: Reg :: X(s.(pc := pc), r) == X(s, r)
  {
  }

  /** The veneers' own jumps are among the assumed landings. */
  ghost predicate VeneersLand(p: Program) {
    forall at :: at in p.code && JumpAt(p, at).Some? && JumpAt(p, at).value.wrote != 0 ==>
      JumpAt(p, at).value.dest in p.landings
  }

  /** `t` is `s` gone on to `pc`, with `regs` lost. */
  ghost predicate Moved(s: State, t: State, pc: Word, regs: set<Reg>) {
    t.pc == pc && t.f == s.f && t.mem == s.mem && forall r: Reg :: r !in regs ==> X(t, r) == X(s, r)
  }

  lemma JumpStep(p: Program, s: State)
    requires s.pc in p.code && p.code[s.pc].insn.Jal? && p.code[s.pc].insn.rd == 0
    ensures Step(p, s) == s.(pc := Wrap(s.pc + p.code[s.pc].insn.off))
  {
    hide Wrap;
  }

  lemma AuipcStep(p: Program, s: State)
    requires s.pc in p.code && p.code[s.pc].insn.Auipc? && p.code[s.pc].insn.rd != 0
    ensures var d := p.code[s.pc];
            Step(p, s) == SetX(s, d.insn.rd, Wrap(s.pc + d.insn.imm)).(pc := Wrap(s.pc + d.len))
  {
    hide Wrap;
  }

  lemma JrStep(p: Program, s: State)
    requires s.pc in p.code && p.code[s.pc].insn.Jalr? && p.code[s.pc].insn.rd == 0
    requires ClearBit0(Wrap(X(s, p.code[s.pc].insn.rs1) + p.code[s.pc].insn.imm)) in p.landings
    ensures Step(p, s) == s.(pc := ClearBit0(Wrap(X(s, p.code[s.pc].insn.rs1) + p.code[s.pc].insn.imm)))
  {
    hide Wrap, ClearBit0;
  }

  lemma WrapSum(a: int, hi: int, lo: int)
    ensures Wrap(Wrap(a + hi) + lo) == Wrap(a + (hi + lo))
  {
    hide Wrap;
    ImmediateForms.WrapAdds(lo, a + hi);
    assert lo + (a + hi) == a + (hi + lo) && Wrap(a + hi) + lo == lo + Wrap(a + hi);
  }

  /** The machine takes one step or two from a jump to where it goes. */
  lemma HopRuns(p: Program, s: State) returns (k: nat)
    requires WellFormed(p) && VeneersLand(p) && JumpAt(p, s.pc).Some?
    ensures 1 <= k <= 2
    ensures var hop := JumpAt(p, s.pc).value; Moved(s, Run(p, s, k), hop.dest, NonZero(hop.wrote))
  {
    hide Step, WellFormed, ClearBit0, Runs;
    var d, hop := p.code[s.pc], JumpAt(p, s.pc).value;
    assert Run(p, s, 0) == s && Run(p, s, 1) == Step(p, s);
    if d.insn.Jal? {
      JumpStep(p, s);
      k := 1;
    } else {
      AuipcStep(p, s);
      var t := Step(p, s);
      WrapSum(s.pc, d.insn.imm, p.code[s.pc + 4].insn.imm);
      assert t.pc == s.pc + 4 && X(t, d.insn.rd) == Wrap(s.pc + d.insn.imm);
      JrStep(p, t);
      assert Run(p, s, 2) == Step(p, t);
      k := 2;
    }
  }

  /** A register dead at a jump is dead where it goes, unless the jump wrote it. */
  lemma HopKeepsDead(p: Program, at: Word, r: Reg)
    requires WellFormed(p) && JumpAt(p, at).Some? && DeadAt(p, at, r) && r !in NonZero(JumpAt(p, at).value.wrote)
    ensures DeadAt(p, JumpAt(p, at).value.dest, r)
  {
    hide DeadAt, WellFormed, ClearBit0;
    DeadIsUnread(p, at, r);
    var d := p.code[at];
    if d.insn.Auipc? {
      var b: Word := at + 4;
      assert b in Succs(p, at);
      DeadIsUnread(p, b, r);
    }
  }

  lemma {:induction false} RunOn(p: Program, s: State, m: nat, k: nat)
    ensures Run(p, s, m + k) == Run(p, Run(p, s, m), k)
    decreases k
  {
    hide Step;
    if k > 0 {
      RunOn(p, s, m, k - 1);
    }
  }

  lemma {:induction false} ChainRuns(p: Program, from: Word, dest: Word, regs: set<Reg>, n: nat,
                                     s: State) returns (k: nat)
    requires WellFormed(p) && VeneersLand(p) && Chain(p, from, dest, regs, n) && s.pc == from
    ensures k >= n && Moved(s, Run(p, s, k), dest, regs)
    ensures forall r: Reg :: r !in regs && DeadAt(p, from, r) ==> DeadAt(p, dest, r)
    decreases n
  {
    hide WellFormed, VeneersLand, JumpAt, Step, DeadAt;
    if n == 0 {
      k := 0;
      return;
    }
    var mid: Word, before: set<Reg> :|
      && Chain(p, from, mid, before, n - 1) && JumpAt(p, mid).Some?
      && JumpAt(p, mid).value.dest == dest && regs == before + NonZero(JumpAt(p, mid).value.wrote);
    var j := ChainRuns(p, from, mid, before, n - 1, s);
    var h := HopRuns(p, Run(p, s, j));
    RunOn(p, s, j, h);
    k := j + h;
    forall r: Reg | r !in regs && DeadAt(p, from, r)
      ensures DeadAt(p, dest, r)
    {
      HopKeepsDead(p, mid, r);
    }
  }

  lemma WrapBack(a: Word, dest: Word)
    ensures Wrap(a + Signed(Wrap(dest - a))) == dest
  {
  }

  /** Does the transfer at `s.pc` go to its target? */
  ghost predicate Takes(i: Insn, s: State) {
    i.Jal? || (i.Branch? && Taken(i.cond, X(s, i.rs1), X(s, i.rs2)))
  }

  lemma TransferStep(p: Program, s: State)
    requires s.pc in p.code && (p.code[s.pc].insn.Branch? || p.code[s.pc].insn.Jal?)
    ensures var d := p.code[s.pc];
            Step(p, s) == Effect(d.insn, d.len, s).(pc := Wrap(s.pc + if Takes(d.insn, s) then d.insn.off else d.len))
  {
    hide Taken, Effect, Wrap;
  }

  lemma NopStep(p: Program, s: State)
    requires s.pc in p.code && p.code[s.pc].insn == Nop
    ensures Step(p, s) == s.(pc := Wrap(s.pc + p.code[s.pc].len))
  {
    hide Wrap;
  }

  lemma SameEffect(i: Insn, off: int, len: nat, s: State)
    requires i.Branch? || i.Jal?
    ensures Effect(i.(off := off), len, s) == Effect(i, len, s) && Takes(i.(off := off), s) == Takes(i, s)
    ensures i.Branch? || i.rd == 0 ==> Effect(i, len, s) == s
  {
    hide Taken;
  }

  /** One step at the transfer, before and after the rewrite. */
  lemma TransferSteps(p: Program, a: Word, dest: Word, s: State)
    requires WellFormed(p) && a in p.code && (p.code[a].insn.Branch? || p.code[a].insn.Jal?) && s.pc == a
    requires dest == a + p.code[a].len ==> p.code[a].insn.Branch? || p.code[a].insn.rd == 0
    ensures var d, e := p.code[a], Effect(p.code[a].insn, p.code[a].len, s);
            && Step(p, s) == e.(pc := if Takes(d.insn, s) then Wrap(a + d.insn.off) else Wrap(a + d.len))
            && Step(Retargeted(p, a, dest), s) == e.(pc := if Takes(d.insn, s) then dest else Wrap(a + d.len))
  {
    hide Takes, WellFormed, Effect, Step, Wrap, Signed, Retargeted;
    Placed(p, a);
    WrapBack(a, dest);
    var d, q := p.code[a], Retargeted(p, a, dest);
    NewTransfer(p, a, dest);
    TransferStep(p, s);
    SameEffect(d.insn, Signed(Wrap(dest - a)), d.len, s);
    if dest == a + d.len {
      assert Wrap(a + d.len) == dest by { WrapOfWord(dest); }
      NopStep(q, s);
    } else {
      TransferStep(q, s);
    }
  }

  /** What stands at the transfer now. */
  lemma NewTransfer(p: Program, a: Word, dest: Word)
    requires a in p.code && (p.code[a].insn.Branch? || p.code[a].insn.Jal?)
    ensures var d, q := p.code[a], Retargeted(p, a, dest);
            && a in q.code && q.code[a].len == d.len
            && q.code[a].insn == if dest == a + d.len then Nop else d.insn.(off := Signed(Wrap(dest - a)))
  {
    hide Wrap, Signed;
  }

  lemma AtTransfer(p: Program, a: Word, th: Threaded, s: State, t: State) returns (m: nat)
    requires WellFormed(p) && VeneersLand(p) && Threads(p, a, th) && Alike(p, s, t) && s.pc == a
    ensures m >= 1 && Alike(p, Run(p, s, m), Step(Retargeted(p, a, th.dest), t))
  {
    hide Effect, Reads, Writes, DeadAt, Succs, WellFormed, X, VeneersLand, Chain, Taken;
    var d := p.code[a];
    forall r: Reg | r in Reads(d.insn) ensures X(s, r) == X(t, r) {
      if X(s, r) != X(t, r) { DeadIsUnread(p, a, r); }
    }
    EffectFrom(d.insn, d.len, s, t);
    TransferSteps(p, a, th.dest, s);
    TransferSteps(p, a, th.dest, t);
    SameChoice(d.insn, s, t);
    var s1, t1 := Step(p, s), Step(Retargeted(p, a, th.dest), t);
    hide Step, Retargeted;
    assert Run(p, s, 0) == s && Run(p, s, 1) == s1;
    PcOnly(Effect(d.insn, d.len, s), s1.pc);
    PcOnly(Effect(d.insn, d.len, t), t1.pc);
    DeadAfterTransfer(p, s, t);
    if Takes(d.insn, s) {
      var k := ChainRuns(p, s1.pc, th.dest, th.skipped, th.hops, s1);
      RunOn(p, s, 1, k);
      m := 1 + k;
    } else {
      m := 1;
    }
  }

  lemma SameChoice(i: Insn, s: State, t: State)
    requires (i.Branch? || i.Jal?) && SameOn(Reads(i), s, t)
    ensures Takes(i, s) == Takes(i, t)
  {
    hide Taken;
    assert X(s, 0) == X(t, 0);
  }

  /** A register that still differs after the transfer is dead where it went. */
  lemma DeadAfterTransfer(p: Program, s: State, t: State)
    requires WellFormed(p) && Alike(p, s, t) && s.pc in p.code && (p.code[s.pc].insn.Branch? || p.code[s.pc].insn.Jal?)
    ensures forall r: Reg :: X(s, r) != X(t, r) && r !in Writes(p.code[s.pc].insn) ==> DeadAt(p, Step(p, s).pc, r)
  {
    hide DeadAt, WellFormed, X, Succs, Reads, Writes, NextPc, Effect;
    forall r: Reg | X(s, r) != X(t, r) && r !in Writes(p.code[s.pc].insn)
      ensures DeadAt(p, Step(p, s).pc, r)
    {
      DeadIsUnread(p, s.pc, r);
      NextIsSucc(p, s);
    }
  }

  /** The threaded program goes through the states of the original, but for
      registers that are dead there: to each step of its run there is a point of
      the original run, no earlier, with the same pc, memory and live registers. */
  lemma {:induction false} ThreadingPreserves(p: Program, a: Word, th: Threaded, s: State, n: nat) returns (m: nat)
    requires WellFormed(p) && VeneersLand(p) && Threads(p, a, th)
    ensures m >= n && Alike(p, Run(p, s, m), Run(Retargeted(p, a, th.dest), s, n))
  {
    hide Chain, DeadAt, VeneersLand, WellFormed, Alike, Step;
    if n == 0 {
      m := 0;
      assert Alike(p, s, s) by { AlikeItself(p, s); }
    } else {
      var k := ThreadingPreserves(p, a, th, s, n - 1);
      var t, u := Run(p, s, k), Run(Retargeted(p, a, th.dest), s, n - 1);
      var j: nat;
      if t.pc == a {
        j := AtTransfer(p, a, th, t, u);
      } else {
        j := 1;
        Elsewhere(p, a, th, t, u);
        assert Run(p, t, 0) == t && Run(p, t, 1) == Step(p, t);
      }
      RunOn(p, s, k, j);
      m := k + j;
    }
  }

  lemma AlikeItself(p: Program, s: State)
    ensures Alike(p, s, s)
  {
  }

  lemma Elsewhere(p: Program, a: Word, th: Threaded, s: State, t: State)
    requires WellFormed(p) && Threads(p, a, th) && Alike(p, s, t) && s.pc != a
    ensures Alike(p, Step(p, s), Step(Retargeted(p, a, th.dest), t))
  {
    hide Chain, DeadAt, WellFormed, X, Exec;
    if s.pc in p.code {
      StepAlike(p, Retargeted(p, a, th.dest), s, t);
    }
  }
}
