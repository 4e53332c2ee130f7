/** The bounded liveness walk: whether a register's value can still be read from
    an address on. A worklist of path starts over the control-flow graph, with a
    budget of instructions; what it answers is tied to runs of the machine. */
module Liveness {
  import opened Words
  import opened Machine

  const LIVE_BUDGET: nat := 96
  const LIVE_PATHS: nat := 16

  datatype Answer = Unknown | Dead | Read

  // ---- what the walk reads off an instruction ----

  predicate IsCall(i: Insn) {
    (i.Jal? && i.rd != 0) || (i.Jalr? && i.rd != 0)
  }

  predicate IsReturn(i: Insn) {
    i == Jalr(0, 1, 0)
  }

  predicate IsUncond(i: Insn) {
    (i.Jal? && i.rd == 0) || (i.Jalr? && i.rd == 0)
  }

  /** The target of a relative transfer, and 0 for every other instruction. */
  function RelativeTarget(i: Insn, a: Word): Word {
    if i.Branch? || i.Jal? then Wrap(a + i.off) else 0
  }

  // ---- the control-flow graph ----

  /** Where control can go from `a` when it does not leave through an indirect
      jump. */
  function Succs(p: Program, a: Word): set<Word>
    requires a in p.code
  {
    var d := p.code[a];
    if d.insn.Jal? then {Wrap(a + d.insn.off)}
    else if d.insn.Branch? then {Wrap(a + d.insn.off), Wrap(a + d.len)}
    else {Wrap(a + d.len)}
  }

  /** The same as the walk sees it: a target of 0 is no target. */
  function WalkSuccs(p: Program, a: Word): set<Word>
    requires a in p.code
  {
    var d := p.code[a];
    var t := RelativeTarget(d.insn, a);
    if IsUncond(d.insn) then {t}
    else if t != 0 then {t, Wrap(a + d.len)}
    else {Wrap(a + d.len)}
  }

  /** Control passes through `a` without touching `r` and stays on the graph. */
  predicate Passes(p: Program, a: Word, r: Reg) {
    && a in p.code
    && r !in Reads(p.code[a].insn) && r !in Writes(p.code[a].insn)
    && !IsCall(p.code[a].insn) && !IsIndirect(p.code[a].insn)
  }

  /** `r` is written at `a`, and not read there. */
  predicate Kills(p: Program, a: Word, r: Reg) {
    a in p.code && r !in Reads(p.code[a].insn) && r in Writes(p.code[a].insn)
  }

  /** No path from `s` reads `r` before writing it, and none leaves the graph. */
  ghost predicate Closed(p: Program, s: set<Word>, r: Reg) {
    forall a :: a in s ==> Kills(p, a, r) || (Passes(p, a, r) && Succs(p, a) <= s)
  }

  ghost predicate DeadAt(p: Program, a: Word, r: Reg) {
    exists s: set<Word> :: a in s && Closed(p, s, r)
  }

  ghost predicate WalkClosed(p: Program, s: set<Word>, rest: set<Word>, r: Reg) {
    forall a :: a in s ==> Kills(p, a, r) || (Passes(p, a, r) && WalkSuccs(p, a) <= s + rest)
  }

  /** `a` is `n` steps from `from` along the graph, `r` untouched on the way. */
  ghost predicate Reaches(p: Program, from: Word, a: Word, r: Reg, n: nat)
    decreases n
  {
    if n == 0 then a == from
    else exists b :: Reaches(p, from, b, r, n - 1) && Passes(p, b, r) && a in Succs(p, b)
  }

  ghost predicate ReadReachable(p: Program, from: Word, r: Reg) {
    exists n: nat, a :: Reaches(p, from, a, r, n) && a in p.code && r in Reads(p.code[a].insn)
  }

  ghost predicate Reached(p: Program, from: Word, a: Word, r: Reg) {
    exists n: nat :: Reaches(p, from, a, r, n)
  }

  ghost predicate AllReached(p: Program, from: Word, q: seq<Word>, r: Reg) {
    forall k :: 0 <= k < |q| ==> Reached(p, from, q[k], r)
  }

  /** The walk from `at` has been all over a closed set. */
  ghost predicate FoundClosed(p: Program, at: Word, r: Reg) {
    exists s: set<Word> :: at in s && WalkClosed(p, s, {}, r) && OnlyReached(p, at, s, r)
  }

  ghost predicate OnlyReached(p: Program, from: Word, s: set<Word>, r: Reg) {
    forall a :: a in s ==> Reached(p, from, a, r)
  }

  lemma ReachedOn(p: Program, from: Word, b: Word, a: Word, r: Reg)
    requires Reached(p, from, b, r) && Passes(p, b, r) && a in Succs(p, b)
    ensures Reached(p, from, a, r)
  {
    var n: nat :| Reaches(p, from, b, r, n);
    assert Reaches(p, from, a, r, n + 1);
  }

  /** Where the walk goes from an instruction that lets it pass. */
  lemma WalkedSuccs(p: Program, a: Word, r: Reg)
    requires WellFormed(p) && a in p.code && r !in Reads(p.code[a].insn) && r !in Writes(p.code[a].insn)
    requires !IsCall(p.code[a].insn)
    requires IsUncond(p.code[a].insn) ==> RelativeTarget(p.code[a].insn, a) != 0
    ensures Passes(p, a, r) && WalkSuccs(p, a) <= Succs(p, a)
    ensures var d, t := p.code[a], RelativeTarget(p.code[a].insn, a);
            WalkSuccs(p, a) == if IsUncond(d.insn) then {t} else if t != 0 then {t, Wrap(a + d.len)}
              else {Wrap(a + d.len)}
  {
    hide Reads, Writes;
    assert Wrap(a) == a;
  }

  /** One more instruction is walked: `a` joins the set, its successors `more`
      join what is left to walk. */
  lemma WalkGrows(p: Program, s: set<Word>, a: Word, rest: set<Word>, more: set<Word>, r: Reg)
    requires WalkClosed(p, s, rest + {a}, r)
    requires Kills(p, a, r) || (Passes(p, a, r) && WalkSuccs(p, a) <= more)
    ensures WalkClosed(p, s + {a}, rest + more, r)
  {
    hide Kills, Passes, WalkSuccs;
  }

  ghost function Elements(q: seq<Word>): set<Word> {
    set w | w in q
  }

  lemma Pushed(p: Program, from: Word, q: seq<Word>, t: Word, r: Reg)
    requires AllReached(p, from, q, r) && Reached(p, from, t, r)
    ensures AllReached(p, from, q + [t], r) && Elements(q + [t]) == Elements(q) + {t}
  {
    hide Reached;
  }

  lemma Popped(p: Program, from: Word, q: seq<Word>, r: Reg)
    requires AllReached(p, from, q, r) && q != []
    ensures AllReached(p, from, q[..|q| - 1], r) && Reached(p, from, q[|q| - 1], r)
    ensures Elements(q) == Elements(q[..|q| - 1]) + {q[|q| - 1]}
  {
    hide Reached;
    assert q == q[..|q| - 1] + [q[|q| - 1]];
  }

  // ---- the walk ----

  datatype PathEnd = Stopped(answer: Answer) | Done

  /** How a path ended, the starts then queued and the budget left. */
  datatype Path = Path(end: PathEnd, queue: seq<Word>, budget: nat)

  /** One path from `a` to a write of `rd` or to the jump that ends it. */
  function PathFrom(p: Program, rd: Reg, a: Word, queue: seq<Word>, budget: nat): (r: Path)
    ensures r.end.Done? ==> r.budget < budget
    ensures |queue| <= LIVE_PATHS ==> |r.queue| <= LIVE_PATHS
    decreases budget
  {
    if budget == 0 || a !in p.code then Path(Stopped(Unknown), queue, budget)
    else
      var d, t := p.code[a], RelativeTarget(p.code[a].insn, a);
      if rd in Reads(d.insn) then Path(Stopped(Read), queue, budget - 1)
      else if rd in Writes(d.insn) then Path(Done, queue, budget - 1)
      else if IsCall(d.insn) || IsReturn(d.insn) || (IsUncond(d.insn) && t == 0)
          || (t != 0 && |queue| >= LIVE_PATHS) then
        Path(Stopped(Unknown), queue, budget - 1)
      else
        var more := if t != 0 then queue + [t] else queue;
        if IsUncond(d.insn) then Path(Done, more, budget - 1) else PathFrom(p, rd, Wrap(a + d.len), more, budget - 1)
  }

  /** The paths queued, the latest first, none twice. */
  function WalkFrom(p: Program, rd: Reg, queue: seq<Word>, seen: seq<Word>, budget: nat): Answer
    decreases budget, |queue|
  {
    if queue == [] then Dead
    else
      var at, rest := queue[|queue| - 1], queue[..|queue| - 1];
      if at in seen then WalkFrom(p, rd, rest, seen, budget)
      else if |seen| >= LIVE_PATHS || at < p.vaddr || at >= p.vaddr + p.size then Unknown
      else
        var r := PathFrom(p, rd, at, rest, budget);
        if r.end.Stopped? then r.end.answer else WalkFrom(p, rd, r.queue, seen + [at], r.budget)
  }

  function WalkAnswer(p: Program, addr: Word, rd: Reg): Answer {
    WalkFrom(p, rd, [addr], [], LIVE_BUDGET)
  }

  /** Everything walked is closed up to what is queued and where the path stands,
      and all of it can be reached. */
  ghost predicate Walked(p: Program, addr: Word, rd: Reg, done: set<Word>, rest: seq<Word>, more: set<Word>) {
    && AllReached(p, addr, rest, rd) && OnlyReached(p, addr, more, rd) && OnlyReached(p, addr, done, rd)
    && WalkClosed(p, done, Elements(rest) + more, rd)
  }

  /** A target queued. */
  lemma Queued(p: Program, addr: Word, rd: Reg, queue: seq<Word>, a: Word, done: set<Word>)
    requires WellFormed(p) && a in p.code && Walked(p, addr, rd, done, queue, {a})
    requires rd !in Reads(p.code[a].insn) && rd !in Writes(p.code[a].insn) && !IsCall(p.code[a].insn)
    requires IsUncond(p.code[a].insn) ==> RelativeTarget(p.code[a].insn, a) != 0
    ensures var d, t := p.code[a], RelativeTarget(p.code[a].insn, a);
            Walked(p, addr, rd, done + {a}, if t != 0 then queue + [t] else queue, if IsUncond(d.insn) then {}
                   else {Wrap(a + d.len)})
  {
    hide Reads, Writes, Succs, WalkSuccs, Passes, WalkClosed, AllReached, WellFormed, Elements, Reached;
    var d, t := p.code[a], RelativeTarget(p.code[a].insn, a);
    var next := Wrap(a + d.len);
    assert Reached(p, addr, a, rd);
    WalkedSuccs(p, a, rd);
    var queue' := if t != 0 then queue + [t] else queue;
    if t != 0 {
      ReachedOn(p, addr, a, t, rd);
      Pushed(p, addr, queue, t, rd);
    }
    var more := if IsUncond(d.insn) then {} else {next};
    if !IsUncond(d.insn) { ReachedOn(p, addr, a, next, rd); }
    var all := (if t != 0 then {t} else {}) + more;
    WalkGrows(p, done, a, Elements(queue), all, rd);
    assert Elements(queue) + all == Elements(queue') + more;
  }

  /** What a path adds. */
  lemma {:induction false} PathSound(p: Program, addr: Word, rd: Reg, a: Word, queue: seq<Word>, budget: nat,
                                     done: set<Word>)
    returns (done': set<Word>)
    requires WellFormed(p) && Walked(p, addr, rd, done, queue, {a})
    ensures var r := PathFrom(p, rd, a, queue, budget);
            && (r.end == Stopped(Read) ==> ReadReachable(p, addr, rd)) && r.end != Stopped(Dead)
            && (r.end.Done? ==> Walked(p, addr, rd, done', r.queue, {}) && done + {a} <= done')
    decreases budget
  {
    hide Reads, Writes, Succs, WalkSuccs, Passes, WalkClosed, AllReached, WellFormed, Elements, Reached;
    done' := done + {a};
    if budget > 0 && a in p.code {
      var d, t := p.code[a], RelativeTarget(p.code[a].insn, a);
      if rd in Reads(d.insn) {
        ReadHere(p, addr, a, rd);
      } else if rd in Writes(d.insn) {
        WalkGrows(p, done, a, Elements(queue), {}, rd);
      } else if IsCall(d.insn) || IsReturn(d.insn) || (IsUncond(d.insn) && t == 0)
        || (t != 0 && |queue| >= LIVE_PATHS) {
      } else {
        Queued(p, addr, rd, queue, a, done);
        if !IsUncond(d.insn) {
          done' := PathSound(p, addr, rd, Wrap(a + d.len), if t != 0 then queue + [t] else queue, budget - 1,
                             done + {a});
        }
      }
    }
  }

  lemma ReadHere(p: Program, addr: Word, a: Word, rd: Reg)
    requires Reached(p, addr, a, rd) && a in p.code && rd in Reads(p.code[a].insn)
    ensures ReadReachable(p, addr, rd)
  {
    hide Reads, Passes, Succs;
  }

  /** The invariant of the worklist, to its answer. */
  lemma {:induction false} WalkSound(p: Program, addr: Word, rd: Reg, queue: seq<Word>, seen: seq<Word>, budget: nat,
                                     done: set<Word>)
    requires WellFormed(p) && Walked(p, addr, rd, done, queue, {})
    requires (forall a :: a in seen ==> a in done) && (addr in done || (queue == [addr] && seen == []))
    ensures var answer := WalkFrom(p, rd, queue, seen, budget);
            && (answer == Dead ==> FoundClosed(p, addr, rd))
            && (answer == Read ==> ReadReachable(p, addr, rd))
    decreases budget, |queue|
  {
    hide WellFormed, WalkClosed, AllReached, Elements, Reached, PathFrom, ReadReachable;
    if queue == [] {
      EmptyQueue();
      assert Elements([]) + {} == {} && queue == [];
      assert addr in done && WalkClosed(p, done, {}, rd);
    } else {
      var at, rest := queue[|queue| - 1], queue[..|queue| - 1];
      Popped(p, addr, queue, rd);
      assert Elements(queue) + {} == Elements(rest) + {at};
      if at in seen {
        Absorb(p, done, at, Elements(rest), rd);
        assert Elements(rest) + {} == Elements(rest);
        WalkSound(p, addr, rd, rest, seen, budget, done);
      } else if |seen| >= LIVE_PATHS || at < p.vaddr || at >= p.vaddr + p.size {
      } else {
        var done' := PathSound(p, addr, rd, at, rest, budget, done);
        var r := PathFrom(p, rd, at, rest, budget);
        if r.end.Done? {
          WalkSound(p, addr, rd, r.queue, seen + [at], r.budget, done');
        }
      }
    }
  }

  /** DEAD is answered only where what was walked is closed and all of it reached, READ
      only where a read can be reached. */
  lemma WalkAnswers(p: Program, addr: Word, rd: Reg)
    requires WellFormed(p)
    ensures WalkAnswer(p, addr, rd) == Dead ==> FoundClosed(p, addr, rd)
    ensures WalkAnswer(p, addr, rd) == Read ==> ReadReachable(p, addr, rd)
  {
    hide WellFormed, WalkClosed, WalkFrom, ReadReachable;
    StartOfWalk(p, addr, rd);
    assert Elements([addr]) + {} == Elements([addr]);
    WalkSound(p, addr, rd, [addr], [], LIVE_BUDGET, {});
  }

  /** Follows one path, queueing the targets it passes. */
  method WalkPath(p: Program, rd: Reg, at: Word, queue: array<Word>, nq0: nat, budget0: nat)
    returns (end: PathEnd, nq: nat, budget: nat)
    requires queue.Length == LIVE_PATHS && nq0 < LIVE_PATHS
    modifies queue
    ensures nq <= LIVE_PATHS && Path(end, queue[..nq], budget) == PathFrom(p, rd, at, old(queue[..nq0]), budget0)
  {
    hide Reads, Writes;
    nq, budget := nq0, budget0;
    var a: Word := at;
    while true
      invariant nq <= LIVE_PATHS
      invariant PathFrom(p, rd, a, queue[..nq], budget) == PathFrom(p, rd, at, old(queue[..nq0]), budget0)
      decreases budget
    {
      if budget == 0 || a !in p.code { return Stopped(Unknown), nq, budget; }
      var d := p.code[a];
      if rd in Reads(d.insn) { return Stopped(Read), nq, budget - 1; }
      if rd in Writes(d.insn) { return Done, nq, budget - 1; }
      if IsCall(d.insn) || IsReturn(d.insn) { return Stopped(Unknown), nq, budget - 1; }
      var t := RelativeTarget(d.insn, a);
      if IsUncond(d.insn) && t == 0 { return Stopped(Unknown), nq, budget - 1; }
      if t != 0 {
        if nq >= LIVE_PATHS { return Stopped(Unknown), nq, budget - 1; }
        ghost var was := queue[..nq];
        queue[nq] := t;
        nq := nq + 1;
        assert queue[..nq] == was + [t];
      }
      budget := budget - 1;
      if IsUncond(d.insn) { return Done, nq, budget; }
      a := Wrap(a + d.len);
    }
  }

  method Walk(p: Program, addr: Word, rd: Reg) returns (answer: Answer)
    requires WellFormed(p)
    ensures answer == WalkAnswer(p, addr, rd)
    ensures answer == Dead ==> FoundClosed(p, addr, rd)
    ensures answer == Read ==> ReadReachable(p, addr, rd)
  {
    hide WellFormed, WalkClosed, PathFrom, ReadReachable;
    WalkAnswers(p, addr, rd);
    var queue := new Word[LIVE_PATHS];
    var seen := new Word[LIVE_PATHS];
    var nq, nseen, budget := 0, 0, LIVE_BUDGET;
    queue[nq] := addr;
    nq := nq + 1;
    assert queue[..nq] == [addr] && seen[..nseen] == [];

    while nq > 0
      invariant 0 <= nq <= LIVE_PATHS && 0 <= nseen <= LIVE_PATHS
      invariant WalkFrom(p, rd, queue[..nq], seen[..nseen], budget) == WalkAnswer(p, addr, rd)
      decreases budget, nq
    {
      nq := nq - 1;
      var at := queue[nq];
      assert queue[..nq + 1][..nq] == queue[..nq];
      var dup := false;
      for i := 0 to nseen
        invariant dup <==> exists k :: 0 <= k < i && seen[k] == at
      {
        if seen[i] == at { dup := true; }
      }
      assert dup <==> at in seen[..nseen];
      if dup { continue; }
      if nseen >= LIVE_PATHS { return Unknown; }
      ghost var before := seen[..nseen];
      seen[nseen] := at;
      nseen := nseen + 1;
      assert seen[..nseen] == before + [at];
      if at < p.vaddr || at >= p.vaddr + p.size { return Unknown; }
      var end;
      end, nq, budget := WalkPath(p, rd, at, queue, nq, budget);
      if end.Stopped? { return end.answer; }
    }
    assert queue[..nq] == [];
    return Dead;
  }

  lemma StartOfWalk(p: Program, addr: Word, r: Reg)
    ensures AllReached(p, addr, [addr], r) && WalkClosed(p, {}, Elements([addr]), r)
  {
    assert Reaches(p, addr, addr, r, 0);
  }

  lemma Absorb(p: Program, s: set<Word>, at: Word, rest: set<Word>, r: Reg)
    requires WalkClosed(p, s, rest + {at}, r) && at in s
    ensures WalkClosed(p, s, rest, r)
  {
    hide Kills, Passes, WalkSuccs;
    assert s + (rest + {at}) == s + rest;
  }

  lemma EmptyQueue()
    ensures Elements([]) == {}
  {
  }

  // ---- what DEAD means ----

  /** The walk follows every successor of `a` unless `a` branches to address 0. */
  lemma WalkMissesOnlyZero(p: Program, a: Word)
    requires WellFormed(p) && a in p.code && !IsCall(p.code[a].insn) && !IsIndirect(p.code[a].insn)
    ensures Succs(p, a) <= WalkSuccs(p, a) <==>
            !(p.code[a].insn.Branch? && Wrap(a + p.code[a].insn.off) == 0)
  {
    var d := p.code[a];
    assert Wrap(a + d.len) == a + d.len;
  }

  /** Where control goes from an instruction that is no indirect jump. */
  lemma NextIsSucc(p: Program, s: State)
    requires WellFormed(p) && s.pc in p.code && !IsIndirect(p.code[s.pc].insn)
    ensures NextPc(p.code[s.pc].insn, p.code[s.pc].len, s) in Succs(p, s.pc)
  {
    hide Effect, Taken;
  }

  /** No conditional branch of the walk goes to address 0, which the walk takes
      for the absence of a target. */
  ghost predicate NoBranchToZero(p: Program, s: set<Word>) {
    forall a :: a in s && a in p.code && p.code[a].insn.Branch? ==> Wrap(a + p.code[a].insn.off) != 0
  }

  /** What the walk covered is closed under the machine's control flow exactly
      when none of the branches it passed goes to an address 0 it left out. */
  lemma WalkIsClosed(p: Program, s: set<Word>, r: Reg)
    requires WellFormed(p) && WalkClosed(p, s, {}, r)
    ensures Closed(p, s, r) <==>
            forall a :: a in s && Passes(p, a, r) && p.code[a].insn.Branch? && Wrap(a + p.code[a].insn.off) == 0 ==>
              0 as Word in s
    ensures NoBranchToZero(p, s) ==> Closed(p, s, r)
  {
    hide Reads, Writes;
    assert s + {} == s;
    forall a | a in s && Passes(p, a, r)
      ensures Succs(p, a) <= s <==> (p.code[a].insn.Branch? && Wrap(a + p.code[a].insn.off) == 0 ==> 0 as Word in s)
    {
      WalkMissesOnlyZero(p, a);
      assert Succs(p, a) <= WalkSuccs(p, a) + {0};
    }
    assert forall a :: Kills(p, a, r) ==> !Passes(p, a, r);
  }

  /** All that is reached from an address where the register is dead is in the set that
      shows it. */
  lemma {:induction false} ReachedWithin(p: Program, set0: set<Word>, from: Word, a: Word, r: Reg, n: nat)
    requires from in set0 && Closed(p, set0, r) && Reaches(p, from, a, r, n)
    ensures a in set0
    decreases n
  {
    hide Reads, Writes, Succs;
    if n > 0 {
      var b :| Reaches(p, from, b, r, n - 1) && Passes(p, b, r) && a in Succs(p, b);
      ReachedWithin(p, set0, from, b, r, n - 1);
    }
  }

  predicate BranchesToZero(p: Program, a: Word, r: Reg) {
    Passes(p, a, r) && p.code[a].insn.Branch? && Wrap(a + p.code[a].insn.off) == 0
  }

  /** Where the walk answered DEAD the register is dead exactly when it is dead at 0 too,
      if a branch walked goes there. */
  lemma DeadExactly(p: Program, addr: Word, s: set<Word>, r: Reg)
    requires WellFormed(p) && addr in s && WalkClosed(p, s, {}, r) && OnlyReached(p, addr, s, r)
    ensures DeadAt(p, addr, r) <==> forall a :: a in s && BranchesToZero(p, a, r) ==> DeadAt(p, 0, r)
  {
    hide Reads, Writes, WellFormed, Kills, Reaches;
    if DeadAt(p, addr, r) {
      var set0: set<Word> :| addr in set0 && Closed(p, set0, r);
      forall a | a in s && BranchesToZero(p, a, r) ensures DeadAt(p, 0, r) {
        var n: nat :| Reaches(p, addr, a, r, n);
        ReachedWithin(p, set0, addr, a, r, n);
        assert !Kills(p, a, r) by { PassesOrKills(p, a, r); }
        assert 0 as Word in set0;
      }
    }
    if forall a :: a in s && BranchesToZero(p, a, r) ==> DeadAt(p, 0, r) {
      if a :| a in s && BranchesToZero(p, a, r) {
        var zero: set<Word> :| 0 as Word in zero && Closed(p, zero, r);
        JoinClosed(p, s, zero, r);
      } else {
        WalkIsClosed(p, s, r);
      }
    }
  }

  /** If a branch to 0 is reached, the register is dead at 0 too. */
  ghost predicate ZeroSafe(p: Program, end: Word, r: Reg) {
    forall a :: Reached(p, end, a, r) && BranchesToZero(p, a, r) ==> DeadAt(p, 0, r)
  }

  /** Where DEAD is answered the register is dead exactly when that is so. */
  lemma AnsweredIsDead(p: Program, end: Word, r: Reg)
    requires WellFormed(p) && FoundClosed(p, end, r)
    ensures DeadAt(p, end, r) <==> ZeroSafe(p, end, r)
  {
    hide WellFormed, WalkClosed, Reaches, BranchesToZero, Succs;
    var s: set<Word> :| end in s && WalkClosed(p, s, {}, r) && OnlyReached(p, end, s, r);
    DeadExactly(p, end, s, r);
    if DeadAt(p, end, r) {
      var set0: set<Word> :| end in set0 && Closed(p, set0, r);
      forall a | Reached(p, end, a, r) && BranchesToZero(p, a, r) ensures DeadAt(p, 0, r) {
        var n: nat :| Reaches(p, end, a, r, n);
        ReachedWithin(p, set0, end, a, r, n);
        GoesToZero(p, set0, a, r);
      }
    }
  }

  lemma GoesToZero(p: Program, set0: set<Word>, a: Word, r: Reg)
    requires Closed(p, set0, r) && a in set0 && BranchesToZero(p, a, r)
    ensures DeadAt(p, 0, r)
  {
    hide Reads, Writes;
    assert 0 as Word in set0;
  }

  /** It is where no conditional branch of the program goes to 0. */
  lemma NoneGoesThere(p: Program, end: Word, r: Reg)
    requires NoBranchToZero(p, p.code.Keys)
    ensures ZeroSafe(p, end, r)
  {
    hide Reached, Reads, Writes;
  }

  lemma PassesOrKills(p: Program, a: Word, r: Reg)
    ensures !(Passes(p, a, r) && Kills(p, a, r))
  {
  }

  lemma JoinClosed(p: Program, s: set<Word>, zero: set<Word>, r: Reg)
    requires WellFormed(p) && WalkClosed(p, s, {}, r) && Closed(p, zero, r) && 0 as Word in zero
    ensures Closed(p, s + zero, r)
  {
    hide Reads, Writes, Kills, WellFormed;
    forall a | a in s && Passes(p, a, r) && WalkSuccs(p, a) <= s ensures Succs(p, a) <= s + zero {
      WalkMissesOnlyZero(p, a);
      assert Succs(p, a) <= WalkSuccs(p, a) + {0};
    }
  }

  ghost predicate WrittenWithin(p: Program, s: State, r: Reg, n: nat) {
    exists k: nat :: k < n && WrittenAt(p, s, r, k)
  }

  ghost predicate WrittenAt(p: Program, s: State, r: Reg, k: nat) {
    var a := Run(p, s, k);
    Runs(p, a) && r in Writes(p.code[a.pc].insn)
  }

  /** Inside a closed set one step is the same from two states that differ in `r`. */
  lemma StepIgnoresDead(p: Program, set0: set<Word>, r: Reg, s: State, v: Word)
    requires WellFormed(p) && Closed(p, set0, r) && s.pc in set0 && r != 0
    ensures Runs(p, s) && r in Writes(p.code[s.pc].insn) ==> Step(p, SetX(s, r, v)) == Step(p, s)
    ensures Runs(p, s) && r !in Writes(p.code[s.pc].insn) ==>
              Step(p, SetX(s, r, v)) == SetX(Step(p, s), r, v) && X(Step(p, s), r) == X(s, r) && Step(p, s).pc in set0
    ensures !Runs(p, s) ==> Step(p, s) == s && Step(p, SetX(s, r, v)) == SetX(s, r, v)
    ensures Runs(p, SetX(s, r, v)) == Runs(p, s)
  {
    hide Effect, NextPc, Writes, Reads, SrcReads, XRegs, FRegs;
    if !IsIndirect(p.code[s.pc].insn) {
      NextIsSucc(p, s);
    }
    var d := p.code[s.pc];
    EffectIgnores(d.insn, d.len, s, r, v);
    EffectKeeps(d.insn, d.len, s, r);
  }

  lemma WrittenNow(p: Program, s: State, r: Reg, k: nat)
    ensures WrittenAt(p, s, r, k) <==> Runs(p, Run(p, s, k)) && r in Writes(p.code[Run(p, s, k).pc].insn)
  {
    hide Writes, Step;
  }

  /** Two runs from an address where `r` is dead, started on states that differ
      in `r` alone, go in lock step: they differ in `r` alone while nothing has
      written it, and are the same state from the first write on. */
  lemma {:induction false} DeadRunsAgree(p: Program, set0: set<Word>, r: Reg, s: State, v: Word, n: nat)
    requires WellFormed(p) && Closed(p, set0, r) && s.pc in set0 && r != 0
    ensures WrittenWithin(p, s, r, n) ==> Run(p, SetX(s, r, v), n) == Run(p, s, n)
    ensures !WrittenWithin(p, s, r, n) ==>
              && Run(p, SetX(s, r, v), n) == SetX(Run(p, s, n), r, v)
              && X(Run(p, s, n), r) == X(s, r)
              && (Run(p, s, n).pc in set0)
  {
    hide Closed, WellFormed, Step, Writes, WrittenAt;
    if n > 0 {
      DeadRunsAgree(p, set0, r, s, v, n - 1);
      var a := Run(p, s, n - 1);
      if WrittenWithin(p, s, r, n - 1) {
        assert WrittenWithin(p, s, r, n);
      } else {
        StepIgnoresDead(p, set0, r, a, v);
        WrittenNow(p, s, r, n - 1);
        if WrittenAt(p, s, r, n - 1) {
          assert WrittenWithin(p, s, r, n);
        } else {
          assert !WrittenWithin(p, s, r, n);
        }
      }
    }
  }

  /** What a DEAD answer promises: whatever the register holds, the rest of the
      run is the same but for that register, and the same outright once some
      instruction has written it. */
  lemma DeadIsInvisible(p: Program, r: Reg, s: State, v: Word, n: nat)
    requires WellFormed(p) && r != 0 && DeadAt(p, s.pc, r)
    ensures var a, b := Run(p, s, n), Run(p, SetX(s, r, v), n);
            if WrittenWithin(p, s, r, n) then b == a else b == SetX(a, r, v) && X(a, r) == X(s, r)
  {
    var set0: set<Word> :| s.pc in set0 && Closed(p, set0, r);
    DeadRunsAgree(p, set0, r, s, v, n);
  }

  // ---- the branch the walk misses ----

  /** mv a1,a0 at 0; beq zero,zero,0 at 4; li a0,0 at 8. */
  function ZeroBranch(): Program {
    Program(0, 12, map[
      0 := Decoded(Alu(Add, 11, 10, R(0)), 4, {10, 11}),
      4 := Decoded(Branch(Beq, 0, 0, -4), 4, {}),
      8 := Decoded(Alu(Add, 10, 0, K(0)), 4, {10})], {})
  }

  lemma ZeroBranchSteps(s: State)
    requires s.pc == 4
    ensures Run(ZeroBranch(), s, 1) == s.(pc := 0)
    ensures X(Run(ZeroBranch(), s, 2), 11) == X(s, 10)
  {
    var p := ZeroBranch();
    assert Runs(p, s) && NextPc(p.code[4].insn, 4, s) == 0;
    assert Run(p, s, 0) == s;
    var t := Run(p, s, 1);
    assert t == s.(pc := 0);
    MoveStep(p, t);
    assert Run(p, s, 2) == Step(p, t);
  }

  lemma MoveStep(p: Program, t: State)
    requires t.pc == 0 && p == ZeroBranch()
    ensures X(Step(p, t), 11) == X(t, 10)
  {
    assert Runs(p, t);
    assert XResult(p.code[0].insn, 4, t) == X(t, 10);
  }

  lemma ZeroBranchPath()
    ensures PathFrom(ZeroBranch(), 10, 4, [], LIVE_BUDGET).end == Done
    ensures PathFrom(ZeroBranch(), 10, 4, [], LIVE_BUDGET).queue == []
  {
    var p := ZeroBranch();
    assert RelativeTarget(p.code[4].insn, 4) == 0;
    assert PathFrom(p, 10, 4, [], LIVE_BUDGET) == PathFrom(p, 10, 8, [], LIVE_BUDGET - 1);
  }

  lemma ZeroBranchAnswer()
    ensures WalkAnswer(ZeroBranch(), 4, 10) == Dead
  {
    ZeroBranchPath();
    var p := ZeroBranch();
    var r := PathFrom(p, 10, 4, [], LIVE_BUDGET);
    hide PathFrom;
    assert WalkFrom(p, 10, [4], [], LIVE_BUDGET) == WalkFrom(p, 10, r.queue, [4], r.budget);
  }

  lemma ReadAtZero()
    ensures !DeadAt(ZeroBranch(), 4, 10)
  {
  }

  lemma ZeroBranchPlaced()
    ensures WellFormed(ZeroBranch())
  {
  }

  /** The walk from the branch answers that a0 is DEAD, yet the branch reaches the mv and
      two states that differ in a0 come to differ in a1. */
  lemma BranchToZeroIsMissed(s: State)
    requires s.pc == 4
    ensures WellFormed(ZeroBranch()) && WalkAnswer(ZeroBranch(), 4, 10) == Dead && !DeadAt(ZeroBranch(), 4, 10)
    ensures X(Run(ZeroBranch(), SetX(s, 10, 7), 2), 11) == 7
    ensures X(Run(ZeroBranch(), SetX(s, 10, 8), 2), 11) == 8
  {
    hide Run, Step, WalkAnswer, DeadAt, WellFormed, ZeroBranch;
    ZeroBranchSteps(SetX(s, 10, 7));
    ZeroBranchSteps(SetX(s, 10, 8));
    ZeroBranchAnswer();
    ReadAtZero();
    ZeroBranchPlaced();
  }
}
