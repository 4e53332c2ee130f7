/** When the liveness walk decides: within its 16 starts, its queue of 16 and its 96
    instructions, and short of anything it will not follow, it answers DEAD or READ
    and never gives up. */
module WalkLimits {
  import opened Words
  import opened Machine
  import opened Liveness

  // ---- what the limits are measured on ----

  /** The straight line from `a`: up to an instruction that names `r`, a jump that always
      goes, or the end of the code. */
  function Line(p: Program, a: Word, r: Reg): (line: seq<Word>)
    ensures |line| >= 1 && line[0] == a
    decreases W64 - a
  {
    if a !in p.code || r in Reads(p.code[a].insn) || r in Writes(p.code[a].insn) || IsUncond(p.code[a].insn)
       || p.code[a].len == 0 || a + p.code[a].len >= W64
    then [a]
    else [a] + Line(p, a + p.code[a].len, r)
  }

  /** Control may go elsewhere from `a`, `r` not named there. */
  predicate Leads(p: Program, a: Word, r: Reg) {
    && a in p.code && r !in Reads(p.code[a].insn) && r !in Writes(p.code[a].insn)
    && RelativeTarget(p.code[a].insn, a) != 0
  }

  /** How many of the addresses lead elsewhere. */
  function Leading(p: Program, line: seq<Word>, r: Reg): nat {
    if line == [] then 0 else (if Leads(p, line[0], r) then 1 else 0) + Leading(p, line[1..], r)
  }

  /** How many instructions the lines from the starts have. */
  function Instructions(p: Program, starts: seq<Word>, r: Reg): nat {
    if starts == [] then 0
    else Instructions(p, starts[..|starts| - 1], r) + |Line(p, starts[|starts| - 1], r)|
  }

  /** How many targets they have to be kept waiting, one a line being gone on with at
      once. */
  function Waiting(p: Program, starts: seq<Word>, r: Reg): nat {
    if starts == [] then 0
    else
      var n := Leading(p, Line(p, starts[|starts| - 1], r), r);
      Waiting(p, starts[..|starts| - 1], r) + if n == 0 then 0 else n - 1
  }

  predicate Distinct(starts: seq<Word>) {
    forall j, k :: 0 <= j < k < |starts| ==> starts[j] != starts[k]
  }

  predicate Fits(p: Program, starts: seq<Word>, r: Reg) {
    && |starts| <= 16 && Instructions(p, starts, r) <= 96 && 1 + Waiting(p, starts, r) <= 16
  }

  // ---- what the walk does not follow ----

  /** Nothing the walk can go on from: no instruction, a call, a return or another indirect
      jump, or a jump to 0. */
  predicate Stops(p: Program, a: Word, r: Reg) {
    a !in p.code ||
    var i := p.code[a].insn;
    && r !in Reads(i) && r !in Writes(i)
    && (IsCall(i) || IsIndirect(i) || (i.Jal? && RelativeTarget(i, a) == 0))
  }

  ghost predicate StopReached(p: Program, addr: Word, r: Reg) {
    exists a :: Reached(p, addr, a, r) && Stops(p, a, r)
  }

  /** `a` is where the walk begins or where a transfer it reaches goes. */
  ghost predicate IsStart(p: Program, addr: Word, a: Word, r: Reg) {
    a == addr || exists b :: GoesFrom(p, addr, b, a, r)
  }

  ghost predicate GoesFrom(p: Program, addr: Word, b: Word, a: Word, r: Reg) {
    Reached(p, addr, b, r) && Passes(p, b, r) && Leads(p, b, r) && RelativeTarget(p.code[b].insn, b) == a
  }

  ghost predicate AllStarts(p: Program, addr: Word, starts: seq<Word>, r: Reg) {
    forall k :: 0 <= k < |starts| ==> IsStart(p, addr, starts[k], r)
  }

  lemma StartReached(p: Program, addr: Word, a: Word, r: Reg)
    requires IsStart(p, addr, a, r)
    ensures Reached(p, addr, a, r)
  {
    hide Reads, Writes, Passes;
    if a == addr {
      assert Reaches(p, addr, addr, r, 0);
    } else {
      var b :| GoesFrom(p, addr, b, a, r);
      LeadsOn(p, b, r);
      ReachedOn(p, addr, b, a, r);
    }
  }

  lemma LeadsOn(p: Program, b: Word, r: Reg)
    requires Leads(p, b, r)
    ensures RelativeTarget(p.code[b].insn, b) in Succs(p, b)
  {
    hide Reads, Writes;
  }

  // ---- one path ----

  /** A path from `a` has walked the whole line from there, or met what stops it, or run
      out of one of the two. */
  ghost predicate PathWithin(p: Program, addr: Word, a: Word, queue: seq<Word>, budget: nat, rd: Reg, r: Path) {
    var line := Line(p, a, rd);
    && (r.end.Done? ==>
          && r.budget + |line| == budget && |r.queue| == |queue| + Leading(p, line, rd)
             && AllStarts(p, addr, r.queue, rd))
    && (r.end == Stopped(Unknown) ==>
          StopReached(p, addr, rd) || budget < |line| || |queue| + Leading(p, line, rd) > 16)
  }

  lemma {:induction false} PathMeasured(p: Program, addr: Word, rd: Reg, a: Word, queue: seq<Word>, budget: nat)
    requires WellFormed(p) && Reached(p, addr, a, rd) && AllStarts(p, addr, queue, rd)
    ensures PathWithin(p, addr, a, queue, budget, rd, PathFrom(p, rd, a, queue, budget))
    decreases budget
  {
    hide WellFormed, Reached, Reads, Writes, AllStarts, Line, Leading, PathWithin, StopReached;
    var r := PathFrom(p, rd, a, queue, budget);
    if a !in p.code {
      StoppedHere(p, addr, rd, a, queue, budget, r);
    } else if budget == 0 {
      assert PathWithin(p, addr, a, queue, budget, rd, r) by { NoBudget(p, addr, rd, a, queue, r); }
    } else {
      var d, t := p.code[a], RelativeTarget(p.code[a].insn, a);
      if rd in Reads(d.insn) {
        ReadEnds(p, addr, rd, a, queue, budget, r);
      } else if rd in Writes(d.insn) {
        EndsHere(p, addr, rd, a, queue, queue, budget, r);
      } else if IsCall(d.insn) || IsReturn(d.insn) || (IsUncond(d.insn) && t == 0) {
        StoppedHere(p, addr, rd, a, queue, budget, r);
      } else if t != 0 && |queue| >= LIVE_PATHS {
        QueueFull(p, addr, rd, a, queue, budget, r);
      } else {
        GoesOn(p, addr, rd, a, queue);
        var more := if t != 0 then queue + [t] else queue;
        if IsUncond(d.insn) {
          EndsHere(p, addr, rd, a, queue, more, budget, r);
        } else {
          var next := a + d.len;
          LineOn(p, a, rd);
          WrapOfWord(next);
          PathMeasured(p, addr, rd, next, more, budget - 1);
          OneFurther(p, addr, rd, a, next, queue, more, budget, r);
        }
      }
    }
  }

  lemma NoBudget(p: Program, addr: Word, rd: Reg, a: Word, queue: seq<Word>, r: Path)
    requires r == Path(Stopped(Unknown), queue, 0)
    ensures PathWithin(p, addr, a, queue, 0, rd, r)
  {
  }

  lemma ReadEnds(p: Program, addr: Word, rd: Reg, a: Word, queue: seq<Word>, budget: nat, r: Path)
    requires r.end == Stopped(Read)
    ensures PathWithin(p, addr, a, queue, budget, rd, r)
  {
  }

  lemma StoppedHere(p: Program, addr: Word, rd: Reg, a: Word, queue: seq<Word>, budget: nat, r: Path)
    requires r.end == Stopped(Unknown) && Reached(p, addr, a, rd) && Stops(p, a, rd)
    ensures PathWithin(p, addr, a, queue, budget, rd, r)
  {
    hide Reached, Stops, Line;
  }

  lemma QueueFull(p: Program, addr: Word, rd: Reg, a: Word, queue: seq<Word>, budget: nat, r: Path)
    requires r.end == Stopped(Unknown) && Leads(p, a, rd) && |queue| >= 16
    ensures PathWithin(p, addr, a, queue, budget, rd, r)
  {
    hide StopReached, Line, Leading, Leads;
    LeadingFirst(p, a, rd);
  }

  lemma EndsHere(p: Program, addr: Word, rd: Reg, a: Word, queue: seq<Word>, more: seq<Word>, budget: nat, r: Path)
    requires a in p.code && budget > 0 && r == Path(Done, more, budget - 1) && rd !in Reads(p.code[a].insn)
    requires rd in Writes(p.code[a].insn) || IsUncond(p.code[a].insn)
    requires AllStarts(p, addr, more, rd) && |more| == |queue| + if Leads(p, a, rd) then 1 else 0
    ensures PathWithin(p, addr, a, queue, budget, rd, r)
  {
    hide Reads, Writes, AllStarts, Leads, Leading;
    LineEnds(p, a, rd);
  }

  lemma OneFurther(p: Program, addr: Word, rd: Reg, a: Word, next: Word, queue: seq<Word>, more: seq<Word>,
                   budget: nat, r: Path)
    requires budget > 0 && PathWithin(p, addr, next, more, budget - 1, rd, r)
    requires Line(p, a, rd) == [a] + Line(p, next, rd)
    requires Leading(p, Line(p, a, rd), rd) == Leading(p, [a], rd) + Leading(p, Line(p, next, rd), rd)
    requires |more| == |queue| + Leading(p, [a], rd)
    ensures PathWithin(p, addr, a, queue, budget, rd, r)
  {
    hide AllStarts, Leading, Line, StopReached;
  }

  lemma LineEnds(p: Program, a: Word, r: Reg)
    requires a in p.code && (r in Writes(p.code[a].insn) || r in Reads(p.code[a].insn) || IsUncond(p.code[a].insn))
    ensures Line(p, a, r) == [a] && Leading(p, [a], r) == if Leads(p, a, r) then 1 else 0
    ensures r in Writes(p.code[a].insn) ==> !Leads(p, a, r)
  {
    hide Reads, Writes;
  }

  lemma LeadingFirst(p: Program, a: Word, r: Reg)
    ensures Leading(p, Line(p, a, r), r) >= if Leads(p, a, r) then 1 else 0
  {
    hide Reads, Writes, Leads;
  }

  /** A path goes on from `a`, its target queued. */
  lemma GoesOn(p: Program, addr: Word, rd: Reg, a: Word, queue: seq<Word>)
    requires WellFormed(p) && a in p.code && Reached(p, addr, a, rd) && AllStarts(p, addr, queue, rd)
    requires rd !in Reads(p.code[a].insn) && rd !in Writes(p.code[a].insn) && !IsCall(p.code[a].insn)
    requires IsUncond(p.code[a].insn) ==> RelativeTarget(p.code[a].insn, a) != 0
    ensures var d, t := p.code[a], RelativeTarget(p.code[a].insn, a);
            && (t != 0 ==> AllStarts(p, addr, queue + [t], rd))
            && (!IsUncond(d.insn) ==> Reached(p, addr, Wrap(a + d.len), rd))
            && Leading(p, [a], rd) == if t != 0 then 1 else 0
  {
    hide Reads, Writes, Reached, WellFormed;
    WalkedSuccs(p, a, rd);
    var d, t := p.code[a], RelativeTarget(p.code[a].insn, a);
    if t != 0 {
      assert Leads(p, a, rd);
      assert GoesFrom(p, addr, a, t, rd);
    }
    if !IsUncond(d.insn) { ReachedOn(p, addr, a, Wrap(a + d.len), rd); }
  }

  lemma LineOn(p: Program, a: Word, r: Reg)
    requires WellFormed(p) && a in p.code && r !in Reads(p.code[a].insn) && r !in Writes(p.code[a].insn)
    requires !IsUncond(p.code[a].insn)
    ensures a + p.code[a].len < W64 && Line(p, a, r) == [a] + Line(p, a + p.code[a].len, r)
    ensures Leading(p, Line(p, a, r), r) == Leading(p, [a], r) + Leading(p, Line(p, a + p.code[a].len, r), r)
  {
    Placed(p, a);
    hide Reads, Writes, WellFormed, Leads, IsUncond;
    var rest := Line(p, a + p.code[a].len, r);
    assert ([a] + rest)[1..] == rest && [a][1..] == [];
  }

  // ---- the worklist ----

  /** The starts there are go over one of the limits. */
  ghost predicate TooMany(p: Program, addr: Word, r: Reg) {
    exists starts :: AllStarts(p, addr, starts, r) && Distinct(starts) && !Fits(p, starts, r)
  }

  lemma OneMoreStart(p: Program, seen: seq<Word>, at: Word, r: Reg)
    ensures Instructions(p, seen + [at], r) == Instructions(p, seen, r) + |Line(p, at, r)|
    ensures var n := Leading(p, Line(p, at, r), r);
            Waiting(p, seen + [at], r) == Waiting(p, seen, r) + if n == 0 then 0 else n - 1
  {
    hide Line, Leading;
    assert (seen + [at])[..|seen|] == seen;
  }

  /** The walk gives up only at a limit or at what it will not follow. */
  lemma {:induction false} WalkMeasured(p: Program, addr: Word, rd: Reg, queue: seq<Word>, seen: seq<Word>, budget: nat)
    requires WellFormed(p) && AllStarts(p, addr, queue, rd) && AllStarts(p, addr, seen, rd) && Distinct(seen)
    requires |seen| <= 16 && budget + Instructions(p, seen, rd) == 96 && |queue| <= 1 + Waiting(p, seen, rd)
    ensures WalkFrom(p, rd, queue, seen, budget) == Unknown ==> StopReached(p, addr, rd) || TooMany(p, addr, rd)
    decreases budget, |queue|
  {
    hide WellFormed, IsStart, PathFrom, Line, Leading, Instructions, Waiting, TooMany, StopReached;
    if queue != [] {
      var at, rest := queue[|queue| - 1], queue[..|queue| - 1];
      assert IsStart(p, addr, at, rd);
      if at in seen {
        WalkMeasured(p, addr, rd, rest, seen, budget);
      } else {
        var starts := seen + [at];
        assert AllStarts(p, addr, starts, rd) && Distinct(starts);
        StartReached(p, addr, at, rd);
        OneMoreStart(p, seen, at, rd);
        Over(p, addr, starts, rd);
        if at < p.vaddr || at >= p.vaddr + p.size {
          OutsideStops(p, addr, at, rd);
        } else if |seen| < LIVE_PATHS {
          PathMeasured(p, addr, rd, at, rest, budget);
          var r := PathFrom(p, rd, at, rest, budget);
          if r.end.Done? { WalkMeasured(p, addr, rd, r.queue, starts, r.budget); }
        }
      }
    }
  }

  lemma Over(p: Program, addr: Word, starts: seq<Word>, r: Reg)
    requires AllStarts(p, addr, starts, r) && Distinct(starts)
    ensures |starts| > 16 || Instructions(p, starts, r) > 96 || 1 + Waiting(p, starts, r) > 16 ==> TooMany(p, addr, r)
  {
    hide IsStart, Instructions, Waiting;
    assert |starts| > 16 || Instructions(p, starts, r) > 96 || 1 + Waiting(p, starts, r) > 16 ==> !Fits(p, starts, r);
  }

  lemma OutsideStops(p: Program, addr: Word, at: Word, r: Reg)
    requires WellFormed(p) && Reached(p, addr, at, r) && (at < p.vaddr || at >= p.vaddr + p.size)
    ensures StopReached(p, addr, r)
  {
    hide WellFormed, Reached, Reads, Writes;
    if at in p.code { Placed(p, at); }
    assert Stops(p, at, r);
  }

  /** What UNKNOWN means: something is reached that the walk does not follow, or there are
      starts that go over a limit. */
  lemma UnknownMeans(p: Program, addr: Word, r: Reg)
    requires WellFormed(p)
    ensures WalkAnswer(p, addr, r) == Unknown ==> StopReached(p, addr, r) || TooMany(p, addr, r)
  {
    hide WellFormed, WalkFrom, TooMany, StopReached;
    assert AllStarts(p, addr, [addr], r);
    WalkMeasured(p, addr, r, [addr], [], LIVE_BUDGET);
  }

  // ---- within the limits ----

  /** Among the starts are the address asked about and wherever a transfer reached goes. */
  ghost predicate Covers(p: Program, addr: Word, starts: seq<Word>, r: Reg) {
    forall a :: IsStart(p, addr, a, r) ==> a in starts
  }

  function Without(s: seq<Word>, k: nat): seq<Word>
    requires k < |s|
  {
    s[..k] + s[k + 1..]
  }

  lemma {:induction false} SumsWithout(p: Program, s: seq<Word>, k: nat, r: Reg)
    requires k < |s|
    ensures Instructions(p, s, r) == Instructions(p, Without(s, k), r) + Instructions(p, [s[k]], r)
    ensures Waiting(p, s, r) == Waiting(p, Without(s, k), r) + Waiting(p, [s[k]], r)
    decreases |s|
  {
    hide Line, Leading;
    var n := |s| - 1;
    if k == n {
      assert Without(s, k) == s[..n];
      assert [s[k]][..0] == [];
    } else {
      SumsWithout(p, s[..n], k, r);
      var w := Without(s, k);
      assert w[..|w| - 1] == Without(s[..n], k) && w[|w| - 1] == s[n];
    }
  }

  lemma WithoutIs(s: seq<Word>, k: nat)
    requires k < |s| && Distinct(s)
    ensures Distinct(Without(s, k)) && forall a :: a in s && a != s[k] ==> a in Without(s, k)
  {
    forall a | a in s && a != s[k] ensures a in Without(s, k) {
      var j :| 0 <= j < |s| && s[j] == a;
      assert Without(s, k)[if j < k then j else j - 1] == a;
    }
  }

  /** Fewer starts are no more over the limits than more. */
  lemma {:induction false} FewerFit(p: Program, few: seq<Word>, many: seq<Word>, r: Reg)
    requires Distinct(few) && Distinct(many) && forall a :: a in few ==> a in many
    ensures |few| <= |many|
    ensures Instructions(p, few, r) <= Instructions(p, many, r) && Waiting(p, few, r) <= Waiting(p, many, r)
    decreases |few|
  {
    hide Line, Leading;
    if few != [] {
      var n := |few| - 1;
      assert few[n] in few;
      var k :| 0 <= k < |many| && many[k] == few[n];
      WithoutIs(many, k);
      FewerFit(p, few[..n], Without(many, k), r);
      SumsWithout(p, many, k, r);
      assert [many[k]][..0] == [];
    }
  }

  /** Where the starts reached are within the limits and nothing reached stops it, the walk
      answers: READ exactly where a read is reached, if no branch goes to 0. */
  lemma WalkDecides(p: Program, addr: Word, r: Reg, starts: seq<Word>)
    requires WellFormed(p) && !StopReached(p, addr, r)
    requires Distinct(starts) && Covers(p, addr, starts, r) && Fits(p, starts, r)
    ensures WalkAnswer(p, addr, r) != Unknown
    ensures ZeroSafe(p, addr, r) ==> WalkAnswer(p, addr, r) == if ReadReachable(p, addr, r) then Read else Dead
  {
    hide WellFormed, WalkAnswer, StopReached, IsStart, Line, Instructions, Waiting, FoundClosed, ReadReachable,
         ZeroSafe;
    UnknownMeans(p, addr, r);
    if TooMany(p, addr, r) {
      var many :| AllStarts(p, addr, many, r) && Distinct(many) && !Fits(p, many, r);
      FewerFit(p, many, starts, r);
    }
    WalkAnswers(p, addr, r);
    if WalkAnswer(p, addr, r) == Dead && ZeroSafe(p, addr, r) {
      AnsweredIsDead(p, addr, r);
      DeadReadsNothing(p, addr, r);
    }
  }

  lemma DeadReadsNothing(p: Program, addr: Word, r: Reg)
    requires DeadAt(p, addr, r)
    ensures !ReadReachable(p, addr, r)
  {
    hide Reads, Writes, Reaches;
    var set0: set<Word> :| addr in set0 && Closed(p, set0, r);
    forall n: nat, a | Reaches(p, addr, a, r, n) ensures !(a in p.code && r in Reads(p.code[a].insn)) {
      ReachedWithin(p, set0, addr, a, r, n);
    }
  }

  /** Over a closed set the register is DEAD: all that is asked is that no jump of it goes
      to 0, and that its transfers' targets keep within the limits. */
  lemma ClosedIsFound(p: Program, addr: Word, r: Reg, set0: set<Word>, starts: seq<Word>)
    requires WellFormed(p) && addr in set0 && Closed(p, set0, r)
    requires forall a :: a in set0 && Passes(p, a, r) && p.code[a].insn.Jal? ==> RelativeTarget(p.code[a].insn, a) != 0
    requires Distinct(starts) && addr in starts && Fits(p, starts, r)
    requires forall a :: a in set0 && Leads(p, a, r) ==> RelativeTarget(p.code[a].insn, a) in starts
    ensures WalkAnswer(p, addr, r) == Dead
  {
    hide WellFormed, WalkAnswer, Fits, Reads, Writes, Reaches, ReadReachable, Succs;
    forall a | Reached(p, addr, a, r) ensures a in set0 && !Stops(p, a, r) {
      var n: nat :| Reaches(p, addr, a, r, n);
      ReachedWithin(p, set0, addr, a, r, n);
    }
    forall a | IsStart(p, addr, a, r) ensures a in starts {
      if a != addr {
        var b :| GoesFrom(p, addr, b, a, r);
        assert Reached(p, addr, b, r);
      }
    }
    WalkDecides(p, addr, r, starts);
    DeadReadsNothing(p, addr, r);
    WalkAnswers(p, addr, r);
  }
}
