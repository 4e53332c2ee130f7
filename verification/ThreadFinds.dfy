/** Which jumps a transfer is sent past: all it can reach, one after another, while the
    registers they write are dead. */
module ThreadFinds {
  import opened Words
  import opened Wrappers
  import opened Machine
  import opened Sweep
  import opened Liveness
  import opened Threading

  /** The code at `at` goes to `hop.dest` and does nothing else but write `hop.wrote`. */
  ghost predicate JumpsTo(p: Program, at: Word, hop: Hop) {
    && at in p.code && Readable(p, at)
    && ((exists off: int :: NearJump(p.code[at], off) && hop == Hop(Wrap(at + off), 0))
        || (exists r: Reg, hi: int, lo: int ::
              FarJump(p, at, r, hi, lo) && hop == Hop(ClearBit0(Wrap(at + (hi + lo))), r)))
  }

  predicate NearJump(d: Decoded, off: int) {
    d.insn == Jal(0, off)
  }

  /** `auipc r,hi` and `jr lo(r)`. */
  predicate FarJump(p: Program, at: Word, r: Reg, hi: int, lo: int) {
    && at in p.code && p.code[at] == Decoded(Auipc(r, hi), 4, p.code[at].names) && r != 0
    && at + 4 in p.code && Readable(p, at + 4)
    && p.code[at + 4] == Decoded(Jalr(0, r, lo), 4, p.code[at + 4].names)
  }

  lemma JumpsIs(p: Program, at: Word, hop: Hop)
    requires WellFormed(p)
    ensures JumpAt(p, at) == Some(hop) <==> JumpsTo(p, at, hop)
  {
    hide WellFormed, ClearBit0, Wrap;
    if JumpAt(p, at) == Some(hop) {
      var i := p.code[at].insn;
      if i.Jal? {
        assert NearJump(p.code[at], i.off);
      } else {
        var b: Word := at + 4;
        assert FarJump(p, at, i.rd, i.imm, p.code[b].insn.imm);
      }
    }
  }

  /** The transfer can be sent `d` on in its own size. */
  predicate InReach(i: Insn, len: nat, d: int) {
    match i
    case Branch(c, rs1, rs2, _) =>
      && -4096 <= d <= 4094
      && (len == 2 ==> c in {Beq, Bne} && rs2 == 0 && 8 <= rs1 < 16 && -256 <= d < 256 && d % 2 == 0)
    case _ =>
      -0x10_0000 <= d < 0x10_0000 && d % 2 == 0 && (len == 2 ==> -2048 <= d < 2048)
  }

  lemma InReachIs(i: Insn, len: nat, d: int)
    requires i.Branch? || i.Jal?
    ensures Threading.Reaches(i, len, d) <==> InReach(i, len, d)
  {
  }

  /** Where control is once the jumps are behind it. */
  function Arrived(from: Word, hops: seq<Hop>): Word {
    if hops == [] then from else hops[|hops| - 1].dest
  }

  function Written(hops: seq<Hop>): set<Reg> {
    if hops == [] then {} else Written(hops[..|hops| - 1]) + NonZero(hops[|hops| - 1].wrote)
  }

  /** The jump after those of `hops` is one the transfer at `a` can be sent past: it goes
      elsewhere, within reach, and all that was written on the way is answered DEAD there. */
  ghost predicate Passable(p: Program, a: Word, from: Word, hops: seq<Hop>, hop: Hop)
    requires a in p.code
  {
    && JumpsTo(p, Arrived(from, hops), hop) && hop.dest != Arrived(from, hops)
    && InReach(p.code[a].insn, p.code[a].len, Signed(Wrap(hop.dest - a)))
    && forall r :: r in Written(hops + [hop]) ==> WalkAnswer(p, hop.dest, r) == Dead
  }

  ghost predicate AllPassable(p: Program, a: Word, from: Word, hops: seq<Hop>)
    requires a in p.code
  {
    forall k :: 0 <= k < |hops| ==> Passable(p, a, from, hops[..k], hops[k])
  }

  /** As many as can be passed, up to `most`. */
  ghost predicate AsFar(p: Program, a: Word, from: Word, hops: seq<Hop>, most: nat)
    requires a in p.code
  {
    AllPassable(p, a, from, hops) && |hops| <= most &&
    (|hops| == most || !exists hop :: Passable(p, a, from, hops, hop))
  }

  function At(from: Word, hops: seq<Hop>): Threaded {
    Threaded(Arrived(from, hops), |hops|, Written(hops))
  }

  lemma WrittenMore(hops: seq<Hop>, hop: Hop)
    ensures Written(hops + [hop]) == Written(hops) + NonZero(hop.wrote)
  {
    assert (hops + [hop])[..|hops|] == hops;
  }

  lemma {:induction false} NoneWritten(hops: seq<Hop>)
    ensures 0 !in Written(hops)
  {
    if hops != [] { NoneWritten(hops[..|hops| - 1]); }
  }

  /** One more jump is followed exactly when it is passable. */
  lemma HopExactly(p: Program, a: Word, from: Word, hops: seq<Hop>, hop: Hop)
    requires WellFormed(p) && a in p.code && (p.code[a].insn.Branch? || p.code[a].insn.Jal?)
    ensures Passable(p, a, from, hops, hop) <==>
            JumpAt(p, Arrived(from, hops)) == Some(hop) && NextHop(p, a, At(from, hops)).Some?
    ensures Passable(p, a, from, hops, hop) ==> NextHop(p, a, At(from, hops)) == Some(At(from, hops + [hop]))
  {
    hide WellFormed, Threading.Reaches, InReach, JumpAt, JumpsTo, WalkAnswer, Wrap, Signed, Written;
    JumpsIs(p, Arrived(from, hops), hop);
    InReachIs(p.code[a].insn, p.code[a].len, Signed(Wrap(hop.dest - a)));
    WrittenMore(hops, hop);
    NoneWritten(hops + [hop]);
  }

  /** From any jumps already passed, the rest are. */
  lemma {:induction false} FollowFar(p: Program, a: Word, from: Word, hops: seq<Hop>, left: nat) returns (all: seq<Hop>)
    requires WellFormed(p) && a in p.code && (p.code[a].insn.Branch? || p.code[a].insn.Jal?)
    requires AllPassable(p, a, from, hops)
    ensures AsFar(p, a, from, all, |hops| + left) && Follow(p, a, At(from, hops), left) == At(from, all)
    decreases left
  {
    hide WellFormed, NextHop, Passable, At;
    var next := JumpAt(p, Arrived(from, hops));
    forall hop ensures Passable(p, a, from, hops, hop) <==> next == Some(hop) && NextHop(p, a, At(from, hops)).Some? {
      HopExactly(p, a, from, hops, hop);
    }
    all := hops;
    if left > 0 && NextHop(p, a, At(from, hops)).Some? {
      HopThere(p, a, from, hops);
      var hop := next.value;
      HopExactly(p, a, from, hops, hop);
      PassableOn(p, a, from, hops, hop);
      all := FollowFar(p, a, from, hops + [hop], left - 1);
    }
  }

  lemma HopThere(p: Program, a: Word, from: Word, hops: seq<Hop>)
    requires a in p.code && NextHop(p, a, At(from, hops)).Some?
    ensures JumpAt(p, Arrived(from, hops)).Some?
  {
    hide JumpAt, Threading.Reaches, AllAnsweredDead, Wrap, Signed;
  }

  lemma PassableOn(p: Program, a: Word, from: Word, hops: seq<Hop>, hop: Hop)
    requires a in p.code && AllPassable(p, a, from, hops) && Passable(p, a, from, hops, hop)
    ensures AllPassable(p, a, from, hops + [hop])
  {
    hide Passable;
    forall k | 0 <= k < |hops + [hop]|
      ensures Passable(p, a, from, (hops + [hop])[..k], (hops + [hop])[k])
    {
      if k < |hops| {
        assert (hops + [hop])[..k] == hops[..k];
      } else {
        assert (hops + [hop])[..k] == hops;
      }
    }
  }

  /** No other jumps go as far. */
  lemma {:induction false} OneWay(p: Program, a: Word, from: Word, hops: seq<Hop>, other: seq<Hop>, k: nat)
    requires WellFormed(p) && a in p.code && (p.code[a].insn.Branch? || p.code[a].insn.Jal?)
    requires AllPassable(p, a, from, hops) && AllPassable(p, a, from, other) && k <= |hops| && k <= |other|
    ensures hops[..k] == other[..k]
  {
    hide WellFormed, Passable;
    if k > 0 {
      OneWay(p, a, from, hops, other, k - 1);
      assert Passable(p, a, from, hops[..k - 1], hops[k - 1]) && Passable(p, a, from, other[..k - 1], other[k - 1]);
      HopExactly(p, a, from, hops[..k - 1], hops[k - 1]);
      HopExactly(p, a, from, hops[..k - 1], other[k - 1]);
      assert hops[..k] == hops[..k - 1] + [hops[k - 1]] && other[..k] == other[..k - 1] + [other[k - 1]];
    }
  }

  lemma LongerPasses(p: Program, a: Word, from: Word, hops: seq<Hop>, other: seq<Hop>)
    requires WellFormed(p) && a in p.code && (p.code[a].insn.Branch? || p.code[a].insn.Jal?)
    requires AllPassable(p, a, from, hops) && AllPassable(p, a, from, other) && |hops| < |other|
    ensures exists hop :: Passable(p, a, from, hops, hop)
  {
    hide WellFormed, Passable;
    OneWay(p, a, from, hops, other, |hops|);
    assert hops[..|hops|] == hops;
    assert Passable(p, a, from, other[..|hops|], other[|hops|]);
  }

  lemma FarIsOne(p: Program, a: Word, from: Word, hops: seq<Hop>, other: seq<Hop>, most: nat)
    requires WellFormed(p) && a in p.code && (p.code[a].insn.Branch? || p.code[a].insn.Jal?)
    requires AsFar(p, a, from, hops, most) && AsFar(p, a, from, other, most)
    ensures hops == other
  {
    hide WellFormed, Passable, AllPassable;
    if |hops| < |other| {
      LongerPasses(p, a, from, hops, other);
    } else if |other| < |hops| {
      LongerPasses(p, a, from, other, hops);
    } else {
      OneWay(p, a, from, hops, other, |hops|);
      assert hops[..|hops|] == hops && other[..|hops|] == other;
    }
  }

  /** A branch round a single jump that it could be turned to: the jump then goes. */
  ghost predicate RoundJump(p: Program, a: Word)
    requires a in p.code
  {
    exists c: Cond, rs1: Reg, rs2: Reg, off: int, over: int :: RoundBy(p, a, c, rs1, rs2, off, over)
  }

  predicate RoundBy(p: Program, a: Word, c: Cond, rs1: Reg, rs2: Reg, off: int, over: int)
    requires a in p.code
  {
    var b := Wrap(a + p.code[a].len);
    && p.code[a].insn == Branch(c, rs1, rs2, off) && b in p.code && Readable(p, b) && !IsTarget(p, b)
    && NearJump(p.code[b], over) && a + off == b + p.code[b].len && over != p.code[b].len
    && -4096 <= b + over - a <= 4094 && (b + over - a) % 2 == 0
  }

  lemma RoundIs(p: Program, a: Word)
    requires a in p.code
    ensures OverJump(p, a) <==> RoundJump(p, a)
  {
    hide IsTarget, Wrap;
    if OverJump(p, a) {
      var i, b := p.code[a].insn, Wrap(a + p.code[a].len);
      assert RoundBy(p, a, i.cond, i.rs1, i.rs2, i.off, p.code[b].insn.off);
    }
  }

  /** A branch, or a jump that links or not, to somewhere else, but a branch that can be
      turned round. */
  ghost predicate MaySend(p: Program, a: Word)
    requires a in p.code
  {
    && Readable(p, a) && (p.code[a].insn.Branch? || p.code[a].insn.Jal?)
    && Wrap(a + p.code[a].insn.off) != a + p.code[a].len && !RoundJump(p, a)
  }

  ghost predicate SentBy(p: Program, a: Word, t: Threaded, hops: seq<Hop>)
    requires a in p.code && MaySend(p, a)
  {
    var from := Wrap(a + p.code[a].insn.off);
    && AsFar(p, a, from, hops, 8) && hops != [] && t == At(from, hops)
    && (t.dest == a + p.code[a].len ==> p.code[a].insn.Branch? || p.code[a].insn.rd == 0)
  }

  /** A transfer is reported exactly where there is a jump to pass, and is sent past as many as
      can be passed, up to eight. */
  lemma ThreadsExactly(p: Program, a: Word, t: Threaded)
    requires WellFormed(p) && a in p.code
    ensures ThreadOutcome(p, a) == Some(t) <==> MaySend(p, a) && exists hops :: SentBy(p, a, t, hops)
  {
    hide WellFormed, OverJump, RoundJump, Follow, AsFar, Wrap;
    RoundIs(p, a);
    if MaySend(p, a) {
      var from := Wrap(a + p.code[a].insn.off);
      var all := FollowFar(p, a, from, [], THREAD_HOPS);
      if hops :| SentBy(p, a, t, hops) { FarIsOne(p, a, from, hops, all, THREAD_HOPS); }
      if ThreadOutcome(p, a) == Some(t) { assert SentBy(p, a, t, all); }
    }
  }
}
