/** How far the runs of stack adjustments go: over every line the walk may take, to its
    last adjustment. */
module SpExtent {
  import opened Words
  import opened Wrappers
  import opened Machine
  import opened Sweep
  import opened Lines
  import opened Encoding
  import opened SpShift
  import opened SpRuns
  import opened SpFindings

  // ---- what a walk may pass ----

  /** `addi sp,sp,k`. */
  predicate Moves(i: Insn, k: int) {
    i == Alu(Add, 2, 2, K(k))
  }

  function MovedBy(i: Insn): int {
    match i
    case Alu(Add, 2, 2, K(k)) => k
    case _ => 0
  }

  /** A load or store through sp whose data is not sp, but for the two-byte `c.fsdsp`. */
  predicate Reaches(d: Decoded) {
    || (d.insn.Load? && d.insn.base == 2 && (d.insn.kind.IsFp() || d.insn.rd != 2))
    || (d.insn.Store? && d.insn.base == 2 && (d.insn.kind.IsFp() || d.insn.data != 2)
        && !(d.len == 2 && d.insn.kind == FSD))
  }

  /** What neither names sp nor leaves the line. */
  predicate Bystands(d: Decoded) {
    2 !in d.names && !IsTransfer(d.insn)
  }

  /** A walk may pass `c`, if sp moves there with the sign it looks for. */
  predicate MayPass(p: Program, c: Word, down: bool) {
    && Shut(p, c)
    && var d := p.code[c];
       || Reaches(d) || Bystands(d)
       || (Moves(d.insn, MovedBy(d.insn)) && if down then MovedBy(d.insn) < 0 else MovedBy(d.insn) > 0)
  }

  predicate AllPass(p: Program, line: seq<Word>, down: bool) {
    forall k :: 0 <= k < |line| ==> MayPass(p, line[k], down)
  }

  /** How far sp moves along the line, and how many accesses it has. */
  function Total(p: Program, line: seq<Word>): int {
    if line == [] then 0 else (if line[0] in p.code then MovedBy(p.code[line[0]].insn) else 0) + Total(p, line[1..])
  }

  function Accesses(p: Program, line: seq<Word>): nat {
    if line == [] then 0 else (if line[0] in p.code && Reaches(p.code[line[0]]) then 1 else 0) + Accesses(p, line[1..])
  }

  /** What a walk meets there. */
  lemma MeetIs(p: Program, c: Word, down: bool)
    requires WellFormed(p) && MayPass(p, c, down)
    ensures var d := p.code[c];
            if Reaches(d) then Meet(p, c) == Access && MovedBy(d.insn) == 0
            else if MovedBy(d.insn) != 0 then Meet(p, c) == Adj(MovedBy(d.insn))
            else Meet(p, c) == Between
    ensures var k := MovedBy(p.code[c].insn); k == 0 || if down then k < 0 else k > 0
  {
    Placed(p, c);
    Listed(p, c);
    hide WellFormed, IsTarget;
  }

  lemma Listed(p: Program, c: Word)
    requires WellFormed(p) && c in p.code
    ensures Reads(p.code[c].insn) + Writes(p.code[c].insn) <= p.code[c].names
  {
    hide Reads, Writes, PlainInsn;
    assert WellPlaced(p, c, p.code[c]);
  }

  lemma {:induction false} TotalSign(p: Program, line: seq<Word>, down: bool)
    requires WellFormed(p) && AllPass(p, line, down)
    ensures if down then Total(p, line) <= 0 else Total(p, line) >= 0
  {
    hide Shut, Bystands, WellFormed, Meet, Reaches;
    if line != [] {
      assert MayPass(p, line[0], down);
      MeetIs(p, line[0], down);
      RestPasses(p, line, down);
      TotalSign(p, line[1..], down);
    }
  }

  lemma RestPasses(p: Program, line: seq<Word>, down: bool)
    requires AllPass(p, line, down) && line != []
    ensures AllPass(p, line[1..], down)
  {
    hide MayPass;
    forall k | 0 <= k < |line[1..]| ensures MayPass(p, line[1..][k], down) { assert line[1..][k] == line[k + 1]; }
  }

  // ---- pushes ----

  predicate InRun(w: SpRun, c: Word) {
    c in w.adj || HasAcc(w.acc, c)
  }

  /** What a walk has taken it keeps. */
  lemma {:induction false} PushKeeps(p: Program, at: Word, w: SpRun, budget: nat, c: Word)
    requires InRun(w, c)
    ensures InRun(PushWalk(p, at, w, budget), c)
    decreases budget
  {
    hide Meet;
    if budget > 0 && PushNext(p, at, w).Some? {
      NextKeeps(p, at, w, c);
      PushKeeps(p, Wrap(at + p.code[at].len), PushNext(p, at, w).value, budget - 1, c);
    }
  }

  lemma NextKeeps(p: Program, at: Word, w: SpRun, c: Word)
    requires PushNext(p, at, w).Some? && InRun(w, c)
    ensures at in p.code && InRun(PushNext(p, at, w).value, c)
  {
    hide IsTarget;
    if HasAcc(w.acc, c) {
      var k :| 0 <= k < |w.acc| && w.acc[k].addr == c;
      assert forall x :: (w.acc + [x])[k].addr == c;
    }
  }

  /** The instruction moves sp or reaches through it. */
  predicate Counts(p: Program, c: Word) {
    c in p.code && (Reaches(p.code[c]) || MovedBy(p.code[c].insn) != 0)
  }

  /** A line the push walk may take all of, `w` behind it. */
  predicate PushLine(p: Program, at: Word, w: SpRun, line: seq<Word>) {
    && Chain(p, at, line) && AllPass(p, line, true)
    && w.total - Total(p, line) <= 2048 && |w.acc| + Accesses(p, line) <= 32
  }

  lemma PushOne(p: Program, at: Word, w: SpRun, line: seq<Word>)
    requires WellFormed(p) && PushLine(p, at, w, line) && line != []
    ensures PushNext(p, at, w).Some? && at in p.code && at + p.code[at].len < W64
    ensures PushLine(p, at + p.code[at].len, PushNext(p, at, w).value, line[1..])
    ensures Counts(p, at) ==> InRun(PushNext(p, at, w).value, at)
  {
    hide WellFormed, Meet, MayPass, Reaches;
    assert MayPass(p, line[0], true);
    MeetIs(p, at, true);
    RestPasses(p, line, true);
    TotalSign(p, line[1..], true);
    if Meet(p, at) == Access {
      var x := Acc(at, -w.total);
      assert (w.acc + [x])[|w.acc|].addr == at;
    }
  }

  /** All of it that counts is in the run. */
  lemma {:induction false} PushCovers(p: Program, at: Word, w: SpRun, budget: nat, line: seq<Word>)
    requires WellFormed(p) && PushLine(p, at, w, line) && |line| <= budget
    ensures forall c :: c in line && Counts(p, c) ==> InRun(PushWalk(p, at, w, budget), c)
    decreases budget
  {
    hide WellFormed, PushLine, PushNext, Counts, InRun;
    if line != [] {
      PushOne(p, at, w, line);
      var n, w' := at + p.code[at].len, PushNext(p, at, w).value;
      WrapOfWord(n);
      PushCovers(p, n, w', budget - 1, line[1..]);
      assert line[0] == at by { ChainStarts(p, at, w, line); }
      forall c | c in line && Counts(p, c) ensures InRun(PushWalk(p, at, w, budget), c) {
        if c == at {
          PushKeeps(p, n, w', budget - 1, at);
        } else {
          assert c in line[1..];
        }
      }
    }
  }

  lemma ChainStarts(p: Program, at: Word, w: SpRun, line: seq<Word>)
    requires PushLine(p, at, w, line) && line != []
    ensures line[0] == at
  {
  }

  /** The run at a reservation takes in every adjustment and access of every line the limits
      allow: 64 instructions, 32 accesses, 2048 bytes in all. */
  lemma PushGoesFar(p: Program, a: Word, line: seq<Word>)
    requires WellFormed(p) && a in p.code && MovedBy(p.code[a].insn) < 0
    requires Chain(p, Wrap(a + p.code[a].len), line) && AllPass(p, line, true)
    requires |line| <= 64 && Accesses(p, line) <= 32 && -(MovedBy(p.code[a].insn) + Total(p, line)) <= 2048
    ensures forall c :: c in line && Counts(p, c) ==> InRun(PushRun(p, a), c)
  {
    hide WellFormed, Chain, AllPass, Counts, InRun, Total, Accesses;
    PushCovers(p, Wrap(a + p.code[a].len), PushStart(p, a), PUSH_WALK, line);
  }

  // ---- releases ----

  predicate InRelease(w: Releases, c: Word) {
    c in w.run.adj || HasAcc(w.run.acc + w.open, c)
  }

  lemma ReleaseNextKeeps(p: Program, at: Word, w: Releases, c: Word)
    requires ReleaseNext(p, at, w).Some?
    ensures at in p.code
    ensures c in w.run.adj ==> c in ReleaseNext(p, at, w).value.run.adj
    ensures InRelease(w, c) ==> InRelease(ReleaseNext(p, at, w).value, c)
  {
    hide IsTarget;
    var acc, w' := w.run.acc + w.open, ReleaseNext(p, at, w).value;
    assert acc <= w'.run.acc + w'.open;
    if HasAcc(acc, c) {
      var k :| 0 <= k < |acc| && acc[k].addr == c;
      assert (w'.run.acc + w'.open)[k].addr == c;
    }
  }

  lemma {:induction false} ReleaseKeeps(p: Program, at: Word, w: Releases, budget: nat, c: Word)
    ensures c in w.run.adj ==> c in ReleaseWalk(p, at, w, budget).run.adj
    ensures InRelease(w, c) ==> InRelease(ReleaseWalk(p, at, w, budget), c)
    decreases budget
  {
    hide Meet, InRelease, ReleaseNext;
    if budget > 0 && ReleaseNext(p, at, w).Some? {
      ReleaseNextKeeps(p, at, w, c);
      ReleaseKeeps(p, Wrap(at + p.code[at].len), ReleaseNext(p, at, w).value, budget - 1, c);
    }
  }

  predicate ReleaseLine(p: Program, at: Word, w: Releases, line: seq<Word>) {
    && Chain(p, at, line) && AllPass(p, line, false)
    && w.run.total + Total(p, line) <= 2047 && |w.run.acc| + |w.open| + Accesses(p, line) <= 32
  }

  lemma ReleaseOne(p: Program, at: Word, w: Releases, line: seq<Word>)
    requires WellFormed(p) && ReleaseLine(p, at, w, line) && line != []
    ensures ReleaseNext(p, at, w).Some? && at in p.code && at + p.code[at].len < W64 && line[0] == at
    ensures ReleaseLine(p, at + p.code[at].len, ReleaseNext(p, at, w).value, line[1..])
    ensures MovedBy(p.code[at].insn) != 0 ==> at in ReleaseNext(p, at, w).value.run.adj
    ensures Counts(p, at) ==> InRelease(ReleaseNext(p, at, w).value, at)
  {
    hide WellFormed, Meet, MayPass, Reaches;
    assert MayPass(p, line[0], false);
    MeetIs(p, at, false);
    RestPasses(p, line, false);
    TotalSign(p, line[1..], false);
    if Meet(p, at) == Access {
      var x := Acc(at, w.run.total);
      var acc := w.run.acc + (w.open + [x]);
      assert acc[|acc| - 1].addr == at;
    }
  }

  lemma {:induction false} ReleaseCovers(p: Program, at: Word, w: Releases, budget: nat, line: seq<Word>)
    requires WellFormed(p) && ReleaseLine(p, at, w, line) && |line| <= budget
    ensures var r := ReleaseWalk(p, at, w, budget);
            forall c :: c in line && c in p.code ==>
              (MovedBy(p.code[c].insn) != 0 ==> c in r.run.adj) && (Counts(p, c) ==> InRelease(r, c))
    decreases budget
  {
    hide WellFormed, ReleaseLine, ReleaseNext, Counts, InRelease, MovedBy;
    if line != [] {
      ReleaseOne(p, at, w, line);
      var n, w' := at + p.code[at].len, ReleaseNext(p, at, w).value;
      WrapOfWord(n);
      ReleaseCovers(p, n, w', budget - 1, line[1..]);
      ReleaseKeeps(p, n, w', budget - 1, at);
      forall c | c in line && c in p.code
        ensures var r := ReleaseWalk(p, at, w, budget);
                (MovedBy(p.code[c].insn) != 0 ==> c in r.run.adj) && (Counts(p, c) ==> InRelease(r, c))
      {
        if c != at { assert c in line[1..]; }
      }
    }
  }

  /** The run at a release takes in every release of every line the limits allow: 64
      instructions, 32 accesses, 2047 bytes in all; and every access before the last. */
  lemma ReleaseGoesFar(p: Program, a: Word, line: seq<Word>)
    requires WellFormed(p) && a in p.code && 0 < MovedBy(p.code[a].insn)
    requires Chain(p, Wrap(a + p.code[a].len), line) && AllPass(p, line, false)
    requires |line| <= 64 && Accesses(p, line) <= 32 && MovedBy(p.code[a].insn) + Total(p, line) <= 2047
    ensures var r := ReleaseRun(p, a);
            forall c :: c in line && c in p.code ==>
              (MovedBy(p.code[c].insn) != 0 ==> c in r.run.adj) && (Counts(p, c) ==> InRelease(r, c))
  {
    StartIs(p, a);
    hide WellFormed, Chain, AllPass, Counts, InRelease, Total, Accesses, MovedBy, ReleaseStart, ReleaseWalk;
    ReleaseCovers(p, Wrap(a + p.code[a].len), ReleaseStart(p, a), PUSH_WALK, line);
  }

  lemma StartIs(p: Program, a: Word)
    requires a in p.code
    ensures ReleaseStart(p, a).run.total == MovedBy(p.code[a].insn)
    ensures |ReleaseStart(p, a).run.acc| + |ReleaseStart(p, a).open| == 0
  {
  }

  // ---- what is reported ----

  /** Such a line with another reservation on it is reported, unmarked and readable, if what
      it becomes fits and is shorter. */
  lemma PushIsReported(p: Program, a: Word, zcb: bool, m: Marks, line: seq<Word>, c: Word)
    requires WellFormed(p) && a in p.code && MovedBy(p.code[a].insn) < 0 && m.push <= a && Readable(p, a)
    requires Chain(p, Wrap(a + p.code[a].len), line) && AllPass(p, line, true) && c in line
    requires |line| <= 64 && Accesses(p, line) <= 32 && -(MovedBy(p.code[a].insn) + Total(p, line)) <= 2048
    requires c in p.code && MovedBy(p.code[c].insn) != 0
    ensures var w := PushRun(p, a);
            && AccInCode(p, w.acc)
            && (AllFit(p, w.acc, w.total)
                && AdjustBytes(-w.total, p.code[a].len == 2) + AccBytes(p, w.acc, w.total, zcb) < w.bytes ==>
                  PushCheck(p, a, zcb, m).0 == Some(Pushing(a, w)))
  {
    hide WellFormed, Chain, AllPass, Total, Accesses, AllFit, AdjustBytes, AccBytes, PushRun, PushSoFar;
    PushGoesFar(p, a, line);
    PushTwo(p, a, c) by { ChainAfter(p, Wrap(a + p.code[a].len), line, c); Placed(p, a); }
  }

  /** An adjustment after the first makes two. */
  lemma PushTwo(p: Program, a: Word, c: Word)
    requires WellFormed(p) && a in p.code && MovedBy(p.code[a].insn) < 0 && c != a
    requires c in p.code && MovedBy(p.code[c].insn) != 0 && InRun(PushRun(p, a), c)
    ensures var w := PushRun(p, a); AccInCode(p, w.acc) && |w.adj| >= 2
  {
    hide WellFormed, PushSoFar, PushWalk, PushStart;
    Placed(p, a);
    Small(p.code[a].insn);
    SameMove(p.code[a].insn);
    PushStarts(p, a);
    WrapOfWord(a + p.code[a].len);
    PushWalkSound(p, a, a + p.code[a].len, PushStart(p, a), PUSH_WALK);
    var w := PushRun(p, a);
    var at :| PushSoFar(p, a, at, w);
    PushParts(p, a, at, w, c);
  }

  lemma SameMove(i: Insn)
    ensures SpAdjust(i) == MovedBy(i)
  {
  }

  lemma PushParts(p: Program, a: Word, at: Word, w: SpRun, c: Word)
    requires PushSoFar(p, a, at, w) && InRun(w, c) && c != a && c in p.code && MovedBy(p.code[c].insn) != 0
    ensures AccInCode(p, w.acc) && |w.adj| >= 2
  {
    hide Walked, Risen, Plain;
    AccParts(p, a, at, w.adj, w.acc);
    SameMove(p.code[c].insn);
    if HasAcc(w.acc, c) {
      var k :| 0 <= k < |w.acc| && w.acc[k].addr == c;
      AccessIsNoAdjust(p.code[c].insn);
    }
  }

  lemma AccParts(p: Program, a: Word, at: Word, adj: seq<Word>, acc: seq<Acc>)
    requires Accounted(p, a, at, adj, acc)
    ensures AccInCode(p, acc)
  {
    hide Plain, Risen;
  }

  /** The same of releases. */
  lemma ReleaseIsReported(p: Program, a: Word, zcb: bool, m: Marks, line: seq<Word>, c: Word)
    requires WellFormed(p) && a in p.code && 0 < MovedBy(p.code[a].insn) && m.release <= a && Readable(p, a)
    requires Chain(p, Wrap(a + p.code[a].len), line) && AllPass(p, line, false) && c in line
    requires |line| <= 64 && Accesses(p, line) <= 32 && MovedBy(p.code[a].insn) + Total(p, line) <= 2047
    requires c in p.code && MovedBy(p.code[c].insn) != 0
    ensures var w := ReleaseRun(p, a);
            && AccInCode(p, w.run.acc)
            && (AllFit(p, w.run.acc, 0)
                && AdjustBytes(w.run.total, p.code[a].len == 2) + AccBytes(p, w.run.acc, 0, zcb) < w.run.bytes ==>
                  ReleaseCheck(p, a, zcb, m).0 == Some(Releasing(a, w)))
  {
    hide WellFormed, Chain, AllPass, Total, Accesses, AllFit, AdjustBytes, AccBytes, ReleaseRun, ReleaseSoFar;
    ReleaseGoesFar(p, a, line);
    SameMove(p.code[a].insn);
    ReleaseTwo(p, a, c) by { ChainAfter(p, Wrap(a + p.code[a].len), line, c); Placed(p, a); }
  }

  lemma ReleaseTwo(p: Program, a: Word, c: Word)
    requires WellFormed(p) && a in p.code && 0 < MovedBy(p.code[a].insn) && c != a && c in ReleaseRun(p, a).run.adj
    ensures var w := ReleaseRun(p, a); AccInCode(p, w.run.acc) && |w.run.adj| >= 2
  {
    hide WellFormed, ReleaseSoFar, ReleaseWalk, ReleaseStart;
    Placed(p, a);
    Small(p.code[a].insn);
    SameMove(p.code[a].insn);
    ReleaseStarts(p, a);
    WrapOfWord(a + p.code[a].len);
    ReleaseWalkSound(p, a, a + p.code[a].len, ReleaseStart(p, a), PUSH_WALK);
    var w := ReleaseRun(p, a);
    var at :| ReleaseSoFar(p, a, at, w);
    ReleaseParts(p, a, at, w);
  }

  lemma ReleaseParts(p: Program, a: Word, at: Word, w: Releases)
    requires ReleaseSoFar(p, a, at, w)
    ensures AccInCode(p, w.run.acc) && |w.run.adj| > 0 && w.run.adj[0] == a
  {
    hide Walked, Risen, Plain;
    var acc := w.run.acc + w.open;
    AccParts(p, a, at, w.run.adj, acc);
    forall k | 0 <= k < |w.run.acc| ensures w.run.acc[k] == acc[k] {}
  }

  /** The pairs: a release and, next to it with nothing coming in between, a reservation. */
  lemma PairsExactly(p: Program, a: Word)
    requires WellFormed(p)
    ensures IsPair(p, a) <==>
            && a in p.code && 0 < MovedBy(p.code[a].insn) && Readable(p, a)
            && var b := Wrap(a + p.code[a].len); Shut(p, b) && MovedBy(p.code[b].insn) < 0
  {
    hide WellFormed, IsTarget;
    if a in p.code {
      SameMove(p.code[a].insn);
      var b := Wrap(a + p.code[a].len);
      if b in p.code { SameMove(p.code[b].insn); }
    }
  }
}
