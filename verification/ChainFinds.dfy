/** Which constants built in a chain are found: the whole chain that begins at an instruction,
    and what is made of it. */
module ChainFinds {
  import opened Words
  import opened Wrappers
  import opened Machine
  import opened Window
  import opened Sweep
  import opened ImmediateForms
  import opened Li
  import opened DeletionChecks
  import opened DeletionFinds
  import opened WindowExact
  import opened Lines

  /** The instruction goes on with the constant in `r`. */
  ghost predicate GoesOn(i: Insn, r: Reg) {
    exists k: int :: GoesOnBy(i, r, k)
  }

  predicate GoesOnBy(i: Insn, r: Reg, k: int) {
    && r != 0
    && (i == Alu(Add, r, r, K(k)) || i == Alu(Addw, r, r, K(k)) || i == Alu(Xor, r, r, K(k)) || i == Alu(Or, r, r, K(k))
        || (i == Alu(Sll, r, r, K(k)) && 0 <= k < 64))
  }

  lemma GoesOnIs(i: Insn, r: Reg)
    ensures IsStep(i, r) <==> GoesOn(i, r)
  {
    if IsStep(i, r) { assert GoesOnBy(i, r, i.src.k); }
  }

  ghost predicate StepsThere(p: Program, c: Word, r: Reg) {
    Shut(p, c) && GoesOn(p.code[c].insn, r)
  }

  /** The whole line of steps from `at`. */
  ghost predicate StepLine(p: Program, at: Word, r: Reg, line: seq<Word>) {
    && Chain(p, at, line) && (forall k :: 0 <= k < |line| ==> StepsThere(p, line[k], r))
    && !StepsThere(p, AfterAll(p, at, line), r)
  }

  function Insns(p: Program, at: Word, line: seq<Word>): seq<Insn>
    requires Chain(p, at, line)
    decreases |line|
  {
    if line == [] then [] else [p.code[at].insn] + Insns(p, at + p.code[at].len, line[1..])
  }

  function BytesOf(p: Program, at: Word, line: seq<Word>): nat
    requires Chain(p, at, line)
    decreases |line|
  {
    if line == [] then 0 else p.code[at].len + BytesOf(p, at + p.code[at].len, line[1..])
  }

  lemma StepsOn(p: Program, at: Word, r: Reg, line: seq<Word>)
    requires StepLine(p, at, r, line) && line != []
    ensures StepsThere(p, at, r) && at in p.code && at + p.code[at].len < W64 && Chain(p, at, line)
    ensures StepLine(p, at + p.code[at].len, r, line[1..])
  {
    ChainStep(p, at, line);
    hide StepsThere;
    assert StepsThere(p, line[0], r);
    forall k | 0 <= k < |line[1..]| ensures StepsThere(p, line[1..][k], r) { assert line[1..][k] == line[k + 1]; }
  }

  lemma StepsEnd(p: Program, at: Word, r: Reg)
    requires StepLine(p, at, r, [])
    ensures !StepsThere(p, at, r)
  {
  }

  lemma {:induction false} StepsLine(p: Program, at: Word, r: Reg) returns (line: seq<Word>)
    requires WellFormed(p)
    ensures StepLine(p, at, r, line)
    decreases W64 - at
  {
    hide WellFormed, GoesOn;
    if StepsThere(p, at, r) {
      Placed(p, at);
      var rest := StepsLine(p, at + p.code[at].len, r);
      hide StepsThere;
      ChainFrom(p, at, rest);
      line := [at] + rest;
    } else {
      line := [];
    }
  }

  /** The constant put in `r` at `a`, and the line of its steps. */
  ghost predicate Constant(p: Program, a: Word, r: Reg, k: int, line: seq<Word>) {
    a in p.code && Readable(p, a) && Puts(p.code[a].insn, r, k) && StepLine(p, Following(p, a), r, line)
  }

  ghost function ChainInsns(p: Program, a: Word, r: Reg, k: int, line: seq<Word>): seq<Insn>
    requires Constant(p, a, r, k, line)
  {
    [p.code[a].insn] + Insns(p, Following(p, a), line)
  }

  // ---- chains longer than they need be ----

  predicate AllShort(p: Program, line: seq<Word>) {
    forall c :: c in line && c in p.code ==> p.code[c].len != 4
  }

  lemma {:induction false} ReadsWhole(p: Program, rd: Reg, r: Reading, line: seq<Word>, c: seq<Insn>)
    requires WellFormed(p) && StepLine(p, r.at, rd, line) && IsChain(c, rd) && Eval(c) == r.val
    ensures Chain(p, r.at, line)
    ensures var w := ReadAll(p, rd, r);
            && w.len == r.len + |line| && w.bytes == r.bytes + BytesOf(p, r.at, line)
            && IsChain(c + Insns(p, r.at, line), rd) && w.val == Eval(c + Insns(p, r.at, line))
            && w.compressed == (r.compressed && AllShort(p, line))
    decreases |line|
  {
    hide WellFormed, StepLine, StepValue, StepsThere, ReadsOn, IsChain, AluVal, IsStep, Insns, BytesOf, AllShort;
    ReadsIs(p, rd, r);
    if line == [] {
      StepsEnd(p, r.at, rd);
      LineNone(p, r.at, c);
    } else {
      StepsOn(p, r.at, rd, line);
      ChainStep(p, r.at, line);
      var i, rest := p.code[r.at].insn, line[1..];
      LineFirst(p, r.at, line, c);
      ReadLater(p, r);
      StepAppended(c, rd, i);
      hide Eval, ReadAll;
      assert ReadAll(p, rd, r) == ReadAll(p, rd, ReadOne(p, r)) by { ReadAllOn(p, rd, r); }
      ReadsWhole(p, rd, ReadOne(p, r), rest, c + [i]);
    }
  }

  lemma LineFirst(p: Program, at: Word, line: seq<Word>, c: seq<Insn>)
    requires Chain(p, at, line) && line != []
    ensures var n, rest := at + p.code[at].len, line[1..];
            && c + Insns(p, at, line) == c + [p.code[at].insn] + Insns(p, n, rest)
            && BytesOf(p, at, line) == p.code[at].len + BytesOf(p, n, rest)
            && AllShort(p, line) == (p.code[at].len != 4 && AllShort(p, rest))
  {
    hide Chain;
    assert forall d :: d in line <==> d == line[0] || d in line[1..];
    ChainStep(p, at, line);
  }

  lemma LineNone(p: Program, at: Word, c: seq<Insn>)
    ensures c + Insns(p, at, []) == c && BytesOf(p, at, []) == 0 && AllShort(p, [])
  {
  }

  lemma ReadAllOn(p: Program, rd: Reg, r: Reading)
    requires WellFormed(p) && ReadsOn(p, rd, r)
    ensures ReadAll(p, rd, r) == ReadAll(p, rd, ReadOne(p, r))
  {
    hide WellFormed, ReadsOn, ReadOne;
  }

  lemma ReadsIs(p: Program, rd: Reg, r: Reading)
    ensures ReadsOn(p, rd, r) <==> StepsThere(p, r.at, rd)
    ensures ReadsOn(p, rd, r) ==> r.at in p.code && IsStep(p.code[r.at].insn, rd)
  {
    hide IsTarget, IsStep, GoesOn;
    if r.at in p.code { GoesOnIs(p.code[r.at].insn, rd); }
  }

  lemma ShutIs(p: Program, c: Word)
    ensures Shut(p, c) <==> c in p.code && Readable(p, c) && !IsTarget(p, c)
  {
  }

  lemma StepAppended(c: seq<Insn>, r: Reg, i: Insn)
    requires IsChain(c, r) && IsStep(i, r)
    ensures IsChain(c + [i], r) && Eval(c + [i]) == StepValue(i, Eval(c))
  {
    hide AluVal;
    AppendStep(c, r, i);
    assert (c + [i])[..|c|] == c && (c + [i])[|c|] == i;
  }

  ghost predicate LongFrom(p: Program, a: Word, f: LongChain, r: Reg, k: int, line: seq<Word>) {
    && Constant(p, a, r, k, line) && line != [] && f.len == 1 + |line| && f.need < f.len
    && f.value == Eval(ChainInsns(p, a, r, k, line)) && f.need == |Plan(Signed(f.value), r)|
    && Bytes(Plan(Signed(f.value), r), p.code[a].len == 2 && AllShort(p, line)) <=
       p.code[a].len + BytesOf(p, Following(p, a), line)
  }

  /** A chain is reported exactly where the constant and all its steps take more instructions
      than the recurrence for what they leave, and no fewer bytes. */
  lemma LongExactly(p: Program, a: Word, f: LongChain)
    requires WellFormed(p) && a in p.code
    ensures LongLi(p, a) == Some(f) <==> exists r: Reg, k: int, line :: LongFrom(p, a, f, r, k, line)
  {
    hide WellFormed, LongFrom, DecodeConst, Puts, StepLine;
    var i := p.code[a].insn;
    forall r: Reg, k: int ensures DecodeConst(i) == Some((r, k)) <==> Puts(i, r, k) { PutsIs(i, r, k); }
    if LongLi(p, a) == Some(f) {
      var (r, k) := DecodeConst(i).value;
      var line := StepsLine(p, Following(p, a), r);
      LongThen(p, a, f, r, k, line);
      assert LongFrom(p, a, f, r, k, line);
    }
    if r: Reg, k: int, line :| LongFrom(p, a, f, r, k, line) {
      LongHas(p, a, f, r, k, line);
      LongThen(p, a, f, r, k, line);
    }
  }

  lemma LongHas(p: Program, a: Word, f: LongChain, r: Reg, k: int, line: seq<Word>)
    requires LongFrom(p, a, f, r, k, line)
    ensures Constant(p, a, r, k, line)
  {
    hide Constant, Plan, Bytes, Eval;
  }

  lemma LongThen(p: Program, a: Word, f: LongChain, r: Reg, k: int, line: seq<Word>)
    requires WellFormed(p) && Constant(p, a, r, k, line)
    ensures LongLi(p, a) == Some(f) <==> LongFrom(p, a, f, r, k, line)
  {
    hide WellFormed, StepLine, Plan, Bytes, ReadAll, Eval, IsChain, DecodeConst, Puts, Chain, Wrap, AllShort;
    var i := p.code[a].insn;
    PutsIs(i, r, k);
    StartEval(i, r, k);
    ReadsWhole(p, r, ReadFirst(p, a, k), line, [i]);
    var w := ReadAll(p, r, ReadFirst(p, a, k));
    assert Fits64(Signed(w.val)) by { SignedWrap(w.val); }
  }

  lemma StartEval(i: Insn, r: Reg, k: int)
    requires Puts(i, r, k)
    ensures IsChain([i], r) && Eval([i]) == Wrap(k)
  {
    PutsIs(i, r, k);
    One(i);
    hide DecodeConst;
  }

  // ---- masks built in a chain ----

  function Dropped(line: seq<Word>): map<Word, Insn> {
    map c | c in line :: Nop
  }

  /** No instruction of the chain stands for nothing already. */
  lemma {:induction false} BuildsWhole(p: Program, rc: Reg, b: Built, line: seq<Word>, c: seq<Insn>)
    requires WellFormed(p) && StepLine(p, b.at, rc, line) && IsChain(c, rc) && Eval(c) == Wrap(b.k)
             && b.k == Signed(Wrap(b.k))
    ensures Chain(p, b.at, line)
    ensures var w := BuildOn(p, rc, b);
            && w.at == AfterAll(p, b.at, line) && w.edits == b.edits + Dropped(line)
            && w.k == Signed(Eval(c + Insns(p, b.at, line))) && w.len == b.len + |line|
            && w.bytes == b.bytes + BytesOf(p, b.at, line)
    decreases |line|
  {
    hide WellFormed, StepLine, StepValue, IsStep, GoesOn, IsChain, AluVal, Shut, Signed, Dropped, OneStep, Insns,
      BytesOf;
    if b.at in p.code { GoesOnIs(p.code[b.at].insn, rc); }
    ShutIs(p, b.at);
    if line == [] {
      StepsEnd(p, b.at, rc);
      NoneDropped();
      LineNone(p, b.at, c);
    } else {
      StepsOn(p, b.at, rc, line);
      ChainStep(p, b.at, line);
      var i, rest := p.code[b.at].insn, line[1..];
      LineFirst(p, b.at, line, c);
      NextLater(p, b.at);
      StepAppended(c, rc, i);
      StepIsNoNop(i, rc);
      OneStepIs(p, b);
      SignedWrap(StepValue(i, Eval(c)));
      BuildsWhole(p, rc, OneStep(p, b), rest, c + [i]);
      DroppedFirst(line);
    }
  }

  lemma OneStepIs(p: Program, b: Built)
    requires b.at in p.code && p.code[b.at].insn != Nop
    ensures OneStep(p, b) ==
            Built(Following(p, b.at), b.edits[b.at := Nop], Signed(StepValue(p.code[b.at].insn, Wrap(b.k))), b.len + 1,
                  b.bytes + p.code[b.at].len)
  {
    hide StepValue;
  }

  lemma StepIsNoNop(i: Insn, r: Reg)
    requires IsStep(i, r)
    ensures i != Nop
  {
  }

  lemma NoneDropped()
    ensures Dropped([]) == map[]
  {
  }

  lemma DroppedFirst(line: seq<Word>)
    requires line != []
    ensures forall e: map<Word, Insn> :: e[line[0] := Nop] + Dropped(line[1..]) == e + Dropped(line)
  {
    assert forall c :: c in line <==> c == line[0] || c in line[1..];
  }

  /** The constant built at `a` is a mask no immediate holds, and its uses can go. */
  ghost predicate MaskGoes(p: Program, a: Word, zba: bool, zbb: bool, o: Outcome, r: Reg, k: int, steps: seq<Word>,
                           line: seq<Word>) {
    && Constant(p, a, r, k, steps) && steps != [] && !(2 <= r <= 4)
    && var m := Signed(Eval(ChainInsns(p, a, r, k, steps)));
       var at := AfterAll(p, Following(p, a), steps);
       && m >= 2048 && IsMask(Wrap(m)) && ConstLine(p, at, r, m, true, line, 16)
       && Goes(p, r, map[a := Nop] + Dropped(steps), p.code[a].len + BytesOf(p, Following(p, a), steps), at, line,
               ConstTurns(p, r, m, true, zba, zbb, line), o)
  }

  /** A mask is reported exactly where the whole chain leaves one that no immediate holds and
      the `and`s with it, on the line of 16 that follows, take fewer bytes as extensions or
      shifts, nothing reading it after the last. */
  lemma MasksExactly(p: Program, a: Word, zba: bool, zbb: bool, o: Outcome)
    requires WellFormed(p) && a in p.code && o.Delete?
    ensures MaskOutcome(p, a, zba, zbb) == o <==>
            exists r: Reg, k: int, steps, line :: MaskGoes(p, a, zba, zbb, o, r, k, steps, line)
  {
    hide WellFormed, MaskGoes, DecodeConst, Puts, StepLine, ConstUses, BuildOn, Settled, Eval, IsMask, ConstLine;
    var i := p.code[a].insn;
    forall r: Reg, k: int ensures DecodeConst(i) == Some((r, k)) <==> Puts(i, r, k) { PutsIs(i, r, k); }
    if MaskOutcome(p, a, zba, zbb) == o {
      var (r, k) := DecodeConst(i).value;
      var steps := StepsLine(p, Following(p, a), r);
      assert Constant(p, a, r, k, steps);
      ConstantHas(p, a, r, k, steps);
      var m := Signed(Eval(ChainInsns(p, a, r, k, steps)));
      var line := ConstLineThere(p, AfterAll(p, Following(p, a), steps), r, m, true, 16);
      MaskThen(p, a, zba, zbb, o, r, k, steps, line);
    }
    if r: Reg, k: int, steps, line :| MaskGoes(p, a, zba, zbb, o, r, k, steps, line) {
      MaskHas(p, a, zba, zbb, o, r, k, steps, line);
      MaskThen(p, a, zba, zbb, o, r, k, steps, line);
    }
  }

  lemma ConstantHas(p: Program, a: Word, r: Reg, k: int, line: seq<Word>)
    requires Constant(p, a, r, k, line)
    ensures a in p.code && Chain(p, Following(p, a), line)
  {
  }

  /** A constant as encoded is a 64-bit one. */
  lemma SmallConst(p: Program, a: Word, r: Reg, k: int)
    requires WellFormed(p) && a in p.code && Puts(p.code[a].insn, r, k)
    ensures Signed(Wrap(k)) == k
  {
    hide WellFormed;
    Placed(p, a);
  }

  lemma MaskHas(p: Program, a: Word, zba: bool, zbb: bool, o: Outcome, r: Reg, k: int, steps: seq<Word>,
                line: seq<Word>)
    requires MaskGoes(p, a, zba, zbb, o, r, k, steps, line)
    ensures Constant(p, a, r, k, steps)
    ensures ConstLine(p, AfterAll(p, Following(p, a), steps), r, Signed(Eval(ChainInsns(p, a, r, k, steps))), true,
                      line, 16)
  {
    hide Eval, IsMask, ConstLine, Goes, Signed;
  }

  lemma MaskThen(p: Program, a: Word, zba: bool, zbb: bool, o: Outcome, r: Reg, k: int, steps: seq<Word>,
                 line: seq<Word>)
    requires WellFormed(p) && Constant(p, a, r, k, steps) && o.Delete?
    requires ConstLine(p, AfterAll(p, Following(p, a), steps), r, Signed(Eval(ChainInsns(p, a, r, k, steps))), true,
                       line, 16)
    ensures MaskOutcome(p, a, zba, zbb) == o <==> MaskGoes(p, a, zba, zbb, o, r, k, steps, line)
  {
    hide WellFormed, StepLine, BuildOn, Eval, IsChain, DecodeConst, Puts, ConstUses, Goes, Settled, ConstLine,
         ConstTurns,
      IsMask, Signed, Chain, Wrap;
    var i, n := p.code[a].insn, Following(p, a);
    PutsIs(i, r, k);
    StartEval(i, r, k);
    SmallConst(p, a, r, k);
    BuildsWhole(p, r, Built(n, map[a := Nop], k, 1, p.code[a].len), steps, [i]);
    var b := BuildOn(p, r, Built(n, map[a := Nop], k, 1, p.code[a].len));
    NotZero(i, r, k);
    ConstSettled(p, NoUse(b.edits, b.at, b.bytes, b.len), r, b.k, true, zba, zbb, b.at, line, o);
  }
}
