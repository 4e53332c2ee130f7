/** What the deletion checks find: the reader of every copy, the uses of every constant, over
    any line their walks may take. */
module DeletionFinds {
  import opened Words
  import opened Wrappers
  import opened Machine
  import opened Window
  import opened Sweep
  import opened Liveness
  import opened Encoding
  import opened ImmediateForms
  import opened DeletionChecks
  import opened WindowExact
  import opened Lines

  // ---- a copy's reader ----

  /** An instruction a copy of `rs` in `rd` passes. */
  predicate LetsCopy(p: Program, c: Word, rd: Reg, rs: Reg) {
    && Shut(p, c) && !IsTransfer(p.code[c].insn)
    && rd !in Reads(p.code[c].insn) && rd !in Writes(p.code[c].insn) && rs !in Writes(p.code[c].insn)
  }

  /** The one after which nothing needs the copy. */
  predicate TakesCopy(p: Program, c: Word, rd: Reg) {
    && Shut(p, c) && !IsTransfer(p.code[c].insn) && rd in Reads(p.code[c].insn)
    && (rd in Writes(p.code[c].insn) || WalkAnswer(p, Following(p, c), rd) == Dead)
  }

  /** A line of at most `most` instructions that pass the copy, and its last reader. */
  predicate ReaderAfter(p: Program, at: Word, rd: Reg, rs: Reg, line: seq<Word>, most: nat) {
    && |line| < most && Chain(p, at, line) && (forall k :: 0 <= k < |line| ==> LetsCopy(p, line[k], rd, rs))
    && TakesCopy(p, AfterAll(p, at, line), rd)
  }

  lemma {:induction false} ReaderFound(p: Program, a: Word, rd: Reg, rs: Reg, at: Word, budget: nat, line: seq<Word>)
    requires ReaderAfter(p, at, rd, rs, line, budget)
    ensures var c := AfterAll(p, at, line);
            CopyFrom(p, a, rd, rs, at, budget) ==
            Delete(PutEdit(p, map[a := Nop], c, Rename(p.code[c].insn, rd, rs)), Following(p, c))
    decreases budget
  {
    hide WalkAnswer, Rename, PutEdit, IsTarget, Reads, Writes;
    if line != [] {
      ChainStep(p, at, line);
      assert LetsCopy(p, line[0], rd, rs);
      forall k | 0 <= k < |line[1..]| ensures LetsCopy(p, line[1..][k], rd, rs) { assert line[1..][k] == line[k + 1]; }
      ReaderFound(p, a, rd, rs, at + p.code[at].len, budget - 1, line[1..]);
    }
  }

  lemma {:induction false} ReaderThere(p: Program, a: Word, rd: Reg, rs: Reg, at: Word,
                                       budget: nat) returns (line: seq<Word>)
    requires WellFormed(p) && CopyFrom(p, a, rd, rs, at, budget).Delete?
    ensures ReaderAfter(p, at, rd, rs, line, budget)
    decreases budget
  {
    hide WellFormed, WalkAnswer, Rename, PutEdit, IsTarget, Reads, Writes;
    Placed(p, at);
    if rd in Reads(p.code[at].insn) {
      line := [];
    } else {
      WrapOfWord(at + p.code[at].len);
      var rest := ReaderThere(p, a, rd, rs, Following(p, at), budget - 1);
      ChainFrom(p, at, rest);
      line := [at] + rest;
    }
  }

  /** `mv rd,rs` of different registers, the ABI's own aside. */
  predicate IsCopy(d: Decoded, rd: Reg, rs: Reg) {
    && rd != 0 && rs != 0 && rd != rs && rd != 2 && rd != 3 && rd != 4
    && ((d.len == 4 && d.insn == Alu(Add, rd, rs, K(0))) || (d.len == 2 && d.insn == Alu(Add, rd, 0, R(rs))))
  }

  ghost predicate CopyRead(p: Program, a: Word, o: Outcome)
    requires a in p.code
  {
    exists rd: Reg, rs: Reg, line :: CopyReadBy(p, a, o, rd, rs, line)
  }

  ghost predicate CopyReadBy(p: Program, a: Word, o: Outcome, rd: Reg, rs: Reg, line: seq<Word>)
    requires a in p.code
  {
    && IsCopy(p.code[a], rd, rs) && ReaderAfter(p, Following(p, a), rd, rs, line, 32)
    && var c := AfterAll(p, Following(p, a), line);
       o == Delete(PutEdit(p, map[a := Nop], c, Rename(p.code[c].insn, rd, rs)), Following(p, c))
  }

  /** A copy is reported exactly where within 32 instructions one is its last reader and those
      before let it pass, and that reader is the one renamed. */
  lemma CopiesExactly(p: Program, a: Word, o: Outcome)
    requires WellFormed(p) && a in p.code && o.Delete?
    ensures CopyOutcome(p, a) == o <==> Readable(p, a) && CopyRead(p, a, o)
  {
    hide WellFormed, ReaderAfter, Rename, PutEdit, CopyFrom;
    forall rd: Reg, rs: Reg ensures DecodeMv(p.code[a]) == Some((rd, rs)) && rd != rs && !HeldByConvention(rd) <==>
      IsCopy(p.code[a], rd, rs) { }
    if CopyOutcome(p, a) == o {
      var (rd, rs) := DecodeMv(p.code[a]).value;
      var line := ReaderThere(p, a, rd, rs, Following(p, a), COPY_WALK);
      ReaderIsAfter(p, Following(p, a), rd, rs, line, COPY_WALK);
      ReaderFound(p, a, rd, rs, Following(p, a), COPY_WALK, line);
      assert CopyReadBy(p, a, o, rd, rs, line);
    }
    if rd: Reg, rs: Reg, line :| CopyReadBy(p, a, o, rd, rs, line) {
      ReaderFound(p, a, rd, rs, Following(p, a), COPY_WALK, line);
    }
  }

  lemma ReaderIsAfter(p: Program, at: Word, rd: Reg, rs: Reg, line: seq<Word>, most: nat)
    requires ReaderAfter(p, at, rd, rs, line, most)
    ensures Chain(p, at, line) && AfterAll(p, at, line) in p.code
  {
    hide WalkAnswer, IsTarget, Reads, Writes;
  }

  // ---- uses turned one after another ----

  /** What an instruction of the line becomes, whether it writes the register, in how many
      bytes. */
  datatype Turn = Turn(insn: Insn, ends: bool, bytes: nat)

  function Turned(line: seq<Word>, t: map<Word, Turn>): map<Word, Insn> {
    map c | c in line && c in t :: t[c].insn
  }

  /** The bytes of those that are turned, as they stand. */
  function OldBytes(p: Program, at: Word, line: seq<Word>, t: map<Word, Turn>): nat
    requires Chain(p, at, line)
    decreases |line|
  {
    if line == [] then 0
    else (if at in t then p.code[at].len else 0) + OldBytes(p, at + p.code[at].len, line[1..], t)
  }

  /** And as they will. */
  function NewBytes(line: seq<Word>, t: map<Word, Turn>): nat {
    if line == [] then 0 else (if line[0] in t then t[line[0]].bytes else 0) + NewBytes(line[1..], t)
  }

  predicate LastTurn(line: seq<Word>, t: map<Word, Turn>, c: Word) {
    c in line && c in t && forall d :: d in line && d in t ==> d <= c
  }

  /** What has been built and its uses can go: some use is turned, the uses come to fewer
      bytes than they and it, and the register is not needed after the last. */
  ghost predicate Goes(p: Program, r: Reg, edits: map<Word, Insn>, bytes: nat, at: Word, line: seq<Word>,
                       t: map<Word, Turn>, o: Outcome)
    requires Chain(p, at, line)
  {
    && NewBytes(line, t) < bytes + OldBytes(p, at, line, t)
    && exists c :: LastTurn(line, t, c) && c in p.code && (t[c].ends || WalkAnswer(p, Following(p, c), r) == Dead)
                   && o == Delete(edits + Turned(line, t), Following(p, c))
  }

  function TurnOne(p: Program, u: Uses, at: Word, t: map<Word, Turn>): Uses
    requires at in p.code
  {
    if at in t then OneUse(p, at, u, t[at].insn, t[at].ends, t[at].bytes) else Passing(u)
  }

  function TurnAll(p: Program, u: Uses, at: Word, line: seq<Word>, t: map<Word, Turn>): Uses
    requires Chain(p, at, line)
    decreases |line|
  {
    if line == [] then u else TurnAll(p, TurnOne(p, u, at, t), at + p.code[at].len, line[1..], t)
  }

  ghost predicate AllDiffer(p: Program, line: seq<Word>, t: map<Word, Turn>) {
    forall c :: c in line && c in t ==> c in p.code && t[c].insn != p.code[c].insn
  }

  lemma {:induction false} AllTurned(p: Program, u: Uses, at: Word, line: seq<Word>, t: map<Word, Turn>)
    requires Chain(p, at, line) && AllDiffer(p, line, t)
    ensures TurnAll(p, u, at, line, t).edits == u.edits + Turned(line, t)
    decreases |line|
  {
    hide TurnOne, Turned;
    if line == [] {
      TurnedNone(t);
    } else {
      var v, rest := TurnOne(p, u, at, t), line[1..];
      assert forall c :: c in rest ==> c in line;
      AllTurned(p, v, at + p.code[at].len, rest, t);
      TurnedFirst(line, t);
      OneTurned(p, u, at, t);
      hide Chain, TurnAll;
      assert v.edits + Turned(rest, t) == u.edits + Turned(line, t);
    }
  }

  lemma {:induction false} BytesTurned(p: Program, u: Uses, at: Word, line: seq<Word>, t: map<Word, Turn>)
    requires Chain(p, at, line)
    ensures var w := TurnAll(p, u, at, line, t);
            && w.sums.before == u.sums.before + OldBytes(p, at, line, t)
            && w.sums.after == u.sums.after + NewBytes(line, t)
    decreases |line|
  {
    if line != [] {
      BytesTurned(p, TurnOne(p, u, at, t), at + p.code[at].len, line[1..], t);
    }
  }

  lemma TurnedNone(t: map<Word, Turn>)
    ensures Turned([], t) == map[]
  {
  }

  lemma OneTurned(p: Program, u: Uses, at: Word, t: map<Word, Turn>)
    requires at in p.code && (at in t ==> t[at].insn != p.code[at].insn)
    ensures var v := TurnOne(p, u, at, t);
            v.edits == if at in t then u.edits[at := t[at].insn] else u.edits
  {
  }

  lemma TurnedFirst(line: seq<Word>, t: map<Word, Turn>)
    requires line != []
    ensures Turned(line, t) ==
            (if line[0] in t then map[line[0] := t[line[0]].insn] else map[]) + Turned(line[1..], t)
  {
    assert forall c :: c in line <==> c == line[0] || c in line[1..];
  }

  lemma {:induction false} LastTurned(p: Program, u: Uses, at: Word, line: seq<Word>, t: map<Word, Turn>)
    requires WellFormed(p) && Chain(p, at, line)
    ensures var w := TurnAll(p, u, at, line, t);
            && (w.n > 0 <==> u.n > 0 || exists c :: c in line && c in t)
            && (forall c :: LastTurn(line, t, c) ==> c in p.code && w.end == Following(p, c) && w.dead == t[c].ends)
            && ((forall c :: c in line ==> c !in t) ==> w.end == u.end && w.dead == u.dead)
    decreases |line|
  {
    hide WellFormed, Following, PutEdit;
    if line != [] {
      ChainStep(p, at, line);
      var n, v, rest := at + p.code[at].len, TurnOne(p, u, at, t), line[1..];
      LastTurned(p, v, n, rest, t);
      Placed(p, at);
      forall c | c in rest ensures at < c { ChainAfter(p, n, rest, c); }
      forall c | LastTurn(line, t, c) && c != at ensures LastTurn(rest, t, c) { }
    }
  }

  lemma {:induction false} LastThere(p: Program, at: Word, line: seq<Word>, t: map<Word, Turn>) returns (c: Word)
    requires WellFormed(p) && Chain(p, at, line) && exists d :: d in line && d in t
    ensures LastTurn(line, t, c)
    decreases |line|
  {
    hide WellFormed;
    ChainStep(p, at, line);
    if d :| d in line[1..] && d in t {
      c := LastThere(p, at + p.code[at].len, line[1..], t);
      ChainAfter(p, at, line, c);
    } else {
      c := at;
    }
  }

  /** Settling such uses is what has been said. */
  lemma SettledGoes(p: Program, r: Reg, u: Uses, at: Word, line: seq<Word>, t: map<Word, Turn>, o: Outcome)
    requires WellFormed(p) && Chain(p, at, line) && AllDiffer(p, line, t) && u.n == 0 && u.sums.after == 0 && o.Delete?
    ensures Settled(p, r, TurnAll(p, u, at, line, t)) == o <==> Goes(p, r, u.edits, u.sums.before, at, line, t, o)
  {
    hide WellFormed, WalkAnswer, AllDiffer, Chain, Following, TurnAll, OldBytes, NewBytes, Turned, LastTurn;
    AllTurned(p, u, at, line, t);
    BytesTurned(p, u, at, line, t);
    LastTurned(p, u, at, line, t);
    var w := TurnAll(p, u, at, line, t);
    if d :| d in line && d in t {
      var c := LastThere(p, at, line, t);
      assert w.end == Following(p, c);
    } else {
      NoLast(line, t);
    }
  }

  lemma NoLast(line: seq<Word>, t: map<Word, Turn>)
    requires !exists c :: c in line && c in t
    ensures !exists c :: LastTurn(line, t, c)
  {
  }

  // ---- a zero's stores ----

  /** A store of `rt`, an integer register, through another base. */
  predicate StoresZero(i: Insn, rt: Reg) {
    i.Store? && i.kind.IsStore() && !i.kind.IsFp() && i.data == rt && i.base != rt
  }

  predicate LetsZero(p: Program, c: Word, rt: Reg) {
    Shut(p, c) && (StoresZero(p.code[c].insn, rt) || (rt !in p.code[c].names && !IsTransfer(p.code[c].insn)))
  }

  /** The line of stores of `rt` and of what does not name it, to its end or `most`
      instructions of it. */
  predicate ZeroLine(p: Program, at: Word, rt: Reg, line: seq<Word>, most: nat) {
    && Chain(p, at, line) && |line| <= most && (forall k :: 0 <= k < |line| ==> LetsZero(p, line[k], rt))
    && (|line| == most || !LetsZero(p, AfterAll(p, at, line), rt))
  }

  lemma ZeroLineOn(p: Program, at: Word, rt: Reg, line: seq<Word>, most: nat)
    requires ZeroLine(p, at, rt, line, most) && line != []
    ensures LetsZero(p, at, rt) && at in p.code && at + p.code[at].len < W64
    ensures ZeroLine(p, at + p.code[at].len, rt, line[1..], most - 1)
  {
    ChainStep(p, at, line);
    hide LetsZero;
    assert LetsZero(p, line[0], rt);
    forall k | 0 <= k < |line[1..]| ensures LetsZero(p, line[1..][k], rt) { assert line[1..][k] == line[k + 1]; }
  }

  lemma {:induction false} ZeroLineThere(p: Program, at: Word, rt: Reg, most: nat) returns (line: seq<Word>)
    requires WellFormed(p)
    ensures ZeroLine(p, at, rt, line, most)
    decreases most
  {
    hide WellFormed;
    if most == 0 || !LetsZero(p, at, rt) {
      line := [];
    } else {
      Placed(p, at);
      var rest := ZeroLineThere(p, at + p.code[at].len, rt, most - 1);
      hide LetsZero;
      ChainFrom(p, at, rest);
      line := [at] + rest;
    }
  }

  function ZeroTurns(p: Program, rt: Reg, zcb: bool, line: seq<Word>): map<Word, Turn> {
    map c | c in line && c in p.code && StoresZero(p.code[c].insn, rt) ::
      Turn(p.code[c].insn.(data := 0), false, ZeroStoreBytes(p.code[c].insn, p.code[c].len, zcb))
  }

  /** The walk turns the stores of its whole line and no more. */
  lemma {:induction false} ZeroWalk(p: Program, rt: Reg, zcb: bool, at: Word, u: Uses, budget: nat, line: seq<Word>,
                                    t: map<Word, Turn>)
    requires WellFormed(p) && rt != 0 && ZeroLine(p, at, rt, line, budget)
    requires forall c :: c in line && c in p.code ==> (c in t <==> StoresZero(p.code[c].insn, rt))
    requires forall c :: c in t && c in p.code && StoresZero(p.code[c].insn, rt) ==>
               t[c] == Turn(p.code[c].insn.(data := 0), false, ZeroStoreBytes(p.code[c].insn, p.code[c].len, zcb))
    ensures ZeroStores(p, rt, zcb, at, u, budget) == TurnAll(p, u, at, line, t)
    decreases budget
  {
    hide WellFormed, IsTarget, OneUse, ZeroStoreBytes, ZeroLine;
    if line == [] {
      ZeroLineEnds(p, at, rt, budget);
    } else {
      ZeroLineOn(p, at, rt, line, budget);
      ZeroIn(p, at, rt, line, budget);
      ZeroWalk(p, rt, zcb, at + p.code[at].len, TurnOne(p, u, at, t), budget - 1, line[1..], t);
    }
  }

  lemma ZeroLineEnds(p: Program, at: Word, rt: Reg, most: nat)
    requires ZeroLine(p, at, rt, [], most)
    ensures most == 0 || !LetsZero(p, at, rt)
  {
  }

  lemma ZeroIn(p: Program, at: Word, rt: Reg, line: seq<Word>, most: nat)
    requires ZeroLine(p, at, rt, line, most) && line != []
    ensures Chain(p, at, line) && at in line && most > 0 && forall c :: c in line[1..] ==> c in line
  {
  }

  ghost predicate ZeroGoes(p: Program, a: Word, zcb: bool, o: Outcome, rt: Reg, line: seq<Word>)
    requires a in p.code
  {
    && Puts(p.code[a].insn, rt, 0) && !(2 <= rt <= 4) && ZeroLine(p, Following(p, a), rt, line, 16)
    && Goes(p, rt, map[a := Nop], p.code[a].len, Following(p, a), line, ZeroTurns(p, rt, zcb, line), o)
  }

  /** A zero is reported exactly where the stores of it, on the line of 16 that follows, take
      fewer bytes with x0 and nothing reads it after the last; those stores are rewritten. */
  lemma ZerosExactly(p: Program, a: Word, zcb: bool, o: Outcome)
    requires WellFormed(p) && a in p.code && o.Delete?
    ensures ZeroOutcome(p, a, zcb) == o <==>
            Readable(p, a) && exists rt: Reg, line :: ZeroGoes(p, a, zcb, o, rt, line)
  {
    hide WellFormed, ZeroStores, DecodeConst, Puts, ZeroLine, Goes, Settled, ZeroTurns;
    forall rt: Reg, k: int ensures DecodeConst(p.code[a].insn) == Some((rt, k)) <==> Puts(p.code[a].insn, rt, k) {
      PutsIs(p.code[a].insn, rt, k);
    }
    forall rt: Reg, line | Puts(p.code[a].insn, rt, 0) && ZeroLine(p, Following(p, a), rt, line, 16)
      ensures Settled(p, rt, ZeroStores(p, rt, zcb, Following(p, a),
                                        NoUse(map[a := Nop], Following(p, a), p.code[a].len, 1), ZSTORE_WALK)) == o <==>
              Chain(p, Following(p, a), line) &&
              Goes(p, rt, map[a := Nop], p.code[a].len, Following(p, a), line, ZeroTurns(p, rt, zcb, line), o)
    {
      ZeroSettled(p, a, rt, zcb, line, o);
    }
    if ZeroOutcome(p, a, zcb) == o {
      var rt := DecodeConst(p.code[a].insn).value.0;
      var line := ZeroLineThere(p, Following(p, a), rt, 16);
      assert ZeroGoes(p, a, zcb, o, rt, line);
    }
    if rt: Reg, line :| ZeroGoes(p, a, zcb, o, rt, line) {
      ZeroSettled(p, a, rt, zcb, line, o);
    }
  }

  lemma ZeroSettled(p: Program, a: Word, rt: Reg, zcb: bool, line: seq<Word>, o: Outcome)
    requires WellFormed(p) && a in p.code && o.Delete?
    requires Puts(p.code[a].insn, rt, 0) && ZeroLine(p, Following(p, a), rt, line, ZSTORE_WALK)
    ensures Chain(p, Following(p, a), line)
    ensures Settled(p, rt, ZeroStores(p, rt, zcb, Following(p, a),
                                      NoUse(map[a := Nop], Following(p, a), p.code[a].len, 1), ZSTORE_WALK)) == o <==>
            Goes(p, rt, map[a := Nop], p.code[a].len, Following(p, a), line, ZeroTurns(p, rt, zcb, line), o)
  {
    hide WellFormed, ZeroStores, Goes, Settled, TurnAll, ZeroStoreBytes, LetsZero, Chain;
    var u, t := NoUse(map[a := Nop], Following(p, a), p.code[a].len, 1), ZeroTurns(p, rt, zcb, line);
    NotZero(p.code[a].insn, rt, 0);
    ZeroWalk(p, rt, zcb, Following(p, a), u, ZSTORE_WALK, line, t);
    SettledGoes(p, rt, u, Following(p, a), line, t, o);
  }

  lemma NotZero(i: Insn, r: Reg, k: int)
    requires Puts(i, r, k)
    ensures r != 0
  {
  }

  // ---- a constant's uses ----

  /** The operation takes `k` in place of `r`, alone among its operands. */
  predicate TakesImm(i: Insn, r: Reg, k: int) {
    && i.Alu? && i.src.R? && i.rd != 0 && (i.rs1 == r) != (i.src.r == r)
    && (i.op in {Add, Addw, Xor, Or} ==> -2048 <= k <= 2047)
    && (i.op == And ==> -2048 <= k <= 2047 || IsMask(Wrap(k)))
    && (i.op in {Sub, Subw} ==> -2047 <= k <= 2048)
    && (i.op in {Slt, Sltu} ==> -2048 <= k <= 2047)
    && (i.op in {Sub, Subw, Slt, Sltu, Sll, Srl, Sra, Sllw, Srlw, Sraw} ==> i.src.r == r)
    && i.op in {Add, Addw, Xor, Or, And, Sub, Subw, Slt, Sltu, Sll, Srl, Sra, Sllw, Srlw, Sraw}
  }

  lemma TakesExactly(i: Insn, r: Reg, k: int, zba: bool, zbb: bool)
    ensures ImmForm(i, r, k, zba, zbb).Some? <==> TakesImm(i, r, k)
    ensures TakesImm(i, r, k) ==>
              (IsMaskForm(ImmForm(i, r, k, zba, zbb).value) <==> i.op == And && !(-2048 <= k <= 2047))
  {
    hide IsMask, LowOnes;
  }

  /** A use of the kind the check is after: with a mask no immediate holds, or without. */
  predicate UsesConst(i: Insn, r: Reg, k: int, masks: bool) {
    TakesImm(i, r, k) && masks == (i.op == And && !(-2048 <= k <= 2047))
  }

  predicate LetsConst(p: Program, c: Word, r: Reg, k: int, masks: bool) {
    && Shut(p, c)
    && (UsesConst(p.code[c].insn, r, k, masks) || (r !in p.code[c].names && !IsTransfer(p.code[c].insn)))
  }

  /** A use that writes the register, as none can follow. */
  predicate LastUse(p: Program, c: Word, r: Reg, k: int, masks: bool) {
    c in p.code && UsesConst(p.code[c].insn, r, k, masks) && XDest(p.code[c].insn) == r
  }

  /** The line of uses and of what does not name the register: to its end, to the use that
      writes it, or `most` instructions of it. */
  predicate ConstLine(p: Program, at: Word, r: Reg, k: int, masks: bool, line: seq<Word>, most: nat) {
    && Chain(p, at, line) && |line| <= most && (forall j :: 0 <= j < |line| ==> LetsConst(p, line[j], r, k, masks))
    && (forall j :: 0 <= j < |line| - 1 ==> !LastUse(p, line[j], r, k, masks))
    && (|line| == most || !LetsConst(p, AfterAll(p, at, line), r, k, masks)
        || (line != [] && LastUse(p, line[|line| - 1], r, k, masks)))
  }

  lemma ConstLineOn(p: Program, at: Word, r: Reg, k: int, masks: bool, line: seq<Word>, most: nat)
    requires ConstLine(p, at, r, k, masks, line, most) && line != []
    ensures LetsConst(p, at, r, k, masks) && at in p.code && at + p.code[at].len < W64
    ensures Chain(p, at, line) && at in line && most > 0 && forall c :: c in line[1..] ==> c in line
    ensures if LastUse(p, at, r, k, masks) then line == [at]
            else ConstLine(p, at + p.code[at].len, r, k, masks, line[1..], most - 1)
  {
    ChainStep(p, at, line);
    hide LetsConst, LastUse;
    assert LetsConst(p, line[0], r, k, masks);
    if |line| > 1 {
      assert !LastUse(p, line[0], r, k, masks);
      assert line[1..][|line[1..]| - 1] == line[|line| - 1];
    }
    forall j | 0 <= j < |line[1..]| ensures LetsConst(p, line[1..][j], r, k, masks) {
      assert line[1..][j] == line[j + 1];
    }
    forall j | 0 <= j < |line[1..]| - 1 ensures !LastUse(p, line[1..][j], r, k, masks) {
      assert line[1..][j] == line[j + 1];
    }
  }

  lemma {:induction false} ConstLineThere(p: Program, at: Word, r: Reg, k: int, masks: bool, most: nat)
    returns (line: seq<Word>)
    requires WellFormed(p)
    ensures ConstLine(p, at, r, k, masks, line, most)
    decreases most
  {
    hide WellFormed, UsesConst;
    if most == 0 || !LetsConst(p, at, r, k, masks) {
      line := [];
    } else {
      Placed(p, at);
      if LastUse(p, at, r, k, masks) {
        ChainFrom(p, at, []);
        line := [at] + [];
      } else {
        var rest := ConstLineThere(p, at + p.code[at].len, r, k, masks, most - 1);
        hide LetsConst, LastUse;
        ChainFrom(p, at, rest);
        line := [at] + rest;
      }
    }
  }

  function ConstTurns(p: Program, r: Reg, k: int, masks: bool, zba: bool, zbb: bool, line: seq<Word>): map<Word, Turn> {
    map c | c in line && c in p.code && UsesConst(p.code[c].insn, r, k, masks) ::
      ConstTurn(p.code[c], r, k, zba, zbb)
  }

  function ConstTurn(d: Decoded, r: Reg, k: int, zba: bool, zbb: bool): Turn {
    match ImmForm(d.insn, r, k, zba, zbb)
    case Some(j) => Turn(j, XDest(d.insn) == r, ImmBytes(j, d.len))
    case None => Turn(Nop, false, 0)
  }

  lemma FormDiffers(i: Insn, r: Reg, k: int, zba: bool, zbb: bool)
    requires ImmForm(i, r, k, zba, zbb).Some?
    ensures i.Alu? && ImmForm(i, r, k, zba, zbb).value != i
  {
    hide IsMask, LowOnes;
  }

  /** Whether the walk turns the instruction or passes it. */
  lemma TakenIs(p: Program, at: Word, r: Reg, k: int, masks: bool, zba: bool, zbb: bool)
    requires at in p.code
    ensures var i, f := p.code[at].insn, ImmForm(p.code[at].insn, r, k, zba, zbb);
            && (f.Some? && IsMaskForm(f.value) == masks <==> UsesConst(i, r, k, masks))
            && (UsesConst(i, r, k, masks) ==> i.Alu? && i.rd == XDest(i) && f.Some? && f.value != i)
  {
    hide IsMask, LowOnes, ImmForm, IsMaskForm;
    TakesExactly(p.code[at].insn, r, k, zba, zbb);
    if ImmForm(p.code[at].insn, r, k, zba, zbb).Some? { FormDiffers(p.code[at].insn, r, k, zba, zbb); }
  }

  ghost predicate TurnsConst(p: Program, r: Reg, k: int, masks: bool, zba: bool, zbb: bool, line: seq<Word>,
                             t: map<Word, Turn>) {
    forall c :: c in line && c in p.code ==>
      (c in t <==> UsesConst(p.code[c].insn, r, k, masks)) && (c in t ==> t[c] == ConstTurn(p.code[c], r, k, zba, zbb))
  }

  /** The walk turns the uses of its whole line and no more. */
  lemma {:induction false} ConstWalk(p: Program, r: Reg, k: int, masks: bool, zba: bool, zbb: bool, at: Word, u: Uses,
                                     budget: nat, line: seq<Word>, t: map<Word, Turn>)
    requires WellFormed(p) && r != 0 && ConstLine(p, at, r, k, masks, line, budget)
    requires TurnsConst(p, r, k, masks, zba, zbb, line, t)
    ensures Chain(p, at, line) && ConstUses(p, r, k, masks, zba, zbb, at, u, budget) == TurnAll(p, u, at, line, t)
    decreases budget
  {
    hide WellFormed, LetsConst, LastUse, ConstLine, ConstUses, ConstTurn, TurnsConst, TurnOne;
    if line == [] {
      ConstLineEnds(p, at, r, k, masks, budget);
      ConstStays(p, r, k, masks, zba, zbb, at, u, budget);
    } else {
      ConstLineOn(p, at, r, k, masks, line, budget);
      ChainStep(p, at, line);
      TurnOneIs(p, at, u, r, k, masks, zba, zbb, line, t);
      var v := TurnOne(p, u, at, t);
      ConstStep(p, r, k, masks, zba, zbb, at, u, budget, v);
      if !LastUse(p, at, r, k, masks) {
        ConstWalk(p, r, k, masks, zba, zbb, at + p.code[at].len, v, budget - 1, line[1..], t);
      }
    }
  }

  lemma ConstStays(p: Program, r: Reg, k: int, masks: bool, zba: bool, zbb: bool, at: Word, u: Uses, budget: nat)
    requires budget == 0 || !LetsConst(p, at, r, k, masks)
    ensures ConstUses(p, r, k, masks, zba, zbb, at, u, budget) == u
  {
    hide IsTarget, OneUse, ImmForm, IsMaskForm, UsesConst, ImmBytes;
    if at in p.code { TakenIs(p, at, r, k, masks, zba, zbb); }
  }

  lemma ConstStep(p: Program, r: Reg, k: int, masks: bool, zba: bool, zbb: bool, at: Word, u: Uses, budget: nat,
                  v: Uses)
    requires budget > 0 && at in p.code && LetsConst(p, at, r, k, masks)
             && v == OneTurn(p, at, u, r, k, masks, zba, zbb)
    ensures ConstUses(p, r, k, masks, zba, zbb, at, u, budget) ==
            if LastUse(p, at, r, k, masks) then v
            else ConstUses(p, r, k, masks, zba, zbb, Following(p, at), v, budget - 1)
  {
    hide IsTarget, OneUse, ImmForm, IsMaskForm, UsesConst, ImmBytes;
    TakenIs(p, at, r, k, masks, zba, zbb);
  }

  function OneTurn(p: Program, at: Word, u: Uses, r: Reg, k: int, masks: bool, zba: bool, zbb: bool): Uses
    requires at in p.code
  {
    var i, f := p.code[at].insn, ImmForm(p.code[at].insn, r, k, zba, zbb);
    if UsesConst(i, r, k, masks) && f.Some? then
      OneUse(p, at, u, f.value, XDest(i) == r, ImmBytes(f.value, p.code[at].len))
    else Passing(u)
  }

  lemma TurnOneIs(p: Program, at: Word, u: Uses, r: Reg, k: int, masks: bool, zba: bool, zbb: bool, line: seq<Word>,
                  t: map<Word, Turn>)
    requires at in p.code && at in line && TurnsConst(p, r, k, masks, zba, zbb, line, t)
    ensures TurnsConst(p, r, k, masks, zba, zbb, line[1..], t)
    ensures TurnOne(p, u, at, t) == OneTurn(p, at, u, r, k, masks, zba, zbb)
  {
    hide ImmForm, UsesConst, OneUse, ImmBytes, IsMaskForm;
    TakenIs(p, at, r, k, masks, zba, zbb);
  }

  lemma ConstLineEnds(p: Program, at: Word, r: Reg, k: int, masks: bool, most: nat)
    requires ConstLine(p, at, r, k, masks, [], most)
    ensures most == 0 || !LetsConst(p, at, r, k, masks)
  {
  }

  lemma ConstSettled(p: Program, u: Uses, r: Reg, k: int, masks: bool, zba: bool, zbb: bool, at: Word, line: seq<Word>,
                     o: Outcome)
    requires WellFormed(p) && r != 0 && ConstLine(p, at, r, k, masks, line, CONST_WALK) && o.Delete?
    requires u.n == 0 && u.sums.after == 0
    ensures Chain(p, at, line)
    ensures Settled(p, r, ConstUses(p, r, k, masks, zba, zbb, at, u, CONST_WALK)) == o <==>
            Goes(p, r, u.edits, u.sums.before, at, line, ConstTurns(p, r, k, masks, zba, zbb, line), o)
  {
    hide WellFormed, ConstUses, Goes, Settled, TurnAll, ConstLine, Chain, UsesConst, ConstTurn;
    var t := ConstTurns(p, r, k, masks, zba, zbb, line);
    ConstWalk(p, r, k, masks, zba, zbb, at, u, CONST_WALK, line, t);
    forall c | c in line && c in t ensures c in p.code && t[c].insn != p.code[c].insn {
      TakenIs(p, c, r, k, masks, zba, zbb);
      TurnIs(p.code[c], r, k, zba, zbb);
    }
    SettledGoes(p, r, u, at, line, t, o);
  }

  lemma TurnIs(d: Decoded, r: Reg, k: int, zba: bool, zbb: bool)
    requires ImmForm(d.insn, r, k, zba, zbb).Some?
    ensures ConstTurn(d, r, k, zba, zbb).insn == ImmForm(d.insn, r, k, zba, zbb).value
  {
  }

  ghost predicate ConstGoes(p: Program, a: Word, zba: bool, zbb: bool, o: Outcome, r: Reg, k: int, line: seq<Word>)
    requires a in p.code
  {
    && Puts(p.code[a].insn, r, k) && !(2 <= r <= 4) && ConstLine(p, Following(p, a), r, k, false, line, 16)
    && Goes(p, r, map[a := Nop], p.code[a].len, Following(p, a), line, ConstTurns(p, r, k, false, zba, zbb, line), o)
  }

  /** A constant is reported exactly where the uses of it, on the line of 16 that follows,
      take fewer bytes as immediates and nothing reads it after the last; those uses are
      rewritten. */
  lemma ConstsExactly(p: Program, a: Word, zba: bool, zbb: bool, o: Outcome)
    requires WellFormed(p) && a in p.code && o.Delete?
    ensures ConstOutcome(p, a, zba, zbb) == o <==>
            Readable(p, a) && exists r: Reg, k: int, line :: ConstGoes(p, a, zba, zbb, o, r, k, line)
  {
    hide WellFormed, ConstUses, DecodeConst, Puts, ConstLine, Goes, Settled, ConstTurns;
    forall r: Reg, k: int ensures DecodeConst(p.code[a].insn) == Some((r, k)) <==> Puts(p.code[a].insn, r, k) {
      PutsIs(p.code[a].insn, r, k);
    }
    var n := Following(p, a);
    var u := NoUse(map[a := Nop], n, p.code[a].len, 1);
    forall r: Reg, k: int, line | Puts(p.code[a].insn, r, k) && ConstLine(p, n, r, k, false, line, 16)
      ensures Settled(p, r, ConstUses(p, r, k, false, zba, zbb, n, u, CONST_WALK)) == o <==>
              Chain(p, n, line) &&
              Goes(p, r, map[a := Nop], p.code[a].len, n, line, ConstTurns(p, r, k, false, zba, zbb, line), o)
    {
      NotZero(p.code[a].insn, r, k);
      ConstSettled(p, u, r, k, false, zba, zbb, n, line, o);
    }
    if ConstOutcome(p, a, zba, zbb) == o {
      var (r, k) := DecodeConst(p.code[a].insn).value;
      var line := ConstLineThere(p, n, r, k, false, 16);
      assert ConstGoes(p, a, zba, zbb, o, r, k, line);
    }
    if r: Reg, k: int, line :| ConstGoes(p, a, zba, zbb, o, r, k, line) {
      NotZero(p.code[a].insn, r, k);
      ConstSettled(p, u, r, k, false, zba, zbb, n, line, o);
    }
  }
}
