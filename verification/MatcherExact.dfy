/** Exactly when a bit count the matcher accepts is right from every start: what a
    source written over, and halves of two sequences joined, do to it. */
module MatcherExact {
  import opened Words
  import opened Machine
  import opened Sweep
  import opened ConstSteps
  import opened Popcount
  import opened Matcher

  // ---- sums of digits ----

  /** The low `n` bytes are zero, or all ones. */
  predicate AllZero(n: nat, s: nat) {
    n == 0 || (s % 256 == 0 && AllZero(n - 1, s / 256))
  }

  predicate AllOnes(n: nat, s: nat) {
    n == 0 || (s % 256 == 255 && AllOnes(n - 1, s / 256))
  }

  lemma FourTimes(s: nat, q: nat)
    requires q == s / 4 && s % 4 == 0
    ensures s == 4 * q
  {
  }

  lemma FourthsOf(s: nat)
    ensures s / 16 == s / 4 / 4 && s / 64 == s / 16 / 4 && s / 256 == s / 64 / 4
  {
  }

  lemma ZeroByte(s: nat)
    requires Quad(0, s) == 0 && Quad(1, s) == 0 && Quad(2, s) == 0 && Quad(3, s) == 0
    ensures s % 256 == 0
  {
    FourthsOf(s);
    var a, b, c := s / 4, s / 16, s / 64;
    FourTimes(s, a);
    FourTimes(a, b);
    FourTimes(b, c);
    var d := c / 4;
    FourTimes(c, d);
    MultipleOf(s, d);
  }

  lemma MultipleOf(s: nat, d: nat)
    requires s == 4 * (4 * (4 * (4 * d)))
    ensures s % 256 == 0
  {
    DivModUnique(s, 256, d, 0);
  }

  lemma OnesByte(s: nat)
    requires s % 256 == 255
    ensures Quad(0, s) == 3 && Quad(1, s) == 3 && Quad(2, s) == 3 && Quad(3, s) == 3
  {
    FourDigits(s, 3, 3, 3, 3, s / 256);
  }

  lemma {:induction false} NoDigits(n: nat, s: nat)
    requires LaneSum(0, n, s) + LaneSum(1, n, s) + LaneSum(2, n, s) + LaneSum(3, n, s) == 0
    ensures AllZero(n, s)
  {
    hide Quad;
    if n > 0 {
      ZeroByte(s);
      NoDigits(n - 1, s / 256);
    }
  }

  lemma {:induction false} FullDigits(n: nat, s: nat)
    requires AllOnes(n, s)
    ensures LaneSum(0, n, s) + LaneSum(1, n, s) + LaneSum(2, n, s) + LaneSum(3, n, s) == 12 * n
  {
    hide Quad;
    if n > 0 {
      OnesByte(s);
      FullDigits(n - 1, s / 256);
    }
  }

  lemma {:induction false} OneLess(n: nat, s: nat)
    requires AllZero(n, s) && s > 0
    ensures AllOnes(n, s - 1)
  {
    if n > 0 {
      var q := s / 256;
      assert s == 256 * q;
      DivModUnique(s - 1, 256, q - 1, 255);
      OneLess(n - 1, q);
    }
  }

  lemma AllOnesWord()
    ensures AllOnes(8, W64 - 1) && AllOnes(4, W64 - 1)
  {
    var a := 0xff_ffff_ffff_ffff;
    assert AllOnes(1, 0xff) && AllOnes(2, 0xffff) && AllOnes(3, 0xff_ffff) && AllOnes(4, 0xffff_ffff);
    assert AllOnes(5, 0xff_ffff_ffff) && AllOnes(6, 0xffff_ffff_ffff) && AllOnes(7, a);
    assert AllOnes(1, 0xff_ffff_ffff) && AllOnes(2, 0xffff_ffff_ffff) && AllOnes(3, a);
  }

  function Four(s: Word): seq<Word> { [s, s, s, s] }

  /** One less than what has no digits has all of them. */
  lemma OneTakenOff(wide: bool, u: Word)
    requires Total(Span(wide), Four(u)) == 0
    ensures Total(Span(wide), Four(Wrap(u - 1))) == 12 * Span(wide)
  {
    hide LaneSum, AllOnes, AllZero;
    var n := Span(wide);
    NoDigits(n, u);
    if u == 0 {
      AllOnesWord();
      assert Wrap(u - 1) == W64 - 1;
    } else {
      OneLess(n, u);
      WrapOfWord(u - 1);
    }
    FullDigits(n, Wrap(u - 1));
  }

  lemma {:induction false} ZeroDigits(k: nat, n: nat)
    ensures LaneSum(k, n, 0) == 0
  {
    if n > 0 {
      ZeroDigits(k, n - 1);
    }
  }

  lemma {:induction false} NoneSet(n: nat)
    ensures Ones(n, 0) == 0
  {
    if n > 0 {
      NoneSet(n - 1);
    }
  }

  lemma OnesOfTwo(wide: bool)
    ensures Ones(if wide then 64 else 32, 2) == 1 && Ones(if wide then 64 else 32, 0) == 0
  {
    var n := if wide then 64 else 32;
    NoneSet(n);
    NoneSet(n - 2);
    assert Ones(n - 1, 1) == 1 + Ones(n - 2, 0);
  }

  // ---- small values ----

  lemma {:induction false} NoLanesOf(n: nat, k: nat, j: nat)
    ensures Lanes(n, k, j, 0) == 0
  {
    if n > 0 {
      NoLanesOf(n - 1, k, j);
      NoBits(j, k);
    }
  }

  lemma {:induction false} NoBits(j: nat, k: nat)
    ensures LowBits(j, 0) == 0 && Shift(0, k) == 0 && Raise(0, k) == 0
  {
    if j > 0 {
      NoBits(j - 1, k);
    } else if k > 0 {
      NoBits(0, k - 1);
    }
  }

  /** The masks on a byte. */
  lemma ByteMasks(wide: bool, x: Word)
    requires x < 256
    ensures BitWord(BAnd, x, M55(wide)) == x % 2 + 4 * (x / 4 % 2) + 16 * (x / 16 % 2) + 64 * (x / 64 % 2)
    ensures BitWord(BAnd, x, M33(wide)) == x % 4 + 16 * (x / 16 % 4)
    ensures BitWord(BAnd, x, M0F(wide)) == x % 16
  {
    hide Lanes, BitWord;
    Masks(wide, x);
    var n := Span(wide);
    LanesIs(4 * n, x);
    LanesIs(4 * n - 1, x / 4);
    LanesIs(4 * n - 2, x / 16);
    LanesIs(4 * n - 3, x / 64);
    NoLanesOf(4 * n - 4, 2, 1);
    LanesIs(2 * n, x);
    LanesIs(2 * n - 1, x / 16);
    NoLanesOf(2 * n - 2, 4, 2);
    LanesIs(n, x);
    NoLanesOf(n - 1, 8, 4);
    Sixteenth(x);
    assert x / 4 / 4 == x / 16 && x / 16 / 4 == x / 64 && x / 64 / 4 == 0 && x / 256 == 0;
  }

  lemma SmallOdd(wide: bool)
    ensures Odd(wide, 0) == 0 && Odd(wide, 1) == 0 && Odd(wide, 2) == 1
  {
    ByteMasks(wide, 0);
    ByteMasks(wide, 1);
    hide BitWord;
  }

  // ---- states to begin with ----

  /** The constants known in their registers, `v` in `r`, and nothing else. */
  ghost function With(p: Program, h: Word, r: Reg, v: Word): State {
    var known := TablesAt(p, h).known;
    State(h, seq(32, q requires 0 <= q < 32 => if q == r then v else if q in known then known[q] else 0),
          seq(32, _ => 0), map[])
  }

  /** Any value may stand in a register that is not known to hold a constant. */
  lemma WithHolds(p: Program, h: Word, r: Reg, v: Word)
    requires WellFormed(p) && r != 0 && r !in TablesAt(p, h).known
    ensures var s := With(p, h, r, v);
            && KnownTrue(TablesAt(p, h), s) && X(s, r) == v && s.pc == h
            && forall q: Reg :: q != r ==> X(s, q) == X(With(p, h, r, 0), q)
  {
    HeadBefore(p, h);
    assert TablesAt(p, Head(p, h)) == NoTables;
    hide WellFormed, TablesAt, TracesAt, EntryTrue, Arrive, Head, OnLine, Resets;
    LineIsTrue(p, Head(p, h), h, With(p, h, r, v));
  }

  // ---- two runs begun apart in one register ----

  /** What is known of two runs begun with 0 and with 2 in one register: which registers
      may have come to hold 0 and 1, which whatever they like, and whether they may have
      parted in more than the integer registers. */
  datatype Marks = Marks(near: set<Reg>, far: set<Reg>, beyond: bool)

  /** An opening shift, or the first mask, of what is not far apart. */
  predicate Brings(k: Marks, m: Move) {
    (m.Open? && m.src !in k.far) || (m.Advance? && m.stage == And55 && m.one !in k.far)
  }

  predicate Passes(k: Marks, i: Insn) {
    Reads(i) !! k.near + k.far && (i.Alu? || !k.beyond)
  }

  function Mark(k: Marks, m: Move, i: Insn): Marks {
    if m.Constant? || Passes(k, i) then Marks(k.near - Writes(i), k.far - Writes(i), k.beyond)
    else if Brings(k, m) then Marks(k.near + Writes(i), k.far - Writes(i), k.beyond)
    else Marks(k.near - Writes(i), k.far + Writes(i), k.beyond || !i.Alu?)
  }

  /** The registers `r` has gone into on the way from `h` to `a`. */
  function MarksAt(p: Program, h: Word, r: Reg, a: Word): Marks
    decreases a
  {
    if a == h || Resets(p, a) then Marks({r}, {}, false)
    else
      var b := Prev(p, a).value;
      Mark(MarksAt(p, h, r, b), MoveAt(p, b), p.code[b].insn)
  }

  ghost predicate NearPair(u: Word, w: Word, kept: bool) {
    u == w || (u == 0 && w == 1) || (kept && u == 0 && w == 2)
  }

  /** The two states, `r` not written yet or written. */
  ghost predicate Tracks(k: Marks, r: Reg, kept: bool, s: State, t: State) {
    && s.pc == t.pc && (!k.beyond ==> s.f == t.f && s.mem == t.mem)
    && (kept ==> r in k.near)
    && forall q: Reg :: q !in k.far ==>
         NearPair(X(s, q), X(t, q), kept && q == r) && (q !in k.near ==> X(s, q) == X(t, q))
  }

  /** What reads nothing that differs does the same. */
  lemma SameResult(i: Insn, len: nat, s: State, t: State)
    requires !i.Then? && s.pc == t.pc && (i.Alu? || (s.f == t.f && s.mem == t.mem))
    requires forall q :: q in Reads(i) ==> X(s, q) == X(t, q)
    ensures XResult(i, len, s) == XResult(i, len, t)
  {
    hide AluVal, Sext, Extend, LoadLE, Writes;
  }

  lemma SameBeyond(i: Insn, len: nat, s: State, t: State)
    requires !i.Then? && s.f == t.f && s.mem == t.mem && (i.Alu? || forall q :: q in Reads(i) ==> X(s, q) == X(t, q))
    ensures Effect(i, len, s).f == Effect(i, len, t).f && Effect(i, len, s).mem == Effect(i, len, t).mem
  {
    hide Box, Extend, LoadLE, StoreLE, XResult, Writes;
  }

  lemma WritesResult(i: Insn, len: nat, s: State, q: Reg)
    requires !i.Then? && q in Writes(i)
    ensures X(Effect(i, len, s), q) == XResult(i, len, s)
  {
    hide XResult, FResult, MemResult;
  }

  lemma MaskedHeld(t: Tables, rd: Reg, a: Reg, b: Reg, s: State)
    requires KnownTrue(t, s) && AndMove(t, rd, a, b).Advance? && AndMove(t, rd, a, b).stage == And55
    ensures var m := AndMove(t, rd, a, b);
            BitWord(BAnd, X(s, a), X(s, b)) == BitWord(BAnd, X(s, m.one), M55(m.from.wide))
  {
    hide MaskMove, BitWord, M55, M33, M0F;
    AndCommutes(X(s, a), X(s, b));
  }

  /** What the first mask leaves of the register it is put on. */
  lemma MaskedRight(t: Tables, i: Insn, len: nat, s: State)
    requires KnownTrue(t, s) && MoveOf(t, i, len).Advance? && MoveOf(t, i, len).stage == And55
             && MoveOf(t, i, len).rd != 0
    ensures var m := MoveOf(t, i, len);
            X(Effect(i, len, s), m.rd) == BitWord(BAnd, X(s, m.one), M55(m.from.wide)) && Writes(i) == {m.rd}
  {
    hide KnownTrue, Effect, MoveOf, AndMove, BitWord, Wrap, M55, ArmMove;
    AdvanceShape(t, i, len);
    AluResult(i, len, s);
    if i.src.R? && i.op == And { MaskedHeld(t, i.rd, i.rs1, i.src.r, s); }
  }

  /** Half of 0 and 2 is 0 and 1, of 0 and 1 it is 0; the mask leaves 0 and 1 alone and
      makes 0 of 2. */
  lemma BringsNear(t: Tables, m: Move, i: Insn, len: nat, k: Marks, kept: bool, s: State, u: State)
    requires m == MoveOf(t, i, len) && (m.Open? || (m.Advance? && m.stage == And55)) && m.rd != 0
    requires KnownTrue(t, s) && KnownTrue(t, u)
    requires var from := if m.Open? then m.src else m.one; NearPair(X(s, from), X(u, from), kept)
    ensures NearPair(X(Effect(i, len, s), m.rd), X(Effect(i, len, u), m.rd), false)
  {
    hide KnownTrue, Effect, MoveOf, BitWord, M55;
    if m.Open? {
      OpenRight(t, i, len, s);
      OpenRight(t, i, len, u);
    } else {
      MaskedRight(t, i, len, s);
      MaskedRight(t, i, len, u);
      ByteMasks(m.from.wide, 0);
      ByteMasks(m.from.wide, 1);
      ByteMasks(m.from.wide, 2);
    }
  }

  /** A register the instruction writes. */
  lemma WrittenTracks(t: Tables, i: Insn, len: nat, k: Marks, r: Reg, kept: bool, s: State, u: State, q: Reg)
    requires PlainInsn(i) && KnownTrue(t, s) && KnownTrue(t, u) && Tracks(k, r, kept, s, u) && q in Writes(i)
    ensures var m := MoveOf(t, i, len);
            var x, y := X(Effect(i, len, s), q), X(Effect(i, len, u), q);
            if m.Constant? || Passes(k, i) then x == y
            else Brings(k, m) ==> NearPair(x, y, false)
  {
    hide MoveOf, KnownTrue, Effect, XResult, Reads, Writes;
    var m := MoveOf(t, i, len);
    OnlyDest(t, i, len, q);
    if m.Constant? {
      ConstantRight(t, i, len, s);
      ConstantRight(t, i, len, u);
    } else if Passes(k, i) {
      SameResult(i, len, s, u);
      WritesResult(i, len, s, q);
      WritesResult(i, len, u, q);
    } else if Brings(k, m) {
      var from := if m.Open? then m.src else m.one;
      BringsNear(t, m, i, len, k, kept && from == r, s, u);
    }
  }

  lemma TracksBeyond(t: Tables, i: Insn, len: nat, k: Marks, s: State, u: State)
    requires PlainInsn(i) && s.pc == u.pc && !Mark(k, MoveOf(t, i, len), i).beyond && s.f == u.f && s.mem == u.mem
    requires forall q: Reg :: q !in k.near + k.far ==> X(s, q) == X(u, q)
    ensures Effect(i, len, s).f == Effect(i, len, u).f && Effect(i, len, s).mem == Effect(i, len, u).mem
  {
    hide MoveOf, Effect, Reads, Writes;
    var m := MoveOf(t, i, len);
    if Brings(k, m) {
      if m.Open? { OpenShape(t, i, len); } else { AdvanceShape(t, i, len); }
    }
    if m.Constant? { ConstantBeyond(t, i, len); }
    SameBeyond(i, len, s, u);
  }

  lemma MarkTracks(t: Tables, i: Insn, len: nat, k: Marks, r: Reg, kept: bool, s: State, u: State)
    requires PlainInsn(i) && KnownTrue(t, s) && KnownTrue(t, u) && Tracks(k, r, kept, s, u)
    ensures Tracks(Mark(k, MoveOf(t, i, len), i), r, kept && r !in Writes(i), Effect(i, len, s), Effect(i, len, u))
  {
    hide MoveOf, KnownTrue, Effect, Reads, Writes, Brings, Passes;
    var l := Mark(k, MoveOf(t, i, len), i);
    if !l.beyond { TracksBeyond(t, i, len, k, s, u); }
    EffectKeeps(i, len, s, 0);
    EffectKeeps(i, len, u, 0);
    forall q: Reg | q !in l.far
      ensures var x, y := X(Effect(i, len, s), q), X(Effect(i, len, u), q);
              NearPair(x, y, kept && r !in Writes(i) && q == r) && (q !in l.near ==> x == y)
    {
      if q in Writes(i) {
        WrittenTracks(t, i, len, k, r, kept, s, u, q);
      } else {
        EffectKeeps(i, len, s, q);
        EffectKeeps(i, len, u, q);
      }
    }
  }

  /** All along the line, from any two such states. */
  lemma {:induction false} MarksTrack(p: Program, h: Word, r: Reg, a: Word, s: State, u: State)
    requires WellFormed(p) && OnLine(p, h, a) && KnownTrue(TablesAt(p, h), s) && KnownTrue(TablesAt(p, h), u)
    requires Tracks(Marks({r}, {}, false), r, true, s, u)
    ensures Tracks(MarksAt(p, h, r, a), r, Unwritten(p, h, r, a), Arrive(p, h, a, s), Arrive(p, h, a, u))
    decreases a
  {
    hide WellFormed, Resets, Prev, MoveOf, Effect, Writes, Mark, KnownTrue, Tracks;
    if a != h {
      BackOne(p, a);
      var b := Prev(p, a).value;
      var d := p.code[b];
      Placed(p, b);
      MarksTrack(p, h, r, b, s, u);
      LineIsTrue(p, h, b, s);
      LineIsTrue(p, h, b, u);
      MarkTracks(TablesAt(p, b), d.insn, d.len, MarksAt(p, h, r, b), r, Unwritten(p, h, r, b), Arrive(p, h, b, s),
                 Arrive(p, h, b, u));
      TracksAnyPc(MarksAt(p, h, r, a), r, Unwritten(p, h, r, a), Effect(d.insn, d.len, Arrive(p, h, b, s)),
                  Effect(d.insn, d.len, Arrive(p, h, b, u)), a);
    }
  }

  lemma TracksAnyPc(k: Marks, r: Reg, kept: bool, s: State, u: State, a: Word)
    requires Tracks(k, r, kept, s, u)
    ensures Tracks(k, r, kept, s.(pc := a), u.(pc := a))
  {
  }

  lemma WithTracks(p: Program, h: Word, r: Reg)
    requires WellFormed(p) && r != 0 && r !in TablesAt(p, h).known
    ensures Tracks(Marks({r}, {}, false), r, true, With(p, h, r, 0), With(p, h, r, 2))
  {
    hide WellFormed, TablesAt;
    WithHolds(p, h, r, 0);
    WithHolds(p, h, r, 2);
    hide X;
  }

  lemma ConstantBeyond(t: Tables, i: Insn, len: nat)
    requires MoveOf(t, i, len).Constant?
    ensures i.Alu? || Reads(i) == {}
  {
    hide Stepped, Merged, AndMove, SubMove, AddMove, MulMove, ShiftMove;
  }

  lemma OnlyDest(t: Tables, i: Insn, len: nat, q: Reg)
    requires PlainInsn(i) && q in Writes(i)
    ensures q == Dest(MoveOf(t, i, len)) && !MoveOf(t, i, len).Leave? && q != 0
  {
    hide MoveOf;
    MoveWrites(t, i, len);
    assert q != 0;
  }

  // ---- one subtraction ----

  /** What the closing shift leaves is the count of what stood in the source at `x`. */
  ghost predicate RightFrom(p: Program, a: Word, x: Word, s: State)
    requires ClosesAt(p, a)
  {
    CountAt(p, x, a, s) == Ones(if ClosedEntry(p, a).wide then 64 else 32, X(s, ClosedEntry(p, a).src))
  }

  /** Whatever the state is at `x` but for the constants known there. */
  ghost predicate AlwaysRight(p: Program, a: Word, x: Word)
    requires ClosesAt(p, a)
  {
    forall s: State :: KnownTrue(TablesAt(p, x), s) ==> RightFrom(p, a, x, s)
  }

  /** The source may hold anything at the shift. */
  predicate Free(p: Program, src: Reg, x: Word) {
    src != 0 && src !in TablesAt(p, x).known
  }

  predicate RestsOn(parts: seq<Part>, q: Part) {
    |parts| == 4 && forall k :: 0 <= k < 4 ==> parts[k] == q
  }

  /** A finding that rests on one subtraction. Between the shift and it nothing but
      opening shifts and first masks has had a part in making what the source comes to
      hold out of what the shift read. */
  ghost predicate OneSequence(p: Program, a: Word, q: Part) {
    && ClosesAt(p, a) && RestsOn(ClosedTrace(p, a).parts, q) && OnLine(p, q.start, q.taken)
    && var r := ClosedEntry(p, a).src; Free(p, r, q.start) && r !in MarksAt(p, q.start, r, q.taken).far
  }

  /** The line comes from the first shift the finding rests on. */
  lemma FollowsFrom(p: Program, a: Word, x: Word, s: State)
    requires ClosesAt(p, a) && KnownTrue(TablesAt(p, x), s)
    requires forall k :: 0 <= k < |ClosedTrace(p, a).parts| ==> x <= ClosedTrace(p, a).parts[k].start
    requires exists k :: 0 <= k < |ClosedTrace(p, a).parts| && x == ClosedTrace(p, a).parts[k].start
    ensures Follows(p, x, a, s)
  {
    hide TablesAt, TracesAt, OnLine, KnownTrue, Closes;
    ClosesShape(TablesAt(p, a), p.code[a].insn);
    LiesBehind(p, a, Closes(TablesAt(p, a), p.code[a].insn).value);
  }

  lemma OneCount(p: Program, a: Word, q: Part, s: State)
    requires WellFormed(p) && ClosesAt(p, a) && RestsOn(ClosedTrace(p, a).parts, q)
             && KnownTrue(TablesAt(p, q.start), s)
    ensures var e := ClosedEntry(p, a);
            && Follows(p, q.start, a, s)
            && CountAt(p, q.start, a, s) == Total(Span(e.wide), Four(Difference(p, q.start, e.src, e.wide, q, s)))
  {
    hide WellFormed, Closes, TablesAt, TracesAt, Total, Difference, Follows, KnownTrue, CountAt;
    var e, parts := ClosedEntry(p, a), ClosedTrace(p, a).parts;
    assert parts[0].start == q.start;
    FollowsFrom(p, a, q.start, s);
    CountIs(p, q.start, a, s);
    assert Differences(p, q.start, e.src, e.wide, parts, s) == Four(Difference(p, q.start, e.src, e.wide, q, s));
  }

  /** Written over between, the source gives another count from 0 or from 2. */
  lemma OverwrittenWrong(p: Program, a: Word, q: Part)
    requires WellFormed(p) && OneSequence(p, a, q) && !Unwritten(p, q.start, ClosedEntry(p, a).src, q.taken)
    ensures !AlwaysRight(p, a, q.start)
  {
    hide WellFormed, Closes, TablesAt, TracesAt, Total, Arrive, Odd, Unwritten, Ones, OnLine, RestsOn, CountAt,
         KnownTrue, With, MarksAt, Wrap, Follows;
    var h, r, wide := q.start, ClosedEntry(p, a).src, ClosedEntry(p, a).wide;
    var z, w := With(p, h, r, 0), With(p, h, r, 2);
    WithHolds(p, h, r, 0);
    WithHolds(p, h, r, 2);
    OneCount(p, a, q, z);
    OneCount(p, a, q, w);
    assert Arrive(p, h, h, z) == z && Arrive(p, h, h, w) == w by { ArriveHere(p, h, z); ArriveHere(p, h, w); }
    SmallOdd(wide);
    OnesOfTwo(wide);
    WithTracks(p, h, r);
    MarksTrack(p, h, r, q.taken, z, w);
    var u := X(Arrive(p, h, q.taken, z), r);
    var t: int := X(Arrive(p, h, q.taken, w), r);
    assert NearPair(u, t, false);
    WrapOfWord(u);
    assert Difference(p, h, r, wide, q, z) == Wrap(u - 0) && Difference(p, h, r, wide, q, w) == Wrap(t - 1);
    if RightFrom(p, a, h, z) {
      assert Total(Span(wide), Four(u)) == 0;
      OneTakenOff(wide, u);
      NothingCounted(wide);
      assert !RightFrom(p, a, h, w);
    }
  }

  lemma ArriveHere(p: Program, h: Word, s: State)
    ensures Arrive(p, h, h, s) == s
  {
  }

  lemma NothingCounted(wide: bool)
    ensures Total(Span(wide), Four(0)) == 0 && Wrap(1 - 1) == 0
  {
    forall k: nat ensures LaneSum(k, Span(wide), 0) == 0 { ZeroDigits(k, Span(wide)); }
    hide LaneSum;
  }

  /** One sequence counts right whatever its shift reads exactly when nothing writes its
      source between the shift and the subtraction from it. */
  lemma SourceMatters(p: Program, a: Word, q: Part)
    requires WellFormed(p) && OneSequence(p, a, q)
    ensures AlwaysRight(p, a, q.start) <==> Unwritten(p, q.start, ClosedEntry(p, a).src, q.taken)
  {
    hide WellFormed, Closes, TablesAt, TracesAt, Arrive, Unwritten, OnLine, RightFrom, KnownTrue, MarksAt;
    if Unwritten(p, q.start, ClosedEntry(p, a).src, q.taken) {
      forall s: State | KnownTrue(TablesAt(p, q.start), s) ensures RightFrom(p, a, q.start, s) { OneRight(p, a, q, s); }
    } else {
      OverwrittenWrong(p, a, q);
    }
  }

  lemma OneRight(p: Program, a: Word, q: Part, s: State)
    requires WellFormed(p) && OneSequence(p, a, q) && Unwritten(p, q.start, ClosedEntry(p, a).src, q.taken)
    requires KnownTrue(TablesAt(p, q.start), s)
    ensures RightFrom(p, a, q.start, s)
  {
    hide WellFormed, Closes, TablesAt, TracesAt, Arrive, OnLine, Ones, CountAt, Follows, KnownTrue, MarksAt;
    var e, parts := ClosedEntry(p, a), ClosedTrace(p, a).parts;
    OneCount(p, a, q, s);
    SteadyCount(p, q.start, a, s);
    assert First(parts) == q.start;
    assert Steady(p, e.src, parts) by { hide First; }
    ArriveHere(p, q.start, s);
  }

  // ---- the bits of one lane ----

  /** The set bits of pair `k` of a byte. */
  function PairAt(k: nat, v: nat): nat {
    match k
    case 0 => Ones(2, v)
    case 1 => Ones(2, v / 4)
    case 2 => Ones(2, v / 16)
    case _ => Ones(2, v / 64)
  }

  /** And of that pair in each of the low `n` bytes, added up. */
  function LanePairs(k: nat, n: nat, v: nat): nat {
    if n == 0 then 0 else PairAt(k, v) + LanePairs(k, n - 1, v / 256)
  }

  lemma PairedQuad(k: nat, m: nat, v: nat)
    requires m >= 4
    ensures Quad(k, Paired(m, v)) == PairAt(k, v) && Paired(m, v) / 256 == Paired(m - 4, v / 256)
  {
    hide Ones, Pairs, Above, Quad;
    FourPairs(m, v);
    FourDigits(Paired(m, v), Ones(2, v), Ones(2, v / 4), Ones(2, v / 16), Ones(2, v / 64), Paired(m - 4, v / 256));
    MatchQuad(k, Paired(m, v));
  }

  lemma MatchQuad(k: nat, s: nat)
    ensures k > 3 ==> Quad(k, s) == Quad(3, s)
  {
  }

  lemma {:induction false} PairedLanes(k: nat, n: nat, v: nat)
    ensures LaneSum(k, n, Paired(4 * n, v)) == LanePairs(k, n, v)
  {
    hide Paired, Quad, PairAt;
    if n > 0 {
      assert 4 * n - 4 == 4 * (n - 1);
      PairedQuad(k, 4 * n, v);
      PairedLanes(k, n - 1, v / 256);
    }
  }

  /** Digit `k` of stage one counts pair `k`. */
  lemma HalvedLanes(k: nat, wide: bool, v: Word)
    ensures LaneSum(k, Span(wide), Halved(wide, v)) == LanePairs(k, Span(wide), v)
  {
    hide Paired, Halved, LaneSum, LanePairs;
    StageOneIs(wide, v);
    PairedLanes(k, Span(wide), v);
  }

  /** Nothing writes the source between a shift and the subtraction of what it began. */
  predicate Clean(p: Program, src: Reg, parts: seq<Part>) {
    forall k :: 0 <= k < |parts| ==> Unwritten(p, parts[k].start, src, parts[k].taken)
  }

  lemma CleanDifference(p: Program, h: Word, src: Reg, wide: bool, q: Part, s: State)
    requires Unwritten(p, q.start, src, q.taken) && OnLine(p, h, q.start)
    ensures Difference(p, h, src, wide, q, s) == Halved(wide, X(Arrive(p, h, q.start, s), src))
  {
    hide Arrive, Unwritten, Odd, OnLine;
    UnwrittenKeeps(p, h, q.start, src, q.taken, s);
  }

  ghost function LaneBits(p: Program, h: Word, a: Word, k: nat, s: State): nat
    requires ClosesAt(p, a) && k < |ClosedTrace(p, a).parts|
  {
    LanePairs(k, Span(ClosedEntry(p, a).wide), X(Arrive(p, h, ClosedTrace(p, a).parts[k].start, s),
                                                 ClosedEntry(p, a).src))
  }

  /** Then the count has pair `k` of every byte from what the `k`-th of the shifts read. */
  lemma CleanCount(p: Program, h: Word, a: Word, s: State)
    requires WellFormed(p) && ClosesAt(p, a) && Clean(p, ClosedEntry(p, a).src, ClosedTrace(p, a).parts)
             && Follows(p, h, a, s)
    ensures |ClosedTrace(p, a).parts| == 4
    ensures CountAt(p, h, a, s) ==
            LaneBits(p, h, a, 0, s) + LaneBits(p, h, a, 1, s) + LaneBits(p, h, a, 2, s) + LaneBits(p, h, a, 3, s)
  {
    hide WellFormed, Closes, TablesAt, TracesAt, Arrive, Unwritten, LaneSum, LanePairs, Halved, Difference, CountAt,
         Follows;
    CountIs(p, h, a, s);
    var e, parts := ClosedEntry(p, a), ClosedTrace(p, a).parts;
    forall k: nat | k < 4
      ensures LaneSum(k, Span(e.wide), Difference(p, h, e.src, e.wide, parts[k], s)) == LaneBits(p, h, a, k, s)
    {
      PartBehind(p, h, a, s, k);
      CleanDifference(p, h, e.src, e.wide, parts[k], s);
      HalvedLanes(k, e.wide, X(Arrive(p, h, parts[k].start, s), e.src));
    }
  }

  // ---- two sequences ----

  /** The only shift that opens a sequence before `a` on its line is of `r` at `o`. */
  predicate OnlyOpening(p: Program, o: Word, r: Reg, a: Word)
    decreases a
  {
    Resets(p, a) ||
    var b := Prev(p, a).value;
    (MoveAt(p, b).Open? ==> b == o && MoveAt(p, b).src == r) && OnlyOpening(p, o, r, b)
  }

  /** No instruction from `x` on drops the sequences of `r`. */
  predicate Undropped(p: Program, x: Word, r: Reg, a: Word)
    decreases a
  {
    a == x ||
    (!Resets(p, a) &&
     var m := MoveAt(p, Prev(p, a).value);
     (m.Leave? || m.Advance? || m.rd != r) && Undropped(p, x, r, Prev(p, a).value))
  }

  ghost predicate NotDropped(p: Program, e: Entry, tr: Trace, a: Word) {
    Undropped(p, e.start, e.src, a) && forall k :: 0 <= k < |tr.parts| ==> Undropped(p, tr.parts[k].start, e.src, a)
  }

  lemma NotDroppedOn(p: Program, e: Entry, tr: Trace, a: Word)
    requires !Resets(p, a) && Prev(p, a).Some? && Prev(p, a).value in p.code && NotDropped(p, e, tr, Prev(p, a).value)
    requires var m := MoveAt(p, Prev(p, a).value); m.Leave? || m.Advance? || m.rd != e.src
    ensures NotDropped(p, e, tr, a)
  {
    hide Resets, Prev, MoveAt;
  }

  lemma TracedNotDropped(p: Program, t: Tables, tr: Traces, m: Move, len: nat, b: Word)
    requires m.Advance? && Continues(t, m) && FromThose(t, m)
    requires NotDropped(p, t.entry[m.one], TraceOf(tr, m.one), b)
             && NotDropped(p, t.entry[m.two], TraceOf(tr, m.two), b)
    ensures NotDropped(p, Written(m.from, m.rd, m.stage, len), Traced(tr, m, b), b)
  {
    hide Resets, Prev;
  }

  lemma OpenedNotDropped(p: Program, m: Move, len: nat, tr: Traces, b: Word)
    requires m.Open?
    ensures NotDropped(p, Opened(m.src, len, b), Traced(tr, m, b), b)
  {
  }

  lemma SurvivesDrop(t: Tables, m: Move, len: nat, a: Word, r: Reg)
    requires r in After(t, m, len, a).entry && !Sets(m, r)
    ensures m.Leave? || m.Advance? || m.rd != After(t, m, len, a).entry[r].src
  {
    hide Written;
  }

  /** Had one of them, the entry would be gone. */
  lemma {:induction false} NoneDropped(p: Program, a: Word, r: Reg)
    requires r in TablesAt(p, a).entry
    ensures NotDropped(p, TablesAt(p, a).entry[r], TraceOf(TracesAt(p, a), r), a)
    decreases a
  {
    hide Resets, Prev, MoveOf, Written, After, Traced, NotDropped, Continues;
    BackOne(p, a);
    var b := Prev(p, a).value;
    var t, tr, m, d := TablesAt(p, b), TracesAt(p, b), MoveAt(p, b), p.code[b];
    EntriesAfter(t, m, d.len, b, r);
    if m.Advance? && m.rd == r {
      StartsFrom(t, d.insn, d.len);
      Used(t, m);
      NoneDropped(p, b, m.one);
      NoneDropped(p, b, m.two);
      TracedNotDropped(p, t, tr, m, d.len, b);
      NotDroppedOn(p, Written(m.from, m.rd, m.stage, d.len), Traced(tr, m, b), a);
    } else if m.Open? && m.rd == r {
      OpenShape(t, d.insn, d.len);
      OpenedNotDropped(p, m, d.len, tr, b);
      NotDroppedOn(p, Opened(m.src, d.len, b), Traced(tr, m, b), a);
    } else {
      SurvivesDrop(t, m, d.len, b, r);
      NoneDropped(p, b, r);
      NotDroppedOn(p, t.entry[r], TraceOf(tr, r), a);
    }
  }

  lemma {:induction false} UndroppedBefore(p: Program, x: Word, r: Reg, y: Word, a: Word)
    requires Undropped(p, x, r, a) && OnLine(p, y, a) && x <= y
    ensures Undropped(p, x, r, y)
    decreases a
  {
    hide Resets, Prev, MoveAt;
    if y != a && a != x {
      BackOne(p, a);
      UndroppedBefore(p, x, r, y, Prev(p, a).value);
    } else if a == x {
      Backwards(p, y, a);
    }
  }

  /** Every entry before `a` began at the one opening. */
  ghost predicate FromOpening(p: Program, e: Entry, tr: Trace, o: Word, r: Reg, q: Reg) {
    && e.src == r && e.start == o && (e.stage == Shr1 ==> q != r)
    && forall k :: 0 <= k < |tr.parts| ==> tr.parts[k].start == o
  }

  lemma {:induction false} AllFromOpening(p: Program, a: Word, o: Word, r: Reg, q: Reg)
    requires q in TablesAt(p, a).entry && OnlyOpening(p, o, r, a)
    ensures FromOpening(p, TablesAt(p, a).entry[q], TraceOf(TracesAt(p, a), q), o, r, q)
    decreases a
  {
    hide Resets, Prev, MoveOf, Written, After, Traced, FromOpening, Continues;
    BackOne(p, a);
    var b := Prev(p, a).value;
    var t, tr, m, d := TablesAt(p, b), TracesAt(p, b), MoveAt(p, b), p.code[b];
    EntriesAfter(t, m, d.len, b, q);
    if m.Advance? && m.rd == q {
      StartsFrom(t, d.insn, d.len);
      Used(t, m);
      AllFromOpening(p, b, o, r, m.one);
      AllFromOpening(p, b, o, r, m.two);
      AdvanceFromOpening(p, t, tr, m, d.len, b, o, r);
    } else if m.Open? && m.rd == q {
      OpenShape(t, d.insn, d.len);
      OpenedFromOpening(p, m, d.len, tr, b, o, r);
    } else {
      AllFromOpening(p, b, o, r, q);
    }
  }

  lemma AdvanceFromOpening(p: Program, t: Tables, tr: Traces, m: Move, len: nat, b: Word, o: Word, r: Reg)
    requires m.Advance? && Continues(t, m) && FromThose(t, m)
    requires FromOpening(p, t.entry[m.one], TraceOf(tr, m.one), o, r, m.one)
             && FromOpening(p, t.entry[m.two], TraceOf(tr, m.two), o, r, m.two)
    ensures FromOpening(p, Written(m.from, m.rd, m.stage, len), Traced(tr, m, b), o, r, m.rd)
  {
  }

  lemma OpenedFromOpening(p: Program, m: Move, len: nat, tr: Traces, b: Word, o: Word, r: Reg)
    requires m.Open? && m.src != m.rd && b == o && m.src == r
    ensures FromOpening(p, Opened(m.src, len, b), Traced(tr, m, b), o, r, m.rd)
  {
  }

  lemma SetsWrites(t: Tables, i: Insn, len: nat)
    ensures var m := MoveOf(t, i, len); (m.Open? || m.Advance? || m.Constant?) && m.rd != 0 ==> Writes(i) == {m.rd}
  {
    hide MoveOf;
    var m := MoveOf(t, i, len);
    if m.Open? { OpenShape(t, i, len); }
    if m.Advance? { AdvanceShape(t, i, len); }
    if m.Constant? { ConstantDest(t, i, len); }
  }

  lemma SetsEntry(t: Tables, m: Move, len: nat, a: Word)
    ensures m.Open? || m.Advance? ==> m.rd in After(t, m, len, a).entry
    ensures m.Constant? ==> m.rd in After(t, m, len, a).known && After(t, m, len, a).known[m.rd] == m.v
  {
    hide Written;
  }

  /** What was written over without being dropped holds a stage of the sequence. */
  lemma {:induction false} WrittenHeld(p: Program, a: Word, o: Word, r: Reg)
    requires WellFormed(p) && OnlyOpening(p, o, r, a) && Undropped(p, o, r, a) && !Unwritten(p, o, r, a)
    ensures r in TablesAt(p, a).entry
    decreases a
  {
    hide WellFormed, Resets, Prev, MoveOf, Written, After;
    BackOne(p, a);
    var b := Prev(p, a).value;
    var t, m, d := TablesAt(p, b), MoveAt(p, b), p.code[b];
    Placed(p, b);
    if r in Writes(d.insn) {
      OnlyDest(t, d.insn, d.len, r);
      SetsEntry(t, m, d.len, b);
    } else {
      WrittenHeld(p, b, o, r);
      AllFromOpening(p, b, o, r, r);
      SetsWrites(t, d.insn, d.len);
      Survives(t, m, d.len, b, r);
    }
  }

  lemma Survives(t: Tables, m: Move, len: nat, a: Word, r: Reg)
    requires r in t.entry && t.entry[r].src == r && (m.Leave? || m.Advance? || m.rd != r)
    ensures r in After(t, m, len, a).entry
  {
    hide Written;
  }

  // ---- what the second of two sequences reads ----

  /** Both bits of pair `j`, and one of them. */
  function Three(j: nat): Word { match j case 0 => 3 case 1 => 12 case 2 => 48 case _ => 192 }

  function Unit(j: nat): Word { match j case 0 => 1 case 1 => 4 case 2 => 16 case _ => 64 }

  function Twice(j: nat): Word { match j case 0 => 2 case 1 => 8 case 2 => 32 case _ => 128 }

  /** One value, as a stage has it. */
  function Again(st: Stage, wide: bool, v: Word): Source {
    if Late(st) then Subs(seq(Uses(st), _ => Halved(wide, v))) else One(v)
  }

  /** The stages of `Three(j)`, up to the product. */
  function Left(st: Stage, j: nat): Word {
    match st
    case And55 => Unit(j)
    case Stage1 => Twice(j)
    case And33 => if j == 0 then 2 else if j == 2 then 32 else 0
    case Shr2 => Twice(j) / 4
    case And33S => if j == 1 then 2 else if j == 3 then 32 else 0
    case Stage2 => if j < 2 then 2 else 32
    case Shr4 => if j < 2 then 0 else 2
    case Sum4 => if j < 2 then 2 else 34
    case _ => 2
  }

  lemma OddIs(wide: bool, x: Word, h: Word)
    requires x < 256 && h == x / 2 % 2 + 4 * (x / 2 / 4 % 2) + 16 * (x / 2 / 16 % 2) + 64 * (x / 2 / 64 % 2)
    ensures Odd(wide, x) == h
  {
    ByteMasks(wide, x / 2);
    hide BitWord, M55;
  }

  lemma ThreeHalved(wide: bool, j: nat)
    requires j < 4
    ensures Odd(wide, Three(j)) == Unit(j) && Halved(wide, Three(j)) == Twice(j)
  {
    hide Odd;
    match j {
      case 0 => OddIs(wide, 3, 1);
      case 1 => OddIs(wide, 12, 4);
      case 2 => OddIs(wide, 48, 16);
      case _ => OddIs(wide, 192, 64);
    }
  }

  lemma MasksAre(wide: bool, x: Word, low: Word, high: Word)
    requires x < 256 && low == x % 4 + 16 * (x / 16 % 4) && high == x / 4 % 4 + 16 * (x / 4 / 16 % 4)
    ensures Low33(wide, x) == low && High33(wide, x) == high
  {
    ByteMasks(wide, x);
    ByteMasks(wide, x / 4);
    hide BitWord, M33;
  }

  lemma OctetMask(wide: bool, x: Word)
    requires x < 256
    ensures BitWord(BAnd, x, M0F(wide)) == x % 16
  {
    ByteMasks(wide, x);
  }

  lemma ThreeMasked(wide: bool, j: nat)
    requires j < 4
    ensures Low33(wide, Twice(j)) == Left(And33, j) && High33(wide, Twice(j)) == Left(And33S, j)
    ensures Left(And33, j) + Left(And33S, j) == Left(Stage2, j)
    ensures Left(Stage2, j) / 16 == Left(Shr4, j) && Left(Sum4, j) == Left(Stage2, j) + Left(Shr4, j)
    ensures BitWord(BAnd, Left(Sum4, j), M0F(wide)) == 2
  {
    hide Low33, High33, BitWord, M0F;
    match j {
      case 0 => MasksAre(wide, 2, 2, 0); OctetMask(wide, 2);
      case 1 => MasksAre(wide, 8, 0, 2); OctetMask(wide, 2);
      case 2 => MasksAre(wide, 32, 32, 0); OctetMask(wide, 34);
      case _ => MasksAre(wide, 128, 0, 32); OctetMask(wide, 34);
    }
  }

  lemma AgainIs(st: Stage, wide: bool, v: Word)
    ensures Fed(st, Again(st, wide, v))
    ensures Late(st) ==> Again(st, wide, v).s == seq(Uses(st), _ => Halved(wide, v))
    ensures var h, x := Halved(wide, v), StageValue(st, wide, Again(st, wide, v));
            match st
            case Shr1 => x == v / 2
            case And55 => x == Odd(wide, v)
            case Stage1 => x == h
            case And33 => x == Low33(wide, h)
            case Shr2 => x == h / 4
            case And33S => x == High33(wide, h)
            case Stage2 => x == Nibble(wide, h, h)
            case Shr4 => x == Nibble(wide, h, h) / 16
            case Sum4 => x == Sum16(wide, Four(h))
            case Stage3 => x == Octet(wide, Four(h))
            case Product => x == Wrap(Octet(wide, Four(h)) * M01(wide))
  {
    hide Odd, Low33, High33, Nibble, Sum16, Octet, Wrap, M01;
    var h := Halved(wide, v);
    assert seq(4, _ => h) == Four(h);
  }

  lemma LeftAre(j: nat)
    ensures Left(And55, j) == Unit(j) && Left(Stage1, j) == Twice(j) && Left(Shr2, j) == Twice(j) / 4
            && Left(Stage3, j) == 2
    ensures forall st :: Left(st, j) < 256
  {
  }

  lemma SameSums(wide: bool, h: Word, t: Word, u: Word)
    requires Wrap(Low33(wide, h) + High33(wide, h)) == t && Wrap(t + t / 16) == u
    ensures Nibble(wide, h, h) == t && Sum16(wide, Four(h)) == u && Octet(wide, Four(h)) == BitWord(BAnd, u, M0F(wide))
  {
    hide Low33, High33, BitWord, M0F, Wrap;
  }

  lemma ThreeSums(wide: bool, j: nat)
    requires j < 4
    ensures var h := Twice(j);
            && Nibble(wide, h, h) == Left(Stage2, j) && Sum16(wide, Four(h)) == Left(Sum4, j)
            && Octet(wide, Four(h)) == 2 && Left(Stage2, j) / 16 == Left(Shr4, j)
  {
    ThreeMasked(wide, j);
    LeftAre(j);
    hide Low33, High33, BitWord, M0F, Twice, Wrap, Left, Octet, Nibble, Sum16;
    WrapOfWord(Left(Stage2, j));
    WrapOfWord(Left(Sum4, j));
    SameSums(wide, Twice(j), Left(Stage2, j), Left(Sum4, j));
  }

  lemma DoubleOnes(wide: bool)
    ensures Wrap(2 * M01(wide)) == 2 * M01(wide)
  {
  }

  lemma ThreeStage(st: Stage, wide: bool, j: nat)
    requires st != Shr1 && j < 4
    ensures Fed(st, Again(st, wide, Three(j)))
    ensures StageValue(st, wide, Again(st, wide, Three(j))) == if st == Product then 2 * M01(wide) else Left(st, j)
  {
    ThreeHalved(wide, j);
    ThreeMasked(wide, j);
    ThreeSums(wide, j);
    LeftAre(j);
    AgainIs(st, wide, Three(j));
    DoubleOnes(wide);
    hide *;
  }

  // ---- their lanes ----

  lemma {:induction false} ZeroLanes(k: nat, n: nat)
    ensures LanePairs(k, n, 0) == 0
  {
    if n > 0 {
      ZeroPair(k);
      ZeroLanes(k, n - 1);
    }
  }

  lemma ZeroPair(k: nat)
    ensures PairAt(k, 0) == 0
  {
    NoneSet(2);
  }

  lemma SmallLanes(k: nat, n: nat, v: Word)
    requires v < 256 && n > 0
    ensures LanePairs(k, n, v) == PairAt(k, v)
  {
    ZeroLanes(k, n - 1);
    hide PairAt;
  }

  lemma TwoBits(v: nat)
    ensures Ones(2, v) == v % 2 + v / 2 % 2
  {
    OnesOf(v);
  }

  /** Both bits of a pair are in that pair. */
  lemma ThreeLanes(k: nat, j: nat)
    requires j < 4 && k < 4
    ensures PairAt(k, Three(j)) == if k == j then 2 else 0
  {
    forall v: nat ensures Ones(2, v) == v % 2 + v / 2 % 2 { TwoBits(v); }
    hide Ones;
  }

  lemma PairIs(k: nat, v: nat)
    ensures PairAt(k, v) == match k
                            case 0 => v % 2 + v / 2 % 2
                            case 1 => v / 4 % 2 + v / 8 % 2
                            case 2 => v / 16 % 2 + v / 32 % 2
                            case _ => v / 64 % 2 + v / 128 % 2
  {
    TwoBits(v);
    TwoBits(v / 4);
    TwoBits(v / 16);
    TwoBits(v / 64);
    hide Ones;
    assert v / 4 / 2 == v / 8 && v / 16 / 2 == v / 32 && v / 64 / 2 == v / 128;
  }

  lemma UnitLane(k: nat, j: nat)
    requires j < 4 && k < 4
    ensures PairAt(k, Unit(j)) == if k == j then 1 else 0
  {
    hide PairAt;
    PairIs(k, Unit(j));
  }

  lemma TwiceLane(k: nat, j: nat)
    requires j < 4 && k < 4
    ensures PairAt(k, Twice(j)) == if k == j then 1 else 0
  {
    hide PairAt;
    PairIs(k, Twice(j));
  }

  lemma TwoLanes(k: nat)
    requires k < 4
    ensures PairAt(k, 34) == (if k == 0 || k == 2 then 1 else 0) && PairAt(k, 0) == 0
  {
    forall v: nat ensures Ones(2, v) == v % 2 + v / 2 % 2 { TwoBits(v); }
    hide Ones;
  }

  /** A stage is one bit, two bits two pairs apart, or none. */
  lemma LeftIs(st: Stage, j: nat)
    requires st != Shr1 && st != Product && j < 4
    ensures Left(st, j) == 0 || Left(st, j) == Unit(j) || Left(st, j) == Twice(j)
            || (j > 0 && Left(st, j) == Twice(j - 1)) || (j > 1 && (Left(st, j) == 2 || Left(st, j) == 34))
               || Left(st, j) == Twice(0)
  {
  }

  /** No stage but the product has two bits in a pair, nor any above the pair it came
      from. */
  lemma LeftLanes(st: Stage, k: nat, j: nat)
    requires st != Shr1 && st != Product && j <= k < 4
    ensures PairAt(k, Left(st, j)) <= 1 && (j < k ==> PairAt(k, Left(st, j)) == 0)
  {
    LeftIs(st, j);
    UnitLane(k, j);
    TwiceLane(k, j);
    TwiceLane(k, 0);
    if j > 0 { TwiceLane(k, j - 1); }
    TwoLanes(k);
    assert Twice(0) == 2;
    hide PairAt, Left, Unit, Twice;
  }

  lemma TwosByte(k: nat, v: nat)
    ensures PairAt(k, 256 * v + 2) == if k == 0 then 1 else PairAt(k, 256 * v)
  {
    TwoBits(256 * v + 2);
    hide Ones;
    if k != 0 {
      DivModUnique(256 * v + 2, 4, 64 * v, 2);
      DivModUnique(256 * v + 2, 16, 16 * v, 2);
      DivModUnique(256 * v + 2, 64, 4 * v, 2);
    }
  }

  lemma HighByte(k: nat, v: nat)
    ensures k > 0 ==> PairAt(k, 256 * v) == 0
  {
    TwoBits(64 * v);
    TwoBits(16 * v);
    TwoBits(4 * v);
    hide Ones;
    DivModUnique(256 * v, 4, 64 * v, 0);
    DivModUnique(256 * v, 16, 16 * v, 0);
    DivModUnique(256 * v, 64, 4 * v, 0);
    Even(32 * v);
    Even(8 * v);
    Even(2 * v);
  }

  lemma Even(v: nat)
    ensures 2 * v % 2 == 0 && 2 * v / 2 == v
  {
  }

  lemma {:induction false} TwosLanes(k: nat, n: nat, m: nat, v: nat)
    requires v == 2 * Times(m, 1)
    ensures LanePairs(k, n, v) == if k > 0 then 0 else if n < m then n else m
  {
    hide PairAt;
    if n > 0 {
      if m == 0 {
        ZeroLanes(k, n);
      } else {
        var u := 2 * Times(m - 1, 1);
        assert v == 2 + 256 * u;
        TwosByte(k, u);
        HighByte(k, u);
        DivModUnique(v, 256, u, 2);
        TwosLanes(k, n - 1, m - 1, u);
      }
    }
  }

  lemma ManyOnes(wide: bool)
    ensures M01(wide) == Times(Span(wide), 1)
  {
    assert Times(4, 1) == 0x0101_0101;
    assert Times(8, 1) == 0x0101_0101_0101_0101;
  }

  /** Whatever stage stands in the source when it is read again, pair `j` does not come
      out as two, and none above it as any. */
  lemma AgainLanes(st: Stage, was: bool, wide: bool, k: nat, j: nat)
    requires st != Shr1 && j <= k < 4
    ensures Fed(st, Again(st, was, Three(j)))
    ensures var c := LanePairs(k, Span(wide), StageValue(st, was, Again(st, was, Three(j))));
            c != 2 && (j < k ==> c == 0)
  {
    hide LanePairs, PairAt, StageValue, Again;
    ThreeStage(st, was, j);
    if st == Product {
      ManyOnes(was);
      TwosLanes(k, Span(wide), Span(was), 2 * M01(was));
    } else {
      LeftAre(j);
      SmallLanes(k, Span(wide), Left(st, j));
      LeftLanes(st, k, j);
    }
  }

  // ---- two sequences of one register ----

  ghost predicate Starts(parts: seq<Part>, o1: Word, o2: Word) {
    && |parts| == 4 && (forall k :: 0 <= k < 4 ==> parts[k].start == o1 || parts[k].start == o2)
    && (exists k :: 0 <= k < 4 && parts[k].start == o1) && (exists k :: 0 <= k < 4 && parts[k].start == o2)
  }

  /** A finding joined from two sequences of one source, every subtraction from what its
      own shift read. The first is the only one begun on its line before the second, and
      where that left a stage in the source its subtractions too are from what it read. */
  ghost predicate TwoSequences(p: Program, a: Word, o1: Word, o2: Word) {
    && ClosesAt(p, a) && Starts(ClosedTrace(p, a).parts, o1, o2)
       && Clean(p, ClosedEntry(p, a).src, ClosedTrace(p, a).parts)
    && o1 < o2 && OnLine(p, o1, o2) && Free(p, ClosedEntry(p, a).src, o1)
       && OnlyOpening(p, o1, ClosedEntry(p, a).src, o2)
    && var r := ClosedEntry(p, a).src;
       (r in TablesAt(p, o2).entry ==>
          !TraceOf(TracesAt(p, o2), r).lost && Clean(p, r, TraceOf(TracesAt(p, o2), r).parts))
  }

  /** What the second shift reads: a stage of what the first did. */
  lemma SecondValue(p: Program, o1: Word, o2: Word, r: Reg, s: State)
    requires WellFormed(p) && r in TablesAt(p, o2).entry && OnlyOpening(p, o1, r, o2)
    requires OnLine(p, o1, o2) && KnownTrue(TablesAt(p, o1), s)
    requires !TraceOf(TracesAt(p, o2), r).lost && Clean(p, r, TraceOf(TracesAt(p, o2), r).parts)
    ensures var e, v := TablesAt(p, o2).entry[r], X(s, r);
            && e.stage != Shr1 && Fed(e.stage, Again(e.stage, e.wide, v))
            && X(Arrive(p, o1, o2, s), r) == StageValue(e.stage, e.wide, Again(e.stage, e.wide, v))
  {
    hide WellFormed, TablesAt, TracesAt, OnlyOpening, Arrive, Unwritten, KnownTrue, StageValue, Difference, Halved;
    var e, tr := TablesAt(p, o2).entry[r], TraceOf(TracesAt(p, o2), r);
    AllFromOpening(p, o2, o1, r, r);
    LineIsTrue(p, o1, o2, s);
    assert EntryTrue(p, o1, e, tr, r, o2, s);
    ArriveHere(p, o1, s);
    var v := X(s, r);
    AgainIs(e.stage, e.wide, v);
    forall k | 0 <= k < |tr.parts| ensures Difference(p, o1, r, e.wide, tr.parts[k], s) == Halved(e.wide, v) {
      CleanDifference(p, o1, r, e.wide, tr.parts[k], s);
    }
    assert SourceAt(p, o1, e, tr, s) == Again(e.stage, e.wide, v) by {
      if Late(e.stage) { assert Differences(p, o1, r, e.wide, tr.parts, s) == Again(e.stage, e.wide, v).s; }
    }
  }

  /** The source has been written over, without being dropped, when the second shift
      reads it: it holds a stage of the first sequence. */
  lemma SecondHeld(p: Program, a: Word, o1: Word, o2: Word)
    requires WellFormed(p) && TwoSequences(p, a, o1, o2) && !Unwritten(p, o1, ClosedEntry(p, a).src, o2)
    ensures ClosedEntry(p, a).src in TablesAt(p, o2).entry
  {
    hide WellFormed, Closes, TablesAt, TracesAt, OnlyOpening, Unwritten, OnLine, Clean, Undropped;
    var c := Closes(TablesAt(p, a), p.code[a].insn).value;
    var e, parts := ClosedEntry(p, a), ClosedTrace(p, a).parts;
    ClosesShape(TablesAt(p, a), p.code[a].insn);
    NoneDropped(p, a, c);
    LiesBehind(p, a, c);
    var k :| 0 <= k < 4 && parts[k].start == o1;
    var l :| 0 <= l < 4 && parts[l].start == o2;
    assert Undropped(p, o1, e.src, a) && OnLine(p, o2, a);
    UndroppedBefore(p, o1, e.src, o2, a);
    WrittenHeld(p, o2, o1, e.src);
  }

  /** The first place that is of the second sequence. */
  lemma FirstOfSecond(parts: seq<Part>, o1: Word, o2: Word) returns (j: nat)
    requires Starts(parts, o1, o2) && o1 != o2
    ensures j < 4 && parts[j].start == o2 && forall k :: 0 <= k < j ==> parts[k].start == o1
  {
    j := if parts[0].start == o2 then 0 else if parts[1].start == o2 then 1 else if parts[2].start == o2 then 2 else 3;
  }

  lemma OnesOfThree(wide: bool, j: nat)
    requires j < 4
    ensures Ones(8 * Span(wide), Three(j)) == 2
    ensures forall k: nat :: k < 4 ==> LanePairs(k, Span(wide), Three(j)) == if k == j then 2 else 0
  {
    hide Ones, Three, Halved, LaneSum, LanePairs, PairAt;
    assert Three(j) < 256 by { ThreeSmall(j); }
    forall k: nat | k < 4
      ensures LanePairs(k, Span(wide), Three(j)) == if k == j then 2 else 0
      ensures LaneSum(k, Span(wide), Halved(wide, Three(j))) == LanePairs(k, Span(wide), Three(j))
    {
      SmallLanes(k, Span(wide), Three(j));
      ThreeLanes(k, j);
      HalvedLanes(k, wide, Three(j));
    }
    OneTotal(wide, Three(j));
  }

  lemma ThreeSmall(j: nat)
    ensures Three(j) < 256
  {
  }

  /** The line comes from the first of the two shifts. */
  lemma FromFirst(p: Program, a: Word, o1: Word, o2: Word, s: State)
    requires TwoSequences(p, a, o1, o2) && KnownTrue(TablesAt(p, o1), s)
    ensures Follows(p, o1, a, s) && |ClosedTrace(p, a).parts| == 4
  {
    hide TablesAt, TracesAt, OnlyOpening, OnLine, Clean, Closes, KnownTrue, Follows;
    FollowsFrom(p, a, o1, s);
  }

  /** One place of the finding, both bits of the pair that is first of the second
      sequence standing in the source. */
  lemma MixedLane(p: Program, a: Word, o1: Word, o2: Word, j: nat, k: nat, s: State)
    requires WellFormed(p) && TwoSequences(p, a, o1, o2) && !Unwritten(p, o1, ClosedEntry(p, a).src, o2)
    requires j < 4 && k < 4 && ClosedTrace(p, a).parts[j].start == o2
    requires KnownTrue(TablesAt(p, o1), s) && X(s, ClosedEntry(p, a).src) == Three(j)
    requires forall l :: 0 <= l < j ==> ClosedTrace(p, a).parts[l].start == o1
    ensures |ClosedTrace(p, a).parts| == 4 && (if k == j then LaneBits(p, o1, a, k, s) != 2
                                               else LaneBits(p, o1, a, k, s) == 0)
  {
    hide WellFormed, Closes, TablesAt, TracesAt, OnlyOpening, Unwritten, OnLine, Clean, Arrive, LanePairs, StageValue,
         Again, Three, KnownTrue;
    var r, wide, parts := ClosedEntry(p, a).src, ClosedEntry(p, a).wide, ClosedTrace(p, a).parts;
    ArriveHere(p, o1, s);
    OnesOfThree(wide, j);
    assert parts[k].start == o1 || parts[k].start == o2;
    if parts[k].start == o2 {
      SecondHeld(p, a, o1, o2);
      SecondValue(p, o1, o2, r, s);
      var e := TablesAt(p, o2).entry[r];
      AgainLanes(e.stage, e.wide, wide, k, j);
    }
  }

  lemma MixedWrong(p: Program, a: Word, o1: Word, o2: Word)
    requires WellFormed(p) && TwoSequences(p, a, o1, o2) && !Unwritten(p, o1, ClosedEntry(p, a).src, o2)
    ensures !AlwaysRight(p, a, o1)
  {
    hide WellFormed, Closes, TablesAt, TracesAt, OnlyOpening, Unwritten, OnLine, Arrive, Ones, LaneBits, CountAt,
         Three, With, KnownTrue, Follows;
    var r, wide, parts := ClosedEntry(p, a).src, ClosedEntry(p, a).wide, ClosedTrace(p, a).parts;
    var j := FirstOfSecond(parts, o1, o2);
    var s := With(p, o1, r, Three(j));
    WithHolds(p, o1, r, Three(j));
    FromFirst(p, a, o1, o2, s);
    CleanCount(p, o1, a, s);
    forall k: nat | k < 4 ensures if k == j then LaneBits(p, o1, a, k, s) != 2 else LaneBits(p, o1, a, k, s) == 0 {
      MixedLane(p, a, o1, o2, j, k, s);
    }
    OnesOfThree(wide, j);
    assert !RightFrom(p, a, o1, s);
  }

  lemma {:induction false} FirstLeast(parts: seq<Part>, o: Word)
    requires parts != [] && (forall k :: 0 <= k < |parts| ==> o <= parts[k].start)
    ensures o <= First(parts) && ((exists k :: 0 <= k < |parts| && parts[k].start == o) ==> First(parts) == o)
  {
    if |parts| > 1 {
      var rest := parts[1..];
      FirstLeast(rest, o);
      forall k | 0 <= k < |parts| && parts[k].start == o && k > 0
        ensures exists l :: 0 <= l < |rest| && rest[l].start == o
      {
        assert rest[k - 1] == parts[k];
      }
    }
  }

  lemma FirstIs(parts: seq<Part>, o1: Word, o2: Word)
    requires Starts(parts, o1, o2) && o1 < o2
    ensures First(parts) == o1
  {
    hide First;
    FirstLeast(parts, o1);
  }

  /** A finding joined from two sequences of one source counts right whatever the first
      shift reads exactly when nothing writes the source between the two shifts. */
  lemma HalvesMatter(p: Program, a: Word, o1: Word, o2: Word)
    requires WellFormed(p) && TwoSequences(p, a, o1, o2)
    ensures AlwaysRight(p, a, o1) <==> Unwritten(p, o1, ClosedEntry(p, a).src, o2)
  {
    hide WellFormed, Closes, TablesAt, TracesAt, OnlyOpening, OnLine, RightFrom, KnownTrue;
    if Unwritten(p, o1, ClosedEntry(p, a).src, o2) {
      forall s: State | KnownTrue(TablesAt(p, o1), s) ensures RightFrom(p, a, o1, s) { JoinedRight(p, a, o1, o2, s); }
    } else {
      MixedWrong(p, a, o1, o2);
    }
  }

  lemma JoinedRight(p: Program, a: Word, o1: Word, o2: Word, s: State)
    requires WellFormed(p) && TwoSequences(p, a, o1, o2) && Unwritten(p, o1, ClosedEntry(p, a).src, o2)
    requires KnownTrue(TablesAt(p, o1), s)
    ensures RightFrom(p, a, o1, s)
  {
    hide WellFormed, Closes, TablesAt, TracesAt, OnlyOpening, OnLine, Ones, CountAt, Arrive, First, KnownTrue, Follows;
    var e, parts := ClosedEntry(p, a), ClosedTrace(p, a).parts;
    FirstIs(parts, o1, o2);
    FromFirst(p, a, o1, o2, s);
    assert Steady(p, e.src, parts) by {
      forall k | 0 <= k < |parts| ensures Unwritten(p, o1, e.src, parts[k].start) {
        assert parts[k].start == o1 || parts[k].start == o2;
      }
    }
    SteadyCount(p, o1, a, s);
    ArriveHere(p, o1, s);
  }

  // ---- why what it read, and no stage of it ----

  lemma {:induction false} NoOddLanes(n: nat, x: nat)
    ensures Lanes(n, 2, 1, Lanes(n, 2, 1, x) / 2) == 0
  {
    hide Lanes;
    if n == 0 {
      NoLanes(2, 1, x);
      NoLanes(2, 1, Lanes(0, 2, 1, x) / 2);
    } else {
      var rest := Lanes(n - 1, 2, 1, x / 4);
      LanesIs(n, x);
      Doubled(x % 2, rest);
      LanesIs(n, 2 * rest);
      Doubled(0, rest);
      NoOddLanes(n - 1, x / 4);
    }
  }

  lemma Doubled(b: nat, r: nat)
    requires b <= 1
    ensures (b + 4 * r) / 2 == 2 * r && 2 * r % 2 == 0 && 2 * r / 4 == r / 2
  {
    DivModUnique(b + 4 * r, 2, 2 * r, b);
  }

  /** Of a value that is a stage already the condition would be too strong: stage one of
      what the first mask leaves is that value, so that putting it into the source changes
      nothing. */
  lemma MaskedAlready(wide: bool, v: Word)
    ensures Halved(wide, Odd(wide, v)) == Odd(wide, v)
  {
    hide Lanes, M55, BitWord;
    var x := Odd(wide, v);
    Masks(wide, v / 2);
    Masks(wide, x / 2);
    NoOddLanes(4 * Span(wide), v / 2);
    WrapOfWord(x);
  }
}
