/** All findings of a scan for mergeable stack adjustments carried out at once. */
module SpTogether {
  import opened Words
  import opened Machine
  import opened Sweep
  import opened Deletion
  import opened DeletionChecks
  import opened SpShift
  import opened SpRuns
  import opened SpFindings
  import opened SpScan

  type Deltas = seq<map<int, int>>

  predicate Within(p: Program, f: SpFinding, c: int) {
    f.at <= c < FindingEnd(p, f)
  }

  predicate Inside(p: Program, f: SpFinding, c: int) {
    f.at < c < FindingEnd(p, f)
  }

  ghost predicate AllGenuine(p: Program, found: seq<SpFinding>) {
    forall f :: f in found ==> Genuine(p, f)
  }

  // ---- stretches that share no adjustment share no address ----

  lemma SeamHoldsAll(p: Program, a: Word, b: Word)
    requires WellFormed(p) && a in p.code && b in p.code && b == a + p.code[a].len
    ensures HoldsAll(p, a, Wrap(b + p.code[b].len), [a, b])
  {
    hide WellFormed, SpAdjust;
    Placed(p, b);
    Placed(p, a);
    assert Wrap(b + p.code[b].len) == b + p.code[b].len;
    forall c | c in p.code && a <= c < b + p.code[b].len ensures c in [a, b] {
      Apart(p, a, c);
      Apart(p, b, c);
    }
  }

  /** A finding begins with an adjustment, and counts all of its stretch. */
  lemma FindingHoldsAll(p: Program, f: SpFinding)
    requires WellFormed(p) && Genuine(p, f)
    ensures HoldsAll(p, f.at, FindingEnd(p, f), Adjustments(f))
    ensures f.at in Adjustments(f) && f.at in p.code && IsAdjust(p.code[f.at].insn) && f.at < FindingEnd(p, f)
  {
    hide WellFormed, HoldsAll, SignOf, SpAdjust, Accounted, Risen, Walked, AllFit, AccInCode;
    match f {
      case Pushing(a, w) =>
        var at :| PushSoFar(p, a, at, w);
        PushHoldsAll(p, a, at, w);
      case Releasing(a, w) =>
        var at :| ReleaseSoFar(p, a, at, w);
        ReleaseHoldsAll(p, a, at, w);
        ReleaseBegins(p, a, at, w);
      case Seam(a, b) =>
        PairRises(p, a);
        PairFalls(p, a);
        SeamHoldsAll(p, a, b);
        Placed(p, b);
        assert Wrap(b + p.code[b].len) == b + p.code[b].len;
    }
  }

  lemma ReleaseBegins(p: Program, a: Word, at: Word, w: Releases)
    requires ReleaseSoFar(p, a, at, w)
    ensures a in w.run.adj && a in p.code && SpAdjust(p.code[a].insn) > 0 && a < w.run.end
  {
    hide Risen, Walked, SpAdjust;
  }

  lemma Apart2(p: Program, f: SpFinding, g: SpFinding, c: int)
    requires WellFormed(p) && Genuine(p, f) && Genuine(p, g) && Disjoint(f, g)
    ensures !(Within(p, f, c) && Within(p, g, c))
  {
    hide WellFormed, Genuine, SpAdjust, FindingEnd, Adjustments;
    FindingHoldsAll(p, f);
    FindingHoldsAll(p, g);
    var x := if f.at < g.at then g.at else f.at;
    assert Within(p, f, c) && Within(p, g, c) ==> Shared(f, g, x);
    assert !Shared(f, g, x);
  }

  ghost predicate OneEach(p: Program, found: seq<SpFinding>) {
    forall j, k, c :: 0 <= j < k < |found| ==> !(Within(p, found[j], c) && Within(p, found[k], c))
  }

  /** No address is in two stretches. */
  lemma StretchesApart(p: Program, found: seq<SpFinding>)
    requires WellFormed(p) && AllGenuine(p, found) && AllDisjoint(found)
    ensures OneEach(p, found)
  {
    hide WellFormed, Genuine, Disjoint, Within;
    forall j, k, c | 0 <= j < k < |found| ensures !(Within(p, found[j], c) && Within(p, found[k], c)) {
      Apart2(p, found[j], found[k], c);
    }
  }

  // ---- the program with all of them carried out ----

  function CodeAt(p: Program, found: seq<SpFinding>, c: Word): Decoded
    requires c in p.code
  {
    if found == [] then p.code[c]
    else if Within(p, found[0], c) then Apply(p, FindingEdits(p, found[0])).code[c]
    else CodeAt(p, found[1..], c)
  }

  function Together(p: Program, found: seq<SpFinding>): Program {
    p.(code := map c | c in p.code :: CodeAt(p, found, c))
  }

  lemma {:induction false} CodeIs(p: Program, found: seq<SpFinding>, c: Word, k: nat)
    requires OneEach(p, found) && c in p.code && k < |found| && Within(p, found[k], c)
    ensures CodeAt(p, found, c) == Apply(p, FindingEdits(p, found[k])).code[c]
  {
    hide Within, FindingEdits, Apply;
    if k > 0 {
      assert !Within(p, found[0], c);
      assert OneEach(p, found[1..]) by { OneEachRest(p, found); }
      CodeIs(p, found[1..], c, k - 1);
    }
  }

  lemma OneEachRest(p: Program, found: seq<SpFinding>)
    requires OneEach(p, found) && found != []
    ensures OneEach(p, found[1..])
  {
    hide Within;
  }

  lemma {:induction false} CodeElsewhere(p: Program, found: seq<SpFinding>, c: Word)
    requires c in p.code && forall k :: 0 <= k < |found| ==> !Within(p, found[k], c)
    ensures CodeAt(p, found, c) == p.code[c]
  {
    hide Within;
    if found != [] {
      CodeElsewhere(p, found[1..], c);
    }
  }

  // ---- the runs ----

  ghost predicate AllRestack(p: Program, found: seq<SpFinding>, deltas: Deltas) {
    |deltas| == |found| && forall k :: 0 <= k < |found| ==> Restackable(p, found[k], deltas[k])
  }

  lemma {:induction false} DeltasFor(p: Program, found: seq<SpFinding>) returns (deltas: Deltas)
    requires WellFormed(p) && AllGenuine(p, found)
    ensures AllRestack(p, found, deltas)
  {
    hide WellFormed, Genuine, Restackable;
    if found == [] {
      deltas := [];
    } else {
      var rest := DeltasFor(p, found[1..]);
      var delta := GenuineRestacks(p, found[0]);
      deltas := [delta] + rest;
    }
  }

  /** How far sp is off at `c`: within a stretch by what that stretch says. */
  ghost function OffAt(p: Program, found: seq<SpFinding>, deltas: Deltas, c: int): int
    requires |deltas| == |found|
  {
    if found == [] then 0
    else if Inside(p, found[0], c) then OffBy(deltas[0], found[0].at, FindingEnd(p, found[0]), c)
    else OffAt(p, found[1..], deltas[1..], c)
  }

  lemma {:induction false} OffInside(p: Program, found: seq<SpFinding>, deltas: Deltas, c: int, k: nat)
    requires |deltas| == |found| && OneEach(p, found) && k < |found| && Inside(p, found[k], c)
    ensures OffAt(p, found, deltas, c) == OffBy(deltas[k], found[k].at, FindingEnd(p, found[k]), c)
  {
    hide FindingEnd, OffBy;
    if k > 0 {
      assert Within(p, found[k], c) && !Within(p, found[0], c);
      OneEachRest(p, found);
      OffInside(p, found[1..], deltas[1..], c, k - 1);
    }
  }

  lemma {:induction false} OffOutside(p: Program, found: seq<SpFinding>, deltas: Deltas, c: int)
    requires |deltas| == |found| && forall k :: 0 <= k < |found| ==> !Inside(p, found[k], c)
    ensures OffAt(p, found, deltas, c) == 0
  {
    hide Inside, OffBy;
    if found != [] {
      OffOutside(p, found[1..], deltas[1..], c);
    }
  }

  /** Where nothing decodes no stretch says anything. */
  lemma {:induction false} OffNoCode(p: Program, found: seq<SpFinding>, deltas: Deltas, c: Word)
    requires AllRestack(p, found, deltas) && c !in p.code
    ensures OffAt(p, found, deltas, c) == 0
  {
    hide Inside, Restackable;
    if found != [] {
      assert Restackable(p, found[0], deltas[0]);
      NothingSaid(p, found[0], deltas[0], c);
      OffNoCode(p, found[1..], deltas[1..], c);
    }
  }

  lemma NothingSaid(p: Program, f: SpFinding, delta: map<int, int>, c: Word)
    requires Restackable(p, f, delta) && c !in p.code
    ensures OffBy(delta, f.at, FindingEnd(p, f), c) == 0
  {
    hide Shifts, IsTarget, Contiguous, SameElsewhere, FindingEnd, FindingEdits;
  }

  /** The end of a stretch, and its beginning, lie inside no other. */
  lemma EdgesOutside(p: Program, found: seq<SpFinding>, k: nat, j: nat)
    requires OneEach(p, found) && k < |found| && j < |found| && (forall f :: f in found ==> f.at < FindingEnd(p, f))
    ensures !Inside(p, found[j], found[k].at) && !Inside(p, found[j], FindingEnd(p, found[k]))
  {
    hide FindingEnd;
    if j != k {
      forall c ensures !(Within(p, found[j], c) && Within(p, found[k], c)) {
        if j < k { assert !(Within(p, found[j], c) && Within(p, found[k], c)); }
            else { assert !(Within(p, found[k], c) && Within(p, found[j], c)); }
      }
      var f, g := found[j], found[k];
      assert found[j] in found && found[k] in found;
      assert !(Within(p, f, g.at) && Within(p, g, g.at)) && !(Within(p, f, f.at) && Within(p, g, f.at));
      var last := FindingEnd(p, g) - 1;
      assert !(Within(p, f, last) && Within(p, g, last));
    }
  }

  ghost predicate NoneLands(p: Program, found: seq<SpFinding>) {
    forall f :: f in found ==> NoLandingInside(p, f.at, FindingEnd(p, f))
  }

  /** Original and rewritten run: sp is off as the stretch there says. */
  ghost predicate InStep(p: Program, found: seq<SpFinding>, deltas: Deltas, s: State, t: State)
    requires |deltas| == |found|
  {
    t == Moved(s, OffAt(p, found, deltas, s.pc))
  }

  lemma SameOff(p: Program, found: seq<SpFinding>, deltas: Deltas, k: nat, c: int)
    requires |deltas| == |found| && OneEach(p, found) && k < |found| && found[k].at <= c <= FindingEnd(p, found[k])
    requires forall f :: f in found ==> f.at < FindingEnd(p, f)
    ensures OffAt(p, found, deltas, c) == OffBy(deltas[k], found[k].at, FindingEnd(p, found[k]), c)
  {
    hide FindingEnd, OneEach, OffAt;
    if Inside(p, found[k], c) {
      OffInside(p, found, deltas, c, k);
    } else {
      forall j | 0 <= j < |found| ensures !Inside(p, found[j], c) { EdgesOutside(p, found, k, j); }
      OffOutside(p, found, deltas, c);
    }
  }

  /** A step within a stretch ends within it or at its end. */
  lemma StaysWithin(p: Program, q: Program, a: Word, end: Word, delta: map<int, int>, s: State)
    requires WellFormed(p) && Restacked(p, q, a, end, delta) && s.pc in p.code && a <= s.pc < end
    ensures a <= Step(p, s).pc <= end && s.pc in q.code
  {
    hide Effect, Shifts, WellFormed, IsTarget, OffBy, NextPc;
    var d, e := p.code[s.pc], q.code[s.pc];
    Placed(p, s.pc);
    assert Shifts(d.insn, e.insn, OffBy(delta, a, end, s.pc), OffBy(delta, a, end, s.pc + d.len));
    ShiftedEffect(d.insn, e.insn, OffBy(delta, a, end, s.pc), OffBy(delta, a, end, s.pc + d.len), d.len, s);
    StraightNext(d.insn, d.len, s);
    WrapOfWord(s.pc + d.len);
  }

  lemma SameStep(p: Program, q: Program, t: State)
    requires p.landings == q.landings && (t.pc in p.code <==> t.pc in q.code)
             && (t.pc in p.code ==> p.code[t.pc] == q.code[t.pc])
    ensures Step(p, t) == Step(q, t)
  {
    hide Exec;
  }

  ghost predicate Sound(p: Program, found: seq<SpFinding>, deltas: Deltas) {
    && WellFormed(p) && OneEach(p, found) && AllRestack(p, found, deltas) && NoneLands(p, found)
    && forall f :: f in found ==> f.at < FindingEnd(p, f)
  }

  lemma StepWithin(p: Program, found: seq<SpFinding>, deltas: Deltas, k: nat, s: State, t: State)
    requires Sound(p, found, deltas) && k < |found| && s.pc in p.code && Within(p, found[k], s.pc)
    requires InStep(p, found, deltas, s, t)
    ensures InStep(p, found, deltas, Step(p, s), Step(Together(p, found), t))
  {
    hide WellFormed, Restacked, Step, OffAt, OffBy, Moved, OneEach, FindingEdits, FindingEnd, NoneLands;
    var f, q := found[k], Apply(p, FindingEdits(p, found[k]));
    var end := FindingEnd(p, f);
    assert Restackable(p, f, deltas[k]);
    SamePc(s, OffAt(p, found, deltas, s.pc));
    SameOff(p, found, deltas, k, s.pc);
    StepInside(p, q, f.at, end, deltas[k], s, t);
    StaysWithin(p, q, f.at, end, deltas[k], s);
    SameOff(p, found, deltas, k, Step(p, s).pc);
    CodeIs(p, found, s.pc, k);
    SameStep(q, Together(p, found), t);
  }

  lemma StepOutside(p: Program, found: seq<SpFinding>, deltas: Deltas, s: State, t: State)
    requires Sound(p, found, deltas) && InStep(p, found, deltas, s, t)
    requires s.pc in p.code ==> forall k :: 0 <= k < |found| ==> !Within(p, found[k], s.pc)
    ensures InStep(p, found, deltas, Step(p, s), Step(Together(p, found), t))
  {
    hide WellFormed, Step, OffAt, Moved, OneEach, FindingEdits, FindingEnd, Restackable, Within, Inside, CodeAt;
    if s.pc !in p.code {
      OffNoCode(p, found, deltas, s.pc);
      MovedByZero(s);
      SameStep(p, Together(p, found), t);
      Halts(p, s);
    } else {
      forall k | 0 <= k < |found| ensures !Inside(p, found[k], s.pc) { InsideWithin(p, found[k], s.pc); }
      OffOutside(p, found, deltas, s.pc);
      MovedByZero(s);
      CodeElsewhere(p, found, s.pc);
      SameStep(p, Together(p, found), t);
      LandsOutside(p, found, deltas, s);
      MovedByZero(Step(p, s));
    }
  }

  lemma Halts(p: Program, s: State)
    requires s.pc !in p.code
    ensures Step(p, s) == s
  {
  }

  lemma InsideWithin(p: Program, f: SpFinding, c: int)
    ensures Inside(p, f, c) ==> Within(p, f, c)
  {
  }

  /** From outside every stretch, none is entered but at its beginning. */
  lemma LandsOutside(p: Program, found: seq<SpFinding>, deltas: Deltas, s: State)
    requires Sound(p, found, deltas) && s.pc in p.code && forall k :: 0 <= k < |found| ==> !Within(p, found[k], s.pc)
    ensures OffAt(p, found, deltas, Step(p, s).pc) == 0
  {
    hide WellFormed, Step, OffAt, OneEach, FindingEdits, FindingEnd, Restacked, NoLandingInside;
    if Step(p, s).pc !in p.code {
      OffNoCode(p, found, deltas, Step(p, s).pc);
    } else {
      forall k | 0 <= k < |found| ensures !Inside(p, found[k], Step(p, s).pc) {
        assert found[k] in found && Restackable(p, found[k], deltas[k]) && !Within(p, found[k], s.pc);
        NotEntered(p, Apply(p, FindingEdits(p, found[k])), found[k].at, FindingEnd(p, found[k]), deltas[k], s);
      }
      OffOutside(p, found, deltas, Step(p, s).pc);
    }
  }

  lemma NotEntered(p: Program, q: Program, a: Word, end: Word, delta: map<int, int>, s: State)
    requires WellFormed(p) && Restacked(p, q, a, end, delta) && NoLandingInside(p, a, end)
    requires s.pc in p.code && !(a <= s.pc < end) && Step(p, s).pc in p.code
    ensures !(a < Step(p, s).pc < end)
  {
    hide WellFormed, Shifts, IsTarget, Exec, NoLandingInside;
    if Runs(p, s) {
      NothingEnters(p, a, end, s);
    }
  }

  lemma {:induction false} TogetherInStep(p: Program, found: seq<SpFinding>, deltas: Deltas, s: State, n: nat)
    requires Sound(p, found, deltas) && forall k :: 0 <= k < |found| ==> !Inside(p, found[k], s.pc)
    ensures InStep(p, found, deltas, Run(p, s, n), Run(Together(p, found), s, n))
  {
    hide Sound, Inside, Within, OffAt, Moved, Step, Together;
    if n == 0 {
      assert |deltas| == |found| by { SoundSizes(p, found, deltas); }
      OffOutside(p, found, deltas, s.pc);
      MovedByZero(s);
    } else {
      TogetherInStep(p, found, deltas, s, n - 1);
      var x, y := Run(p, s, n - 1), Run(Together(p, found), s, n - 1);
      if k: nat :| k < |found| && x.pc in p.code && Within(p, found[k], x.pc) {
        StepWithin(p, found, deltas, k, x, y);
      } else {
        StepOutside(p, found, deltas, x, y);
      }
    }
  }

  lemma SoundSizes(p: Program, found: seq<SpFinding>, deltas: Deltas)
    requires Sound(p, found, deltas)
    ensures |deltas| == |found|
  {
  }

  /** With every finding of a scan carried out at once each run is as it was, state by
      state, but for sp while control is inside a stretch. */
  lemma AllAreInvisible(p: Program, found: seq<SpFinding>, s: State, n: nat)
    requires WellFormed(p) && AllGenuine(p, found) && AllDisjoint(found) && NoneLands(p, found)
    requires forall k :: 0 <= k < |found| ==> !Inside(p, found[k], s.pc)
    ensures OneEach(p, found)
    ensures exists d: int :: Run(Together(p, found), s, n) == Moved(Run(p, s, n), d)
    ensures (forall k :: 0 <= k < |found| ==> !Inside(p, found[k], Run(p, s, n).pc)) ==>
              Run(Together(p, found), s, n) == Run(p, s, n)
  {
    hide WellFormed, Genuine, Disjoint, Inside, OneEach, Moved, Run, Together, NoneLands, OffAt, FindingEnd,
         Restackable;
    StretchesApart(p, found);
    var deltas := DeltasFor(p, found);
    forall f | f in found ensures f.at < FindingEnd(p, f) { FindingHoldsAll(p, f); }
    TogetherInStep(p, found, deltas, s, n);
    var t := Run(p, s, n);
    assert Run(Together(p, found), s, n) == Moved(t, OffAt(p, found, deltas, t.pc));
    if forall k :: 0 <= k < |found| ==> !Inside(p, found[k], t.pc) {
      OffOutside(p, found, deltas, t.pc);
      MovedByZero(t);
    }
  }

  /** So for what the scan reports. */
  lemma ScanIsInvisible(p: Program, order: seq<Word>, zcb: bool, s: State, n: nat)
    requires WellFormed(p) && InOrder(p, order)
    requires (forall k :: 0 <= k < |order| ==> order[k] in p.code) && NoneLands(p, ScanTo(p, order, zcb).0)
    requires var found := ScanTo(p, order, zcb).0;
             forall k :: 0 <= k < |found| ==> !Inside(p, found[k], s.pc) && !Inside(p, found[k], Run(p, s, n).pc)
    ensures Run(Together(p, ScanTo(p, order, zcb).0), s, n) == Run(p, s, n)
  {
    hide WellFormed, InOrder, ScanTo, Inside, Run, Together, NoneLands, AllDisjoint, AllMarked, Genuine;
    var r := ScanTo(p, order, zcb);
    NothingCountedTwice(p, order, zcb);
    MarkedGenuine(p, zcb, r.0, After(p, order), r.1);
    AllAreInvisible(p, r.0, s, n);
  }
}
