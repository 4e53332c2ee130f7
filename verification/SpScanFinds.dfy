/** What a whole scan finds: every reservation and every release is in a run that was judged,
    and every pair that neither takes is. */
module SpScanFinds {
  import opened Words
  import opened Machine
  import opened SpShift
  import opened SpRuns
  import opened SpFindings
  import opened SpScan
  import opened SpExtent

  /** The reservation at `c` is in the run judged at `a`, reported if it pays. */
  ghost predicate PushJudged(p: Program, zcb: bool, found: seq<SpFinding>, a: Word, c: Word) {
    && a in p.code && c in PushRun(p, a).adj
    && (PushPays(p, a, PushRun(p, a), zcb) ==> Pushing(a, PushRun(p, a)) in found)
  }

  ghost predicate ReleaseJudged(p: Program, zcb: bool, found: seq<SpFinding>, a: Word, c: Word) {
    && a in p.code && c in ReleaseRun(p, a).run.adj
    && (ReleasePays(p, a, ReleaseRun(p, a), zcb) ==> Releasing(a, ReleaseRun(p, a)) in found)
  }

  ghost predicate PushCovered(p: Program, zcb: bool, found: seq<SpFinding>, c: Word) {
    exists a :: PushJudged(p, zcb, found, a, c)
  }

  ghost predicate ReleaseCovered(p: Program, zcb: bool, found: seq<SpFinding>, c: Word) {
    exists a :: ReleaseJudged(p, zcb, found, a, c)
  }

  /** The last release of a run reported. */
  ghost predicate Last(f: SpFinding, a: Word) {
    f.Releasing? && f.release.last == a
  }

  /** The pair at `a` is reported, or a half of it belongs to a run that is or will be. */
  ghost predicate PairCovered(p: Program, zcb: bool, found: seq<SpFinding>, a: Word)
    requires a in p.code
  {
    var b := Wrap(a + p.code[a].len);
    || Seam(a, b) in found || (exists f :: f in found && Last(f, a))
    || (b in p.code && PushPays(p, b, PushRun(p, b), zcb))
  }

  predicate Reserves(p: Program, c: Word) {
    c in p.code && Readable(p, c) && MovedBy(p.code[c].insn) < 0
  }

  predicate Frees(p: Program, c: Word) {
    c in p.code && Readable(p, c) && MovedBy(p.code[c].insn) > 0
  }

  predicate PairAt(p: Program, a: Word) {
    IsPair(p, a) && a in p.code && var b := Wrap(a + p.code[a].len); b in p.code && PairPays(p, a, b)
  }

  ghost predicate PushesCovered(p: Program, zcb: bool, found: seq<SpFinding>, o: seq<Word>, below: Word) {
    forall c: Word :: Reserves(p, c) && (c in o || c < below) ==> PushCovered(p, zcb, found, c)
  }

  ghost predicate ReleasesCovered(p: Program, zcb: bool, found: seq<SpFinding>, o: seq<Word>, below: Word) {
    forall c: Word :: Frees(p, c) && (c in o || c < below) ==> ReleaseCovered(p, zcb, found, c)
  }

  ghost predicate PairsCovered(p: Program, zcb: bool, found: seq<SpFinding>, o: seq<Word>) {
    forall c :: c in o && PairAt(p, c) ==> PairCovered(p, zcb, found, c)
  }

  ghost predicate LastFound(found: seq<SpFinding>, last: Word) {
    last == W64 - 1 || exists f :: f in found && Last(f, last)
  }

  // ---- one instruction ----

  lemma PushHolds(p: Program, a: Word)
    requires WellFormed(p) && Reserves(p, a)
    ensures var w := PushRun(p, a); a in w.adj && a < w.end
    ensures forall c: Word :: Reserves(p, c) && a <= c < PushRun(p, a).end ==> c in PushRun(p, a).adj
  {
    hide WellFormed, PushSoFar, SpAdjust, PushWalk, PushStart, Accounted;
    Placed(p, a);
    SameMove(p.code[a].insn);
    Small(p.code[a].insn);
    PushStarts(p, a);
    assert Wrap(a + p.code[a].len) == a + p.code[a].len;
    PushWalkSound(p, a, a + p.code[a].len, PushStart(p, a), PUSH_WALK);
    var w := PushRun(p, a);
    var at :| PushSoFar(p, a, at, w);
    PushHoldsAll(p, a, at, w);
    PushBegins(p, a, at, w);
    forall c: Word | Reserves(p, c) && a <= c < w.end ensures c in w.adj { SameMove(p.code[c].insn); }
  }

  lemma PushBegins(p: Program, a: Word, at: Word, w: SpRun)
    requires PushSoFar(p, a, at, w)
    ensures a in w.adj && a < w.end
  {
    hide Accounted, Walked, Risen;
  }

  lemma ReleaseHolds(p: Program, a: Word)
    requires WellFormed(p) && Frees(p, a)
    ensures var w := ReleaseRun(p, a); a in w.run.adj && a < w.run.end
    ensures forall c: Word :: Frees(p, c) && a <= c < ReleaseRun(p, a).run.end ==> c in ReleaseRun(p, a).run.adj
  {
    hide WellFormed, ReleaseSoFar, SpAdjust, ReleaseWalk, ReleaseStart, Accounted;
    Placed(p, a);
    SameMove(p.code[a].insn);
    Small(p.code[a].insn);
    ReleaseStarts(p, a);
    assert Wrap(a + p.code[a].len) == a + p.code[a].len;
    ReleaseWalkSound(p, a, a + p.code[a].len, ReleaseStart(p, a), PUSH_WALK);
    var w := ReleaseRun(p, a);
    var at :| ReleaseSoFar(p, a, at, w);
    ReleaseHoldsAll(p, a, at, w);
    ReleaseBegins(p, a, at, w);
    forall c: Word | Frees(p, c) && a <= c < w.run.end ensures c in w.run.adj { SameMove(p.code[c].insn); }
  }

  lemma ReleaseBegins(p: Program, a: Word, at: Word, w: Releases)
    requires ReleaseSoFar(p, a, at, w)
    ensures a in w.run.adj && a < w.run.end
  {
    hide Accounted, Walked, Risen, OpenAbove, AccBelow;
  }

  ghost predicate AllIn(found: seq<SpFinding>, more: seq<SpFinding>) {
    forall f :: f in found ==> f in more
  }

  lemma StillCovered(p: Program, zcb: bool, found: seq<SpFinding>, more: seq<SpFinding>, c: Word)
    requires AllIn(found, more)
    ensures PushCovered(p, zcb, found, c) ==> PushCovered(p, zcb, more, c)
    ensures ReleaseCovered(p, zcb, found, c) ==> ReleaseCovered(p, zcb, more, c)
    ensures c in p.code && PairCovered(p, zcb, found, c) ==> PairCovered(p, zcb, more, c)
    ensures LastFound(found, c) ==> LastFound(more, c)
  {
    hide PushRun, ReleaseRun, PushPays, ReleasePays;
    if PushCovered(p, zcb, found, c) {
      var a :| PushJudged(p, zcb, found, a, c);
      assert PushJudged(p, zcb, more, a, c);
    }
    if ReleaseCovered(p, zcb, found, c) {
      var a :| ReleaseJudged(p, zcb, found, a, c);
      assert ReleaseJudged(p, zcb, more, a, c);
    }
  }

  lemma PushVisited(p: Program, zcb: bool, found: seq<SpFinding>, o: seq<Word>, a: Word, m: Marks, more: seq<SpFinding>)
    requires WellFormed(p) && a in p.code && PushesCovered(p, zcb, found, o, m.push)
    requires forall c :: c in p.code && c < a ==> c in o
    requires AllIn(found, more) && AllIn(Found(PushCheck(p, a, zcb, m).0), more)
    ensures PushesCovered(p, zcb, more, o + [a], PushCheck(p, a, zcb, m).1.push)
  {
    hide WellFormed, PushRun, PushPays, MovedBy, PushCovered, AllIn, Readable;
    var x := PushCheck(p, a, zcb, m);
    SameMove(p.code[a].insn);
    forall c: Word | Reserves(p, c) && (c in o + [a] || c < x.1.push) ensures PushCovered(p, zcb, more, c) {
      StillCovered(p, zcb, found, more, c);
      if Reserves(p, a) && m.push <= a {
        PushHolds(p, a);
        if a <= c && c !in o { NewlyPushed(p, zcb, more, a, m, c); }
      }
    }
  }

  lemma NewlyPushed(p: Program, zcb: bool, more: seq<SpFinding>, a: Word, m: Marks, c: Word)
    requires Reserves(p, a) && m.push <= a && c in PushRun(p, a).adj
    requires AllIn(Found(PushCheck(p, a, zcb, m).0), more)
    ensures PushCovered(p, zcb, more, c)
  {
    hide PushRun, PushPays;
    SameMove(p.code[a].insn);
    assert PushPays(p, a, PushRun(p, a), zcb) ==> Pushing(a, PushRun(p, a)) in Found(PushCheck(p, a, zcb, m).0);
    assert PushJudged(p, zcb, more, a, c);
  }

  lemma ReleaseVisited(p: Program, zcb: bool, found: seq<SpFinding>, o: seq<Word>, a: Word, m: Marks,
                       more: seq<SpFinding>)
    requires WellFormed(p) && a in p.code && ReleasesCovered(p, zcb, found, o, m.release) && LastFound(found, m.last)
    requires forall c :: c in p.code && c < a ==> c in o
    requires AllIn(found, more) && AllIn(Found(ReleaseCheck(p, a, zcb, m).0), more)
    ensures ReleasesCovered(p, zcb, more, o + [a], ReleaseCheck(p, a, zcb, m).1.release)
    ensures LastFound(more, ReleaseCheck(p, a, zcb, m).1.last)
  {
    hide WellFormed, ReleaseRun, ReleasePays, MovedBy, ReleaseCovered, AllIn, Readable, LastFound;
    var x := ReleaseCheck(p, a, zcb, m);
    SameMove(p.code[a].insn);
    StillCovered(p, zcb, found, more, m.last);
    LastKept(p, zcb, a, m, more);
    forall c: Word | Frees(p, c) && (c in o + [a] || c < x.1.release) ensures ReleaseCovered(p, zcb, more, c) {
      StillCovered(p, zcb, found, more, c);
      if Frees(p, a) && m.release <= a {
        ReleaseHolds(p, a);
        if a <= c && c !in o { NewlyReleased(p, zcb, more, a, m, c); }
      }
    }
  }

  lemma LastKept(p: Program, zcb: bool, a: Word, m: Marks, more: seq<SpFinding>)
    requires a in p.code && AllIn(Found(ReleaseCheck(p, a, zcb, m).0), more)
    ensures ReleaseCheck(p, a, zcb, m).1.last == m.last || LastFound(more, ReleaseCheck(p, a, zcb, m).1.last)
  {
    hide ReleaseRun, ReleasePays, SpAdjust;
    var x := ReleaseCheck(p, a, zcb, m);
    if x.0.Some? {
      assert x.0.value in Found(x.0);
      assert Last(x.0.value, x.1.last);
    }
  }

  lemma NewlyReleased(p: Program, zcb: bool, more: seq<SpFinding>, a: Word, m: Marks, c: Word)
    requires Frees(p, a) && m.release <= a && c in ReleaseRun(p, a).run.adj
    requires AllIn(Found(ReleaseCheck(p, a, zcb, m).0), more)
    ensures ReleaseCovered(p, zcb, more, c)
  {
    hide ReleaseRun, ReleasePays;
    SameMove(p.code[a].insn);
    assert ReleasePays(p, a, ReleaseRun(p, a), zcb) ==>
           Releasing(a, ReleaseRun(p, a)) in Found(ReleaseCheck(p, a, zcb, m).0);
    assert ReleaseJudged(p, zcb, more, a, c);
  }

  lemma PairVisited(p: Program, zcb: bool, a: Word, m: Marks, more: seq<SpFinding>)
    requires WellFormed(p) && PairAt(p, a) && LastFound(more, m.last) && AllIn(Found(PairCheck(p, a, zcb, m)), more)
    ensures PairCovered(p, zcb, more, a)
  {
    hide PushRun, PushPays, PairPays, IsPair, WellFormed, SpAdjust;
    Placed(p, a);
    var x := PairCheck(p, a, zcb, m);
    if x.Some? { assert x.value in Found(x); }
  }

  // ---- the whole scan ----

  /** All that has been read is accounted for. */
  ghost predicate AllCovered(p: Program, zcb: bool, found: seq<SpFinding>, o: seq<Word>, m: Marks) {
    && PushesCovered(p, zcb, found, o, m.push) && ReleasesCovered(p, zcb, found, o, m.release)
    && PairsCovered(p, zcb, found, o) && LastFound(found, m.last)
  }

  lemma VisitCovers(p: Program, zcb: bool, found: seq<SpFinding>, o: seq<Word>, a: Word, m: Marks)
    requires WellFormed(p) && a in p.code && AllCovered(p, zcb, found, o, m)
    requires forall c :: c in p.code && c < a ==> c in o
    ensures var v := Visit(p, a, zcb, m); AllCovered(p, zcb, found + v.0, o + [a], v.1)
  {
    hide WellFormed, PushCheck, ReleaseCheck, PairCheck, PushesCovered, ReleasesCovered, PairCovered, LastFound, PairAt;
    var x := PushCheck(p, a, zcb, m);
    var y := ReleaseCheck(p, a, zcb, x.1);
    var v := Visit(p, a, zcb, m);
    var more := found + v.0;
    MarksApart(p, a, zcb, m);
    MarksApart(p, a, zcb, x.1);
    assert v == (Found(x.0) + Found(y.0) + Found(PairCheck(p, a, zcb, y.1)), y.1);
    PushVisited(p, zcb, found, o, a, m, more);
    ReleaseVisited(p, zcb, found, o, a, x.1, more);
    forall c | c in o + [a] && PairAt(p, c) ensures c in p.code && PairCovered(p, zcb, more, c) {
      PairIn(p, c);
      StillCovered(p, zcb, found, more, c);
      if c == a { PairVisited(p, zcb, a, y.1, more); }
    }
  }

  lemma PairIn(p: Program, c: Word)
    requires PairAt(p, c)
    ensures c in p.code
  {
    hide IsPair, PairPays;
  }

  /** Each check moves its own mark. */
  lemma MarksApart(p: Program, a: Word, zcb: bool, m: Marks)
    requires a in p.code
    ensures PushCheck(p, a, zcb, m).1 == m.(push := PushCheck(p, a, zcb, m).1.push)
    ensures ReleaseCheck(p, a, zcb, m).1.push == m.push
  {
    hide PushRun, ReleaseRun, PushPays, ReleasePays, SpAdjust;
  }

  lemma {:induction false} ScanCovers(p: Program, order: seq<Word>, zcb: bool)
    requires WellFormed(p) && InOrder(p, order)
    ensures forall k :: 0 <= k < |order| ==> order[k] in p.code
    ensures AllCovered(p, zcb, ScanTo(p, order, zcb).0, order, ScanTo(p, order, zcb).1)
  {
    hide WellFormed, InOrder, Visit, AllCovered;
    PlacesOf(p, order);
    if order == [] {
      NothingRead(p, zcb);
    } else {
      var n := |order| - 1;
      OrderPrefix(p, order);
      ScanCovers(p, order[..n], zcb);
      var was := ScanTo(p, order[..n], zcb);
      AllBefore(p, order);
      VisitCovers(p, zcb, was.0, order[..n], order[n], was.1);
      assert order[..n] + [order[n]] == order;
    }
  }

  lemma AllBefore(p: Program, order: seq<Word>)
    requires InOrder(p, order) && order != []
    ensures forall c :: c in p.code && c < order[|order| - 1] ==> c in order[..|order| - 1]
  {
    assert Complete(p, order, |order| - 1);
  }

  lemma NothingRead(p: Program, zcb: bool)
    ensures AllCovered(p, zcb, [], [], NoMarks)
  {
    hide PushCovered, ReleaseCovered, PairCovered, PairAt;
  }

  /** Every reservation and release the scan reads is in a run that was judged, and reported
      if it pays; every pair that pays is reported, but where a half of it belongs to a run
      that is. */
  lemma ScanFinds(p: Program, order: seq<Word>, zcb: bool)
    requires WellFormed(p) && InOrder(p, order)
    ensures forall k :: 0 <= k < |order| ==> order[k] in p.code
    ensures var found := ScanTo(p, order, zcb).0;
            && (forall c :: c in order && Reserves(p, c) ==> PushCovered(p, zcb, found, c))
            && (forall c :: c in order && Frees(p, c) ==> ReleaseCovered(p, zcb, found, c))
            && (forall c :: c in order && PairAt(p, c) ==> c in p.code && PairCovered(p, zcb, found, c))
  {
    hide PushCovered, ReleaseCovered, PairCovered, PairAt, Reserves, Frees, LastFound, WellFormed, InOrder, ScanTo;
    ScanCovers(p, order, zcb);
    forall c | c in order && PairAt(p, c) ensures c in p.code { PairIn(p, c); }
  }
}
