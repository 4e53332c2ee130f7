/** A whole scan for mergeable stack adjustments: the state the checks keep between
    instructions, and why no adjustment is counted twice. */
module SpScan {
  import opened Words
  import opened Wrappers
  import opened Machine
  import opened Sweep
  import opened SpShift
  import opened Encoding
  import opened SpRuns
  import opened SpFindings

  // ---- what a run leaves to the others ----

  /** The adjustments of a run are exactly those of its stretch. */
  ghost predicate HoldsAll(p: Program, a: Word, end: Word, adj: seq<Word>) {
    && (forall c :: c in adj ==> c in p.code && a <= c < end)
    && (forall c :: c in p.code && a <= c < end && IsAdjust(p.code[c].insn) ==> c in adj)
  }

  ghost predicate SignOf(p: Program, adj: seq<Word>, negative: bool) {
    forall c :: c in adj ==> c in p.code && (if negative then SpAdjust(p.code[c].insn) < 0
                                             else SpAdjust(p.code[c].insn) > 0)
  }

  lemma AccountedHoldsAll(p: Program, a: Word, end: Word, at: Word, adj: seq<Word>, acc: seq<Acc>)
    requires Accounted(p, a, at, adj, acc) && end <= at && forall c :: c in adj ==> c < end
    ensures HoldsAll(p, a, end, adj)
  {
    hide SpAdjust, SpAccess, Neutral, Risen;
    forall c | c in p.code && a <= c < end && IsAdjust(p.code[c].insn) ensures c in adj {
      if HasAcc(acc, c) {
        AccessIsNoAdjust(p.code[c].insn);
      }
    }
  }

  lemma PushHoldsAll(p: Program, a: Word, at: Word, w: SpRun)
    requires PushSoFar(p, a, at, w)
    ensures HoldsAll(p, a, w.end, w.adj) && SignOf(p, w.adj, true)
  {
    hide Accounted, Walked, Risen, SpAdjust;
    AccountedHoldsAll(p, a, w.end, at, w.adj, w.acc);
  }

  lemma ReleaseHoldsAll(p: Program, a: Word, at: Word, w: Releases)
    requires WellFormed(p) && ReleaseSoFar(p, a, at, w)
    ensures HoldsAll(p, a, w.run.end, w.run.adj) && SignOf(p, w.run.adj, false)
    ensures w.last in p.code && w.run.end == w.last + p.code[w.last].len && forall c :: c in w.run.adj ==> c <= w.last
  {
    hide WellFormed, Accounted, Walked, Risen, SpAdjust;
    Placed(p, w.last);
    AccountedHoldsAll(p, a, w.run.end, at, w.run.adj, w.run.acc + w.open);
  }

  // ---- what the scan keeps ----

  /** One finding, against the marks when the scan stands at `at`. */
  ghost predicate Marked(p: Program, zcb: bool, f: SpFinding, at: int, m: Marks) {
    && Genuine(p, f) && f.at < at
    && match f
       case Pushing(_, w) => w.end <= m.push
       case Releasing(_, w) => w.run.end <= m.release && (w.last == m.last || w.run.end <= at)
       case Seam(_, b) => b < at || (b == at && b in p.code && PushCheck(p, b, zcb, m).0 == None)
  }

  ghost predicate Shared(f: SpFinding, g: SpFinding, c: Word) {
    c in Adjustments(f) && c in Adjustments(g)
  }

  ghost predicate Disjoint(f: SpFinding, g: SpFinding) {
    forall c :: !Shared(f, g, c)
  }

  /** The least a finding tells: what it counts, and between which addresses. */
  ghost predicate Shaped(p: Program, f: SpFinding) {
    match f
    case Pushing(a, w) => HoldsAll(p, a, w.end, w.adj) && SignOf(p, w.adj, true)
    case Releasing(a, w) =>
      && HoldsAll(p, a, w.run.end, w.run.adj) && SignOf(p, w.run.adj, false) && w.last in p.code
      && w.run.end == w.last + p.code[w.last].len && forall c :: c in w.run.adj ==> c <= w.last
    case Seam(a, b) =>
      && a in p.code && b in p.code && b == a + p.code[a].len
      && SpAdjust(p.code[a].insn) > 0 && SpAdjust(p.code[b].insn) < 0
  }

  lemma Shape(p: Program, f: SpFinding)
    requires WellFormed(p) && Genuine(p, f)
    ensures Shaped(p, f)
  {
    hide WellFormed, PushSoFar, ReleaseSoFar, AllFit, AccInCode, SpAdjust, IsPair, HoldsAll, SignOf;
    match f {
      case Pushing(a, w) =>
        var at :| PushSoFar(p, a, at, w);
        PushHoldsAll(p, a, at, w);
      case Releasing(a, w) =>
        var at :| ReleaseSoFar(p, a, at, w);
        ReleaseHoldsAll(p, a, at, w);
      case Seam(a, b) =>
        PairRises(p, a);
        PairFalls(p, a);
    }
  }

  lemma PairFalls(p: Program, a: Word)
    requires WellFormed(p) && IsPair(p, a)
    ensures a in p.code
    ensures var b := Wrap(a + p.code[a].len);
            b in p.code && b == a + p.code[a].len && SpAdjust(p.code[b].insn) < 0
  {
    hide WellFormed, Walked, Accounted, Risen, Meet, SpAdjust;
    PairWalked(p, a);
  }

  lemma PairRises(p: Program, a: Word)
    requires IsPair(p, a)
    ensures SpAdjust(p.code[a].insn) > 0 && a in p.code
  {
    hide Meet, SpAdjust;
  }

  /** A new push run against an earlier finding. */
  lemma PushDisjoint(p: Program, zcb: bool, f: SpFinding, a: Word, m: Marks)
    requires WellFormed(p) && a in p.code && Marked(p, zcb, f, a, m) && PushCheck(p, a, zcb, m).0.Some?
    ensures Disjoint(f, PushCheck(p, a, zcb, m).0.value)
  {
    hide WellFormed, Genuine, SpAdjust;
    PushIsGenuine(p, a, zcb, m);
    Shape(p, f);
    Shape(p, PushCheck(p, a, zcb, m).0.value);
    hide AdjustBytes, AccBytes, PushRun, PushPays;
  }

  lemma ReleaseDisjoint(p: Program, zcb: bool, f: SpFinding, a: Word, m: Marks)
    requires WellFormed(p) && a in p.code && Marked(p, zcb, f, a, m) && ReleaseCheck(p, a, zcb, m).0.Some?
    ensures Disjoint(f, ReleaseCheck(p, a, zcb, m).0.value)
  {
    hide WellFormed, Genuine, SpAdjust;
    ReleaseIsGenuine(p, a, zcb, m);
    Shape(p, f);
    Shape(p, ReleaseCheck(p, a, zcb, m).0.value);
    hide AdjustBytes, AccBytes, ReleaseRun, ReleasePays;
  }

  lemma SeamDisjoint(p: Program, zcb: bool, f: SpFinding, a: Word, m: Marks)
    requires WellFormed(p) && a in p.code && Marked(p, zcb, f, a, m) && PairCheck(p, a, zcb, m).Some?
    ensures Disjoint(f, PairCheck(p, a, zcb, m).value)
  {
    hide WellFormed, Genuine, SpAdjust, PushCheck, IsPair, PairPays;
    var g := PairCheck(p, a, zcb, m).value;
    SeamIsGenuine(p, a, zcb, m);
    Shape(p, f);
    Shape(p, g);
    assert IsAdjust(p.code[a].insn) && IsAdjust(p.code[g.second].insn);
    if f.Releasing? {
      Apart(p, a, f.release.last);
      Placed(p, f.release.last);
      assert a !in f.release.run.adj && g.second !in f.release.run.adj;
    }
  }

  lemma SeamIsGenuine(p: Program, a: Word, zcb: bool, m: Marks)
    requires a in p.code && PairCheck(p, a, zcb, m).Some?
    ensures Genuine(p, PairCheck(p, a, zcb, m).value)
  {
    hide IsPair, PushCheck, PairPays;
  }

  // ---- one instruction ----

  ghost predicate AllMarked(p: Program, zcb: bool, found: seq<SpFinding>, at: int, m: Marks) {
    forall k :: 0 <= k < |found| ==> Marked(p, zcb, found[k], at, m)
  }

  ghost predicate AllDisjoint(found: seq<SpFinding>) {
    forall j, k :: 0 <= j < k < |found| ==> Disjoint(found[j], found[k])
  }

  lemma MarkedOn(p: Program, zcb: bool, f: SpFinding, a: Word, m: Marks)
    requires WellFormed(p) && a in p.code && Marked(p, zcb, f, a, m)
    ensures Marked(p, zcb, f, a + p.code[a].len, Visit(p, a, zcb, m).1)
  {
    hide WellFormed, Genuine, SpAdjust, Found, PushPays, ReleasePays, PairPays, IsPair;
    Placed(p, a);
    if PushCheck(p, a, zcb, m).0.Some? {
      PushIsGenuine(p, a, zcb, m);
    }
    RunsOn(p, a);
  }

  /** A walk ends after where it began. */
  lemma RunsOn(p: Program, a: Word)
    requires WellFormed(p) && a in p.code
    ensures SpAdjust(p.code[a].insn) < 0 ==> a < PushRun(p, a).end
    ensures SpAdjust(p.code[a].insn) > 0 ==> a < ReleaseRun(p, a).run.end
  {
    hide WellFormed, PushSoFar, ReleaseSoFar, SpAdjust, PushWalk, PushStart, ReleaseWalk, ReleaseStart;
    Placed(p, a);
    Small(p.code[a].insn);
    var n: Word := a + p.code[a].len;
    assert Wrap(n) == n;
    if SpAdjust(p.code[a].insn) < 0 {
      PushStarts(p, a);
      PushWalkSound(p, a, n, PushStart(p, a), PUSH_WALK);
      var at :| PushSoFar(p, a, at, PushRun(p, a));
      PushEndsAfter(p, a, at, PushRun(p, a));
    } else if SpAdjust(p.code[a].insn) > 0 {
      ReleaseStarts(p, a);
      ReleaseWalkSound(p, a, n, ReleaseStart(p, a), PUSH_WALK);
      var at :| ReleaseSoFar(p, a, at, ReleaseRun(p, a));
      ReleaseEndsAfter(p, a, at, ReleaseRun(p, a));
    }
  }

  lemma PushEndsAfter(p: Program, a: Word, at: Word, w: SpRun)
    requires PushSoFar(p, a, at, w)
    ensures a < w.end
  {
  }

  lemma ReleaseEndsAfter(p: Program, a: Word, at: Word, w: Releases)
    requires ReleaseSoFar(p, a, at, w)
    ensures a < w.run.end
  {
  }

  /** What an instruction adds is at most one finding, apart from all before. */
  lemma VisitKeeps(p: Program, zcb: bool, found: seq<SpFinding>, a: Word, m: Marks)
    requires WellFormed(p) && a in p.code && AllMarked(p, zcb, found, a, m) && AllDisjoint(found)
    ensures var v := Visit(p, a, zcb, m);
            AllMarked(p, zcb, found + v.0, a + p.code[a].len, v.1) && AllDisjoint(found + v.0)
  {
    hide WellFormed, Marked, Disjoint;
    var v, n := Visit(p, a, zcb, m), a + p.code[a].len;
    OneAtMost(p, a, zcb, m);
    forall k | 0 <= k < |found| ensures Marked(p, zcb, found[k], n, v.1) { MarkedOn(p, zcb, found[k], a, m); }
    if v.0 != [] {
      NewMarked(p, a, zcb, m);
      forall k | 0 <= k < |found| ensures Disjoint(found[k], v.0[0]) { NewDisjoint(p, zcb, found[k], a, m); }
    }
    hide Visit;
    assert |v.0| <= 1;
  }

  lemma OneAtMost(p: Program, a: Word, zcb: bool, m: Marks)
    requires WellFormed(p) && a in p.code
    ensures var x := PushCheck(p, a, zcb, m);
            var y := ReleaseCheck(p, a, zcb, x.1);
            var z := PairCheck(p, a, zcb, y.1);
            && (SpAdjust(p.code[a].insn) <= 0 ==> y == (None, x.1) && z == None)
            && (SpAdjust(p.code[a].insn) >= 0 ==> x == (None, m))
            && (y.0.Some? ==> z == None)
  {
    var x := PushCheck(p, a, zcb, m);
    var y := ReleaseCheck(p, a, zcb, x.1);
    var z := PairCheck(p, a, zcb, y.1);
    if z.Some? {
      SeamIsGenuine(p, a, zcb, y.1);
      PairRises(p, a);
      PairFalls(p, a);
      if y.0.Some? {
        ReleaseNoSeam(p, a, zcb, x.1);
      }
    }
  }

  /** A release run that goes on past `a` finds no reservation next to it. */
  lemma ReleaseNoSeam(p: Program, a: Word, zcb: bool, m: Marks)
    requires WellFormed(p) && a in p.code && ReleaseCheck(p, a, zcb, m).0.Some?
    ensures PairCheck(p, a, zcb, ReleaseCheck(p, a, zcb, m).1) == None
  {
    hide WellFormed, Genuine, SpAdjust, PushCheck, IsPair, PairPays, ReleasePays, ReleaseRun;
    var r := ReleaseCheck(p, a, zcb, m);
    ReleaseIsGenuine(p, a, zcb, m);
    Shape(p, r.0.value);
    if PairCheck(p, a, zcb, r.1).Some? {
      PairFalls(p, a);
      var w, b := r.0.value.release, Wrap(a + p.code[a].len);
      Apart(p, a, w.last);
      Placed(p, w.last);
      Placed(p, a);
      assert IsAdjust(p.code[a].insn) && IsAdjust(p.code[b].insn);
      RunsOn(p, a);
      assert false;
    }
  }

  lemma NewMarked(p: Program, a: Word, zcb: bool, m: Marks)
    requires WellFormed(p) && a in p.code && Visit(p, a, zcb, m).0 != []
    ensures var v := Visit(p, a, zcb, m); |v.0| == 1 && Marked(p, zcb, v.0[0], a + p.code[a].len, v.1)
  {
    hide WellFormed, Genuine, SpAdjust, PushPays, ReleasePays, PairPays, IsPair, PushRun, ReleaseRun;
    OneAtMost(p, a, zcb, m);
    var x := PushCheck(p, a, zcb, m);
    var y := ReleaseCheck(p, a, zcb, x.1);
    var z := PairCheck(p, a, zcb, y.1);
    Placed(p, a);
    if x.0.Some? {
      PushIsGenuine(p, a, zcb, m);
    } else if y.0.Some? {
      ReleaseIsGenuine(p, a, zcb, x.1);
    } else {
      SeamIsGenuine(p, a, zcb, y.1);
      Shape(p, z.value);
    }
  }

  lemma NewDisjoint(p: Program, zcb: bool, f: SpFinding, a: Word, m: Marks)
    requires WellFormed(p) && a in p.code && Marked(p, zcb, f, a, m) && Visit(p, a, zcb, m).0 != []
    ensures Disjoint(f, Visit(p, a, zcb, m).0[0])
  {
    hide WellFormed, Disjoint, Marked, PushCheck, ReleaseCheck, PairCheck;
    OneAtMost(p, a, zcb, m);
    var x := PushCheck(p, a, zcb, m);
    var y := ReleaseCheck(p, a, zcb, x.1);
    if x.0.Some? {
      PushDisjoint(p, zcb, f, a, m);
    } else if y.0.Some? {
      ReleaseDisjoint(p, zcb, f, a, m);
    } else {
      MarkedAfterRelease(p, zcb, f, a, m);
      SeamDisjoint(p, zcb, f, a, y.1);
    }
  }

  /** A release walk that reports nothing leaves the earlier findings marked. */
  lemma MarkedAfterRelease(p: Program, zcb: bool, f: SpFinding, a: Word, m: Marks)
    requires WellFormed(p) && a in p.code && Marked(p, zcb, f, a, m)
    requires PushCheck(p, a, zcb, m).0 == None && ReleaseCheck(p, a, zcb, PushCheck(p, a, zcb, m).1).0 == None
    ensures Marked(p, zcb, f, a, ReleaseCheck(p, a, zcb, PushCheck(p, a, zcb, m).1).1) || SpAdjust(p.code[a].insn) < 0
  {
    hide WellFormed, Genuine, SpAdjust, PushPays, ReleasePays;
    RunsOn(p, a);
    OneAtMost(p, a, zcb, m);
  }

  // ---- the whole scan ----

  /** An initial part of the instructions of the sweep, in address order. */
  ghost predicate InOrder(p: Program, order: seq<Word>) {
    && (forall k :: 0 <= k < |order| ==> order[k] in p.code && Complete(p, order, k))
    && (forall j, k :: 0 <= j < k < |order| ==> order[j] < order[k])
  }

  ghost predicate Complete(p: Program, order: seq<Word>, k: nat)
    requires k < |order|
  {
    forall c :: c in p.code && c < order[k] ==> c in order[..k]
  }

  function ScanTo(p: Program, order: seq<Word>, zcb: bool): (seq<SpFinding>, Marks)
    requires forall k :: 0 <= k < |order| ==> order[k] in p.code
  {
    if order == [] then ([], NoMarks)
    else
      var was := ScanTo(p, order[..|order| - 1], zcb);
      var v := Visit(p, order[|order| - 1], zcb, was.1);
      (was.0 + v.0, v.1)
  }

  function After(p: Program, order: seq<Word>): int
    requires forall k :: 0 <= k < |order| ==> order[k] in p.code
  {
    if order == [] then 0 else order[|order| - 1] + p.code[order[|order| - 1]].len
  }

  lemma Waits(p: Program, zcb: bool, f: SpFinding, at: int, a: Word, m: Marks)
    requires Marked(p, zcb, f, at, m) && at <= a && (at == a || at !in p.code)
    ensures Marked(p, zcb, f, a, m)
  {
    hide Genuine, PushCheck;
  }

  lemma OrderPrefix(p: Program, order: seq<Word>)
    requires InOrder(p, order) && order != []
    ensures InOrder(p, order[..|order| - 1])
  {
    var o := order[..|order| - 1];
    forall k | 0 <= k < |o| ensures o[k] in p.code && Complete(p, o, k) {
      assert Complete(p, order, k);
      assert o[..k] == order[..k];
    }
  }

  lemma NextVisited(p: Program, order: seq<Word>)
    requires WellFormed(p) && InOrder(p, order) && order != []
    ensures var a, at := order[|order| - 1], After(p, order[..|order| - 1]);
            at <= a && (at == a || at !in p.code)
  {
    hide WellFormed;
    var n := |order| - 1;
    var a, o := order[n], order[..n];
    assert Complete(p, order, n);
    if n > 0 {
      var b := order[n - 1];
      assert o[|o| - 1] == b && b < a;
      Placed(p, b);
      Apart(p, b, a);
      OrderPrefix(p, order);
      if After(p, o) in p.code {
        NoneAbove(p, o, After(p, o));
      }
    }
  }

  lemma PlacesOf(p: Program, order: seq<Word>)
    requires InOrder(p, order)
    ensures forall k :: 0 <= k < |order| ==> order[k] in p.code
  {
  }

  lemma NoneAbove(p: Program, o: seq<Word>, c: Word)
    requires InOrder(p, o) && o != []
    ensures c in o ==> c <= o[|o| - 1]
  {
  }

  /** Over a whole scan no adjustment is counted by two findings, and every finding
      is genuine. */
  lemma {:induction false} NothingCountedTwice(p: Program, order: seq<Word>, zcb: bool)
    requires WellFormed(p) && InOrder(p, order)
    ensures var r := ScanTo(p, order, zcb); AllMarked(p, zcb, r.0, After(p, order), r.1) && AllDisjoint(r.0)
  {
    hide WellFormed, InOrder, Disjoint, Marked, Visit;
    if order != [] {
      var n := |order| - 1;
      OrderPrefix(p, order);
      NothingCountedTwice(p, order[..n], zcb);
      NextVisited(p, order);
      assert forall k :: 0 <= k < n ==> order[..n][k] in p.code by {
        assert InOrder(p, order[..n]);
        PlacesOf(p, order[..n]);
      }
      var was, at := ScanTo(p, order[..n], zcb), After(p, order[..n]);
      PlacesOf(p, order);
      var a := order[n];
      forall k | 0 <= k < |was.0| ensures Marked(p, zcb, was.0[k], a, was.1) { Waits(p, zcb, was.0[k], at, a, was.1); }
      VisitKeeps(p, zcb, was.0, a, was.1);
    }
  }

  lemma MarkedGenuine(p: Program, zcb: bool, found: seq<SpFinding>, at: int, m: Marks)
    requires AllMarked(p, zcb, found, at, m)
    ensures forall f :: f in found ==> Genuine(p, f)
  {
    hide Genuine, PushCheck;
    forall f | f in found ensures Genuine(p, f) {
      var k :| 0 <= k < |found| && found[k] == f;
      assert Marked(p, zcb, found[k], at, m);
    }
  }

  // ---- the checks themselves ----

  lemma PushMarksOnly(p: Program, a: Word, zcb: bool, m: Marks)
    requires a in p.code
    ensures var after := PushCheck(p, a, zcb, m).1; after == m.(push := after.push)
  {
    hide PushRun, PushPays, SpAdjust;
  }

  lemma PushWalksOn(p: Program, at: Word, w: SpRun, budget: nat)
    requires budget > 0 && PushNext(p, at, w) != None
    ensures at in p.code
    ensures PushWalk(p, at, w, budget) == PushWalk(p, Wrap(at + p.code[at].len), PushNext(p, at, w).value, budget - 1)
  {
    hide IsTarget, Wrap;
  }

  lemma PushStops(p: Program, at: Word, w: SpRun, budget: nat)
    requires budget == 0 || PushNext(p, at, w) == None
    ensures PushWalk(p, at, w, budget) == w
  {
    hide PushNext;
  }

  lemma ReleaseWalksOn(p: Program, at: Word, w: Releases, budget: nat)
    requires budget > 0 && ReleaseNext(p, at, w) != None
    ensures at in p.code
    ensures ReleaseWalk(p, at, w, budget) == ReleaseWalk(p, Wrap(at + p.code[at].len), ReleaseNext(p, at, w).value,
                                                         budget - 1)
  {
    hide IsTarget, Wrap;
  }

  lemma ReleaseStops(p: Program, at: Word, w: Releases, budget: nat)
    requires budget == 0 || ReleaseNext(p, at, w) == None
    ensures ReleaseWalk(p, at, w, budget) == w
  {
    hide ReleaseNext;
  }

  class Scanner {
    const zcb: bool
    var pushEnd: Word
    var releaseEnd: Word
    var releaseLast: Word

    function Marks(): Marks
      reads this
    {
      SpFindings.Marks(pushEnd, releaseEnd, releaseLast)
    }

    constructor (zcb: bool)
      ensures this.zcb == zcb && Marks() == NoMarks
    {
      this.zcb := zcb;
      pushEnd, releaseEnd, releaseLast := 0, 0, W64 - 1;
    }

    method WalkPush(p: Program, a: Word) returns (w: SpRun)
      requires a in p.code
      ensures w == PushRun(p, a)
    {
      hide PushNext, PushStart, PushWalk;
      var at: Word := Wrap(a + p.code[a].len);
      var budget := PUSH_WALK;
      w := PushStart(p, a);
      while budget > 0 && PushNext(p, at, w) != None
        invariant 0 <= budget && PushWalk(p, at, w, budget) == PushRun(p, a)
        decreases budget
      {
        PushWalksOn(p, at, w, budget);
        w, at, budget := PushNext(p, at, w).value, Wrap(at + p.code[at].len), budget - 1;
      }
      PushStops(p, at, w, budget);
    }

    method CheckPushRun(p: Program, a: Word) returns (f: Option<SpFinding>)
      requires a in p.code
      modifies this
      ensures (f, Marks()) == PushCheck(p, a, zcb, old(Marks()))
    {
      if a < pushEnd || !Readable(p, a) || SpAdjust(p.code[a].insn) >= 0 { return None; }
      var w := WalkPush(p, a);
      pushEnd := w.end;
      if |w.adj| < 2 { return None; }
      var pays := Pays(p, a, w.acc, w.total, AdjustBytes(-w.total, p.code[a].len == 2), w.bytes);
      return if pays then Some(Pushing(a, w)) else None;
    }

    /** Whether the re-offset accesses fit and leave the run shorter. */
    method Pays(p: Program, a: Word, acc: seq<Acc>, lift: int, adjust: nat, bytes: nat) returns (pays: bool)
      ensures pays <==> AccInCode(p, acc) && AllFit(p, acc, lift) && adjust + AccBytes(p, acc, lift, zcb) < bytes
    {
      if !AccInCode(p, acc) { return false; }
      var k, after := 0, adjust;
      while k < |acc|
        invariant k <= |acc| && AllFit(p, acc[..k], lift) && after == adjust + AccBytes(p, acc[..k], lift, zcb)
      {
        var d := p.code[acc[k].addr];
        var off := Off(d.insn) + (lift + acc[k].moved);
        if off > 2047 { return false; }
        after := after + if d.len == 2 then MemBytes(Kind(d.insn), Data(d.insn), SP, off, zcb) else 4;
        assert acc[..k + 1][..k] == acc[..k];
        k := k + 1;
      }
      assert acc[..k] == acc;
      return after < bytes;
    }

    method WalkRelease(p: Program, a: Word) returns (w: Releases)
      requires a in p.code
      ensures w == ReleaseRun(p, a)
    {
      hide ReleaseNext, ReleaseStart, ReleaseWalk;
      var at: Word := Wrap(a + p.code[a].len);
      var budget := PUSH_WALK;
      w := ReleaseStart(p, a);
      while budget > 0 && ReleaseNext(p, at, w) != None
        invariant 0 <= budget && ReleaseWalk(p, at, w, budget) == ReleaseRun(p, a)
        decreases budget
      {
        ReleaseWalksOn(p, at, w, budget);
        w, at, budget := ReleaseNext(p, at, w).value, Wrap(at + p.code[at].len), budget - 1;
      }
      ReleaseStops(p, at, w, budget);
    }

    method CheckReleaseRun(p: Program, a: Word) returns (f: Option<SpFinding>)
      requires a in p.code
      modifies this
      ensures (f, Marks()) == ReleaseCheck(p, a, zcb, old(Marks()))
    {
      if a < releaseEnd || !Readable(p, a) || SpAdjust(p.code[a].insn) <= 0 { return None; }
      var w := WalkRelease(p, a);
      releaseEnd := w.run.end;
      if |w.run.adj| < 2 { return None; }
      var pays := Pays(p, a, w.run.acc, 0, AdjustBytes(w.run.total, p.code[a].len == 2), w.run.bytes);
      if !pays { return None; }
      releaseLast := w.last;
      return Some(Releasing(a, w));
    }

    /** Asks the push check about the reservation and puts its mark back. */
    method CheckReleaseReserve(p: Program, a: Word) returns (f: Option<SpFinding>)
      requires a in p.code
      modifies this
      ensures f == PairCheck(p, a, zcb, old(Marks())) && Marks() == old(Marks())
    {
      hide IsPair, PairPays, PushCheck;
      if !IsPair(p, a) || a == releaseLast { return None; }
      PairInCode(p, a);
      var b, mark := Wrap(a + p.code[a].len), pushEnd;
      PushMarksOnly(p, b, zcb, Marks());
      var run := CheckPushRun(p, b);
      pushEnd := mark;
      if run.Some? || !PairPays(p, a, b) { return None; }
      return Some(Seam(a, b));
    }

    /** The three checks on one instruction. */
    method VisitAt(p: Program, a: Word) returns (found: seq<SpFinding>)
      requires a in p.code
      modifies this
      ensures (found, Marks()) == Visit(p, a, zcb, old(Marks()))
    {
      hide PushCheck, ReleaseCheck, PairCheck, Found;
      var x := CheckPushRun(p, a);
      var y := CheckReleaseRun(p, a);
      var z := CheckReleaseReserve(p, a);
      return Found(x) + Found(y) + Found(z);
    }

    method Scan(p: Program, order: seq<Word>) returns (found: seq<SpFinding>)
      requires WellFormed(p) && InOrder(p, order) && Marks() == NoMarks
      modifies this
      ensures (found, Marks()) == ScanTo(p, order, zcb)
      ensures AllDisjoint(found) && forall f :: f in found ==> Genuine(p, f)
    {
      hide Visit, Genuine, AllMarked, AllDisjoint, WellFormed, After;
      found := [];
      var k := 0;
      PlacesOf(p, order);
      while k < |order|
        invariant k <= |order| && (found, Marks()) == ScanTo(p, order[..k], zcb)
      {
        var more := VisitAt(p, order[k]);
        found := found + more;
        assert order[..k + 1][..k] == order[..k];
        k := k + 1;
      }
      assert order[..k] == order;
      NothingCountedTwice(p, order, zcb);
      MarkedGenuine(p, zcb, found, After(p, order), Marks());
    }
  }
}
