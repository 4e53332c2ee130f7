/** The findings about stack adjustments, each a rewrite no run can tell, and the
    marks that keep one adjustment from being reported twice. */
module SpFindings {
  import opened Words
  import opened Wrappers
  import opened Machine
  import opened Sweep
  import opened Deletion
  import opened DeletionChecks
  import opened SpShift
  import opened Encoding
  import opened SpRuns

  // ---- the release run ----

  /** The run up to its last release, and the accesses met since, which are not
      in it. */
  datatype Releases = Releases(run: SpRun, open: seq<Acc>, pending: nat, last: Word)

  function ReleaseNext(p: Program, at: Word, w: Releases): Option<Releases> {
    match Meet(p, at)
    case Ends => None
    case Between => Some(w)
    case Access =>
      if |w.run.acc| + |w.open| >= PUSH_ACCESSES then None
      else Some(w.(open := w.open + [Acc(at, w.run.total)], pending := w.pending + p.code[at].len))
    case Adj(k) =>
      if k <= 0 || w.run.total + k > 2047 then None
      else
        var len := p.code[at].len;
        Some(Releases(SpRun(w.run.total + k, w.run.adj + [at], w.run.acc + w.open, w.run.bytes + w.pending + len,
                            Wrap(at + len)),
                      [], 0, at))
  }

  function ReleaseWalk(p: Program, at: Word, w: Releases, budget: nat): Releases
    decreases budget
  {
    if budget == 0 || ReleaseNext(p, at, w) == None then w
    else ReleaseWalk(p, Wrap(at + p.code[at].len), ReleaseNext(p, at, w).value, budget - 1)
  }

  function ReleaseStart(p: Program, a: Word): Releases
    requires a in p.code
  {
    Releases(SpRun(SpAdjust(p.code[a].insn), [a], [], p.code[a].len, Wrap(a + p.code[a].len)), [], 0, a)
  }

  function ReleaseRun(p: Program, a: Word): Releases
    requires a in p.code
  {
    ReleaseWalk(p, Wrap(a + p.code[a].len), ReleaseStart(p, a), PUSH_WALK)
  }

  /** The last release ends the run. */
  ghost predicate EndsAtLast(p: Program, w: Releases) {
    && w.last in p.code && w.last in w.run.adj && w.run.end == w.last + p.code[w.last].len
    && (forall c :: c in w.run.adj ==> c <= w.last)
  }

  ghost predicate AllPositive(p: Program, adj: seq<Word>) {
    forall c :: c in adj ==> c in p.code && SpAdjust(p.code[c].insn) > 0
  }

  ghost predicate AccBelow(acc: seq<Acc>, end: Word) {
    forall k :: 0 <= k < |acc| ==> acc[k].addr < end
  }

  ghost predicate ReleaseSoFar(p: Program, a: Word, at: Word, w: Releases) {
    && Walked(p, a, at) && a < w.run.end <= at && Walked(p, a, w.run.end)
    && Accounted(p, a, at, w.run.adj, w.run.acc + w.open)
    && w.run.total == Risen(p, a, at) == Risen(p, a, w.run.end) && 0 < w.run.total <= 2047
    && EndsAtLast(p, w) && AllPositive(p, w.run.adj) && AccBelow(w.run.acc, w.run.end) && OpenAbove(w.open, w.run.end)
    && NoneBelow(w.run.acc + w.open, 0) && |w.run.adj| > 0 && w.run.adj[0] == a
  }

  lemma ReleaseBetween(p: Program, a: Word, at: Word, w: Releases)
    requires WellFormed(p) && ReleaseSoFar(p, a, at, w) && Meet(p, at) == Between
    ensures ReleaseSoFar(p, a, at + p.code[at].len, w)
  {
    hide WellFormed, Accounted, Risen, Walked, EndsAtLast, AllPositive, AccBelow, OpenAbove;
    WalkedBounds(p, a, at);
    MetBetween(p, at);
    WalkedOn(p, a, at);
    RisenOn(p, a, at);
    RecordPlain(p, a, at, w.run.adj, w.run.acc + w.open);
  }

  lemma ReleaseAccess(p: Program, a: Word, at: Word, w: Releases)
    requires WellFormed(p) && ReleaseSoFar(p, a, at, w) && Meet(p, at) == Access
    ensures at + p.code[at].len < W64
    ensures ReleaseSoFar(p, a, at + p.code[at].len,
                         w.(open := w.open + [Acc(at, w.run.total)], pending := w.pending + p.code[at].len))
  {
    hide WellFormed, Accounted, Risen, Walked, SpAccess, EndsAtLast, AllPositive, AccBelow;
    WalkedBounds(p, a, at);
    MetAccess(p, at);
    WalkedOn(p, a, at);
    Placed(p, at);
    RisenOn(p, a, at);
    RecordAcc(p, a, at, w.run.adj, w.run.acc + w.open);
    assert w.run.acc + w.open + [Acc(at, w.run.total)] == w.run.acc + (w.open + [Acc(at, w.run.total)]);
    var w' := w.(open := w.open + [Acc(at, w.run.total)], pending := w.pending + p.code[at].len);
    assert EndsAtLast(p, w') by { assert EndsAtLast(p, w); SameEnd(p, w, w'); }
  }

  lemma SameEnd(p: Program, w: Releases, w': Releases)
    requires EndsAtLast(p, w) && w'.run == w.run && w'.last == w.last
    ensures EndsAtLast(p, w')
  {
  }

  lemma ReleaseAdj(p: Program, a: Word, at: Word, w: Releases)
    requires WellFormed(p) && ReleaseSoFar(p, a, at, w) && Meet(p, at).Adj?
    requires Meet(p, at).k > 0 && w.run.total + Meet(p, at).k <= 2047
    ensures at + p.code[at].len < W64
    ensures var n := at + p.code[at].len;
            ReleaseSoFar(p, a, n,
              Releases(SpRun(w.run.total + Meet(p, at).k, w.run.adj + [at], w.run.acc + w.open,
                             w.run.bytes + w.pending + p.code[at].len, n),
                       [], 0, at))
  {
    hide WellFormed, Accounted, Risen, Walked, SpAccess;
    WalkedBounds(p, a, at);
    MetAdj(p, at);
    WalkedOn(p, a, at);
    Placed(p, at);
    RisenOn(p, a, at);
    RecordAdj(p, a, at, w.run.adj, w.run.acc + w.open);
    assert w.run.acc + w.open + [] == w.run.acc + w.open;
    AdjBelow(p, a, at, w);
  }

  lemma AdjBelow(p: Program, a: Word, at: Word, w: Releases)
    requires Accounted(p, a, at, w.run.adj, w.run.acc + w.open)
    ensures forall c :: c in w.run.adj ==> c < at
    ensures AccBelow(w.run.acc + w.open, at)
  {
    hide Plain, IsAdjust, SpAccess, Risen;
  }

  lemma ReleaseStep(p: Program, a: Word, at: Word, w: Releases)
    requires WellFormed(p) && ReleaseSoFar(p, a, at, w) && ReleaseNext(p, at, w).Some?
    ensures at in p.code && at + p.code[at].len < W64
    ensures ReleaseSoFar(p, a, at + p.code[at].len, ReleaseNext(p, at, w).value)
  {
    hide WellFormed, ReleaseSoFar, Meet, IsTarget;
    NotEnding(p, at);
    Placed(p, at);
    assert Wrap(at + p.code[at].len) == at + p.code[at].len;
    match Meet(p, at) {
      case Between => ReleaseBetween(p, a, at, w);
      case Access => ReleaseAccess(p, a, at, w);
      case Adj(k) => ReleaseAdj(p, a, at, w);
    }
  }

  lemma {:induction false} ReleaseWalkSound(p: Program, a: Word, at: Word, w: Releases, budget: nat)
    requires WellFormed(p) && ReleaseSoFar(p, a, at, w)
    ensures exists at' :: ReleaseSoFar(p, a, at', ReleaseWalk(p, at, w, budget))
    decreases budget
  {
    hide ReleaseSoFar, WellFormed, ReleaseNext;
    if budget == 0 || ReleaseNext(p, at, w) == None {
      assert ReleaseSoFar(p, a, at, ReleaseWalk(p, at, w, budget));
    } else {
      ReleaseStep(p, a, at, w);
      var n := at + p.code[at].len;
      assert Wrap(n) == n;
      var w' := ReleaseNext(p, at, w).value;
      ReleaseWalkSound(p, a, n, w', budget - 1);
      assert ReleaseWalk(p, at, w, budget) == ReleaseWalk(p, n, w', budget - 1);
    }
  }

  lemma ReleaseStarts(p: Program, a: Word)
    requires WellFormed(p) && a in p.code && 0 < SpAdjust(p.code[a].insn) <= 2047
    ensures a + p.code[a].len < W64 && ReleaseSoFar(p, a, a + p.code[a].len, ReleaseStart(p, a))
  {
    hide WellFormed, Meet;
    WalkedStarts(p, a);
    Placed(p, a);
    hide Walked, Risen;
  }

  /** The edits of the run: the adjustments gone but the last, which does them
      all, and the accesses re-offset to reach past what is not yet released. */
  function ReleaseEdits(p: Program, w: Releases): map<Word, Insn>
    requires AccInCode(p, w.run.acc)
  {
    (map c | c in w.run.adj :: if c == w.last then Adjust(w.run.total) else Nop) + AccEdits(p, w.run.acc, 0)
  }

  lemma ReleaseEditsAre(p: Program, w: Releases)
    requires AccInCode(p, w.run.acc) && (forall c :: c in w.run.adj ==> c in p.code && IsAdjust(p.code[c].insn))
    requires Consistent(w.run.acc)
    ensures var e := ReleaseEdits(p, w);
            && (forall c :: c in e ==> c in w.run.adj || HasAcc(w.run.acc, c))
            && (forall c :: c in w.run.adj ==> c in e && e[c] == if c == w.last then Adjust(w.run.total) else Nop)
            && (forall k :: 0 <= k < |w.run.acc| ==> AccDone(p, e, 0, w.run.acc[k]))
  {
    hide SpAccess, WithOffset, Adjust, Risen, AccEdits, Consistent, AccInCode;
    AccEditsAre(p, w.run.acc, 0);
    AdjApart(p, w.run.adj, w.run.acc);
    var m, e := AccEdits(p, w.run.acc, 0), ReleaseEdits(p, w);
    forall k | 0 <= k < |w.run.acc| ensures AccDone(p, e, 0, w.run.acc[k]) {
      assert AccDone(p, m, 0, w.run.acc[k]);
    }
  }

  /** What was met up to the run's end is what the run holds. */
  lemma CommittedPrefix(p: Program, a: Word, end: Word, at: int, adj: seq<Word>, acc: seq<Acc>, open: seq<Acc>)
    requires Accounted(p, a, at, adj, acc + open) && end <= at
    requires forall c :: c in adj ==> c < end
    requires AccBelow(acc, end) && OpenAbove(open, end)
    ensures Accounted(p, a, end, adj, acc)
  {
    hide SpAccess, Plain, IsAdjust, Risen;
    forall k | 0 <= k < |acc|
      ensures acc[k].addr in p.code && a < acc[k].addr < end && SpAccess(p.code[acc[k].addr].insn)
              && acc[k].moved == Risen(p, a, acc[k].addr)
    {
      assert (acc + open)[k] == acc[k];
    }
    forall c | c in p.code && a <= c < end && HasAcc(acc + open, c) ensures HasAcc(acc, c) {
      EitherHas(acc, open, c);
    }
  }

  lemma EitherHas(acc: seq<Acc>, open: seq<Acc>, c: Word)
    requires HasAcc(acc + open, c)
    ensures HasAcc(acc, c) || HasAcc(open, c)
  {
    var k :| 0 <= k < |acc + open| && (acc + open)[k].addr == c;
    if k < |acc| {
      assert acc[k].addr == c;
    } else {
      assert open[k - |acc|].addr == c;
    }
  }

  ghost predicate OpenAbove(open: seq<Acc>, end: Word) {
    forall k :: 0 <= k < |open| ==> open[k].addr >= end
  }

  lemma ReleaseAdjDone(p: Program, a: Word, end: Word, total: int, e: map<Word, Insn>, c: Word, last: Word)
    requires WellFormed(p) && Walked(p, a, end) && c in p.code && a <= c < end && total == Risen(p, a, end)
    requires last in p.code && end == last + p.code[last].len
    requires c in e && e[c] == if c == last then Adjust(total) else Nop
    ensures AdjDone(p, e, a, end, 0, c)
  {
    hide WellFormed, Walked, Risen, OffBy, Delta, SpAdjust;
    OffByAt(p, a, end, 0, c);
    Apart(p, c, last);
    Placed(p, c);
    Placed(p, last);
  }

  lemma ReleaseRestacks(p: Program, a: Word, at: Word, w: Releases)
    requires WellFormed(p) && ReleaseSoFar(p, a, at, w)
    ensures AccInCode(p, w.run.acc)
    ensures Restacked(p, Apply(p, ReleaseEdits(p, w)), a, w.run.end, Delta(p, a, w.run.end, 0))
  {
    hide WellFormed, Walked, Restacked, Contiguous, SpAccess, Accounted, Risen, AdjDone, AccDone, Delta, AccBelow,
         OpenAbove;
    var adj, acc, end := w.run.adj, w.run.acc, w.run.end;
    Placed(p, w.last);
    CommittedPrefix(p, a, end, at, adj, acc, w.open);
    SameMoved(p, a, end, adj, acc);
    RunKeys(p, a, end, adj, acc);
    ReleaseEditsAre(p, w);
    hide ReleaseEdits;
    var e := ReleaseEdits(p, w);
    forall c | c in adj ensures AdjDone(p, e, a, end, 0, c) {
      ReleaseAdjDone(p, a, end, w.run.total, e, c, w.last);
    }
    forall c | c in p.code && a < c < end
      ensures c + p.code[c].len == end && SpAdjust(p.code[c].insn) == 0 ==> Risen(p, a, end) == 0
    {
      Apart(p, c, w.last);
    }
    RunRestacks(p, e, a, end, 0, adj, acc);
  }

  // ---- the pair ----

  /** A release directly followed by a reservation. */
  predicate IsPair(p: Program, a: Word) {
    && a in p.code && SpAdjust(p.code[a].insn) > 0 && Readable(p, a)
    && var b := Wrap(a + p.code[a].len);
       Meet(p, b).Adj? && Meet(p, b).k < 0
  }

  function Net(p: Program, a: Word, b: Word): int
    requires a in p.code && b in p.code
  {
    SpAdjust(p.code[a].insn) + SpAdjust(p.code[b].insn)
  }

  function PairEdits(p: Program, a: Word, b: Word): map<Word, Insn>
    requires a in p.code && b in p.code
  {
    map[b := Nop][a := Adjust(Net(p, a, b))]
  }

  lemma PairWalked(p: Program, a: Word)
    requires WellFormed(p) && IsPair(p, a)
    ensures var b := Wrap(a + p.code[a].len);
            && b == a + p.code[a].len && b in p.code && SpAdjust(p.code[b].insn) < 0
            && b + p.code[b].len < W64 && Walked(p, a, b + p.code[b].len)
            && Accounted(p, a, b + p.code[b].len, [a, b], [])
            && Risen(p, a, b + p.code[b].len) == Net(p, a, b)
  {
    hide WellFormed, Meet, Walked, Risen, SpAdjust, Accounted;
    Placed(p, a);
    Small(p.code[a].insn);
    ReleaseStarts(p, a);
    hide EndsAtLast, AllPositive, AccBelow, OpenAbove;
    var b: Word := a + p.code[a].len;
    assert Wrap(b) == b;
    MetAdj(p, b);
    WalkedOn(p, a, b);
    RisenOn(p, a, b);
    Placed(p, b);
    assert ReleaseStart(p, a).run.acc + ReleaseStart(p, a).open == [];
    RecordAdj(p, a, b, [a], []);
    assert [a] + [b] == [a, b];
  }

  lemma Small(i: Insn)
    requires PlainInsn(i)
    ensures -2048 <= SpAdjust(i) <= 2047
  {
  }

  lemma PairRestacks(p: Program, a: Word)
    requires WellFormed(p) && IsPair(p, a)
    ensures var b := Wrap(a + p.code[a].len);
            b in p.code && b + p.code[b].len < W64
            && var end := b + p.code[b].len;
               Restacked(p, Apply(p, PairEdits(p, a, b)), a, end, Delta(p, a, end, Net(p, a, b)))
  {
    hide WellFormed, Walked, Restacked, Contiguous, Accounted, Risen, AdjDone, Delta, SpAdjust, Net, IsPair, Adjust;
    PairInCode(p, a);
    PairWalked(p, a);
    var b := Wrap(a + p.code[a].len);
    var end: Word := b + p.code[b].len;
    var e, base, adj := PairEdits(p, a, b), Net(p, a, b), [a, b];
    Placed(p, a);
    Placed(p, b);
    PairAdjDone(p, a, b, end, e, a);
    PairAdjDone(p, a, b, end, e, b);
    forall c | c in p.code && a < c < end
      ensures c + p.code[c].len == end && SpAdjust(p.code[c].insn) == 0 ==> Risen(p, a, end) == base
    {
      Apart(p, c, b);
    }
    forall c | c in e ensures a <= c < end && c in adj { assert c == a || c == b; }
    RunRestacks(p, e, a, end, base, adj, []);
  }

  lemma PairAdjDone(p: Program, a: Word, b: Word, end: Word, e: map<Word, Insn>, c: Word)
    requires WellFormed(p) && Walked(p, a, end) && a in p.code && b in p.code && b == a + p.code[a].len
             && end == b + p.code[b].len
    requires a < b < end && (c == a || c == b) && e == PairEdits(p, a, b) && Risen(p, a, end) == Net(p, a, b)
    ensures AdjDone(p, e, a, end, Net(p, a, b), c)
  {
    hide WellFormed, Walked, Risen, OffBy, Delta, SpAdjust;
    OffByAt(p, a, end, Net(p, a, b), a);
    OffByAt(p, a, end, Net(p, a, b), b);
  }

  // ---- the three checks ----

  datatype SpFinding =
    | Pushing(at: Word, push: SpRun)
    | Releasing(at: Word, release: Releases)
    | Seam(at: Word, second: Word)

  /** Where the next push and release run may begin, and the last release of the
      run reported last. */
  datatype Marks = Marks(push: Word, release: Word, last: Word)

  const NoMarks: Marks := Marks(0, 0, W64 - 1)

  predicate PushPays(p: Program, a: Word, w: SpRun, zcb: bool)
    requires a in p.code
  {
    && AccInCode(p, w.acc) && |w.adj| >= 2 && AllFit(p, w.acc, w.total)
    && AdjustBytes(-w.total, p.code[a].len == 2) + AccBytes(p, w.acc, w.total, zcb) < w.bytes
  }

  predicate ReleasePays(p: Program, a: Word, w: Releases, zcb: bool)
    requires a in p.code
  {
    && AccInCode(p, w.run.acc) && |w.run.adj| >= 2 && AllFit(p, w.run.acc, 0)
    && AdjustBytes(w.run.total, p.code[a].len == 2) + AccBytes(p, w.run.acc, 0, zcb) < w.run.bytes
  }

  predicate PairPays(p: Program, a: Word, b: Word)
    requires a in p.code && b in p.code
  {
    var la, lb, net := p.code[a].len, p.code[b].len, Net(p, a, b);
    (if net == 0 then 0 else AdjustBytes(net, la == 2 && lb == 2)) < la + lb
  }

  /** A finding, if any, and the marks afterwards. */
  type Answer = (Option<SpFinding>, Marks)

  function PushCheck(p: Program, a: Word, zcb: bool, m: Marks): Answer
    requires a in p.code
  {
    if a < m.push || !Readable(p, a) || SpAdjust(p.code[a].insn) >= 0 then (None, m)
    else
      var w := PushRun(p, a);
      (if PushPays(p, a, w, zcb) then Some(Pushing(a, w)) else None, m.(push := w.end))
  }

  function ReleaseCheck(p: Program, a: Word, zcb: bool, m: Marks): Answer
    requires a in p.code
  {
    if a < m.release || !Readable(p, a) || SpAdjust(p.code[a].insn) <= 0 then (None, m)
    else
      var w := ReleaseRun(p, a);
      if ReleasePays(p, a, w, zcb) then (Some(Releasing(a, w)), m.(release := w.run.end, last := w.last))
      else (None, m.(release := w.run.end))
  }

  /** The pair, unless one of its halves is or will be in a run. */
  function PairCheck(p: Program, a: Word, zcb: bool, m: Marks): Option<SpFinding>
    requires a in p.code
  {
    var b := Wrap(a + p.code[a].len);
    if IsPair(p, a) && a != m.last && PushCheck(p, b, zcb, m).0 == None && PairPays(p, a, b) then Some(Seam(a, b))
        else None
  }

  function Found(f: Option<SpFinding>): seq<SpFinding> {
    if f.None? then [] else [f.value]
  }

  /** One instruction of the scan: the three checks in their order. */
  function Visit(p: Program, a: Word, zcb: bool, m: Marks): (seq<SpFinding>, Marks)
    requires a in p.code
  {
    var x := PushCheck(p, a, zcb, m);
    var y := ReleaseCheck(p, a, zcb, x.1);
    (Found(x.0) + Found(y.0) + Found(PairCheck(p, a, zcb, y.1)), y.1)
  }

  // ---- each finding is a rewrite no run can tell ----

  function FindingEnd(p: Program, f: SpFinding): Word {
    match f
    case Pushing(_, w) => w.end
    case Releasing(_, w) => w.run.end
    case Seam(_, b) => if b in p.code then Wrap(b + p.code[b].len) else b
  }

  /** The adjustments a finding counts. */
  function Adjustments(f: SpFinding): seq<Word> {
    match f
    case Pushing(_, w) => w.adj
    case Releasing(_, w) => w.run.adj
    case Seam(a, b) => [a, b]
  }

  /** The instructions it puts in place. */
  function FindingEdits(p: Program, f: SpFinding): map<Word, Insn> {
    match f
    case Pushing(a, w) => if AccInCode(p, w.acc) then PushEdits(p, a, w) else map[]
    case Releasing(_, w) => if AccInCode(p, w.run.acc) then ReleaseEdits(p, w) else map[]
    case Seam(a, b) => if a in p.code && b in p.code then PairEdits(p, a, b) else map[]
  }

  /** What a reported finding stands for. */
  ghost predicate Genuine(p: Program, f: SpFinding) {
    match f
    case Pushing(a, w) => (exists at :: PushSoFar(p, a, at, w)) && AccInCode(p, w.acc) && AllFit(p, w.acc, w.total)
    case Releasing(a, w) => (exists at :: ReleaseSoFar(p, a, at, w)) && AccInCode(p, w.run.acc)
      && AllFit(p, w.run.acc, 0)
    case Seam(a, b) => IsPair(p, a) && b == Wrap(a + p.code[a].len)
  }

  lemma PushIsGenuine(p: Program, a: Word, zcb: bool, m: Marks)
    requires WellFormed(p) && a in p.code && PushCheck(p, a, zcb, m).0.Some?
    ensures Genuine(p, PushCheck(p, a, zcb, m).0.value) && SpAdjust(p.code[a].insn) < 0
  {
    hide WellFormed, PushSoFar, SpAdjust, AdjustBytes, AccBytes, PushWalk, PushStart, AllFit, AccInCode;
    Placed(p, a);
    Small(p.code[a].insn);
    PushStarts(p, a);
    assert Wrap(a + p.code[a].len) == a + p.code[a].len;
    PushWalkSound(p, a, a + p.code[a].len, PushStart(p, a), PUSH_WALK);
  }

  lemma ReleaseIsGenuine(p: Program, a: Word, zcb: bool, m: Marks)
    requires WellFormed(p) && a in p.code && ReleaseCheck(p, a, zcb, m).0.Some?
    ensures Genuine(p, ReleaseCheck(p, a, zcb, m).0.value) && SpAdjust(p.code[a].insn) > 0
  {
    hide WellFormed, ReleaseSoFar, SpAdjust, AdjustBytes, AccBytes, ReleaseWalk, ReleaseStart, AllFit, AccInCode;
    Placed(p, a);
    Small(p.code[a].insn);
    ReleaseStarts(p, a);
    assert Wrap(a + p.code[a].len) == a + p.code[a].len;
    ReleaseWalkSound(p, a, a + p.code[a].len, ReleaseStart(p, a), PUSH_WALK);
  }

  ghost predicate Restackable(p: Program, f: SpFinding, delta: map<int, int>) {
    Restacked(p, Apply(p, FindingEdits(p, f)), f.at, FindingEnd(p, f), delta)
  }

  lemma GenuineRestacks(p: Program, f: SpFinding) returns (delta: map<int, int>)
    requires WellFormed(p) && Genuine(p, f)
    ensures Restackable(p, f, delta)
  {
    hide WellFormed, PushSoFar, ReleaseSoFar, Restacked, AllFit, PushEdits, ReleaseEdits, PairEdits, AccInCode, IsPair;
    match f {
      case Pushing(a, w) =>
        var at :| PushSoFar(p, a, at, w);
        PushRestacks(p, a, at, w);
        delta := Delta(p, a, w.end, -w.total);
      case Releasing(a, w) =>
        var at :| ReleaseSoFar(p, a, at, w);
        ReleaseRestacks(p, a, at, w);
        delta := Delta(p, a, w.run.end, 0);
      case Seam(a, b) =>
        PairRestacks(p, a);
        PairInCode(p, a);
        delta := Delta(p, a, b + p.code[b].len, Net(p, a, b));
        assert Wrap(b + p.code[b].len) == b + p.code[b].len;
    }
  }

  lemma PairInCode(p: Program, a: Word)
    requires IsPair(p, a)
    ensures a in p.code && Wrap(a + p.code[a].len) in p.code
  {
    hide IsTarget;
  }

  /** The program with one finding carried out runs as the original does: at every
      step outside the stretch the very same state. */
  lemma FindingIsInvisible(p: Program, f: SpFinding, s: State, n: nat)
    requires WellFormed(p) && Genuine(p, f) && NoLandingInside(p, f.at, FindingEnd(p, f))
    requires !(f.at < s.pc < FindingEnd(p, f)) && !(f.at < Run(p, s, n).pc < FindingEnd(p, f))
    ensures Run(Apply(p, FindingEdits(p, f)), s, n) == Run(p, s, n)
  {
    hide WellFormed, Genuine, Restacked, Run, NoLandingInside, FindingEdits, FindingEnd;
    var delta := GenuineRestacks(p, f);
    RestackingIsInvisible(p, Apply(p, FindingEdits(p, f)), f.at, FindingEnd(p, f), delta, s, n);
  }

  // ---- the new immediates fit ----

  lemma {:induction false} AccEditsFit(p: Program, acc: seq<Acc>, lift: int)
    requires WellFormed(p) && AccInCode(p, acc) && AllFit(p, acc, lift) && NoneBelow(acc, lift)
    ensures forall c :: c in AccEdits(p, acc, lift) ==> PlainInsn(AccEdits(p, acc, lift)[c])
  {
    hide WellFormed, SpAccess;
    if acc != [] {
      var x := acc[|acc| - 1];
      Placed(p, x.addr);
      AccEditsFit(p, acc[..|acc| - 1], lift);
    }
  }

  lemma AdjustFits(k: int)
    requires -2048 <= k <= 2047
    ensures PlainInsn(Adjust(k)) && PlainInsn(Nop) && Adjust(0) == Nop
  {
  }

  lemma PushFits(p: Program, a: Word, at: Word, w: SpRun)
    requires WellFormed(p) && PushSoFar(p, a, at, w) && AccInCode(p, w.acc) && AllFit(p, w.acc, w.total)
    ensures forall c :: c in PushEdits(p, a, w) ==> PlainInsn(PushEdits(p, a, w)[c])
  {
    hide WellFormed, AllFit, AccEdits, SpAccess, AccInCode, Accounted, Risen, Walked, SpAdjust, Adjust, PlainInsn;
    AccEditsFit(p, w.acc, w.total);
    AdjustFits(-w.total);
  }

  lemma ReleaseFits(p: Program, a: Word, at: Word, w: Releases)
    requires WellFormed(p) && ReleaseSoFar(p, a, at, w) && AccInCode(p, w.run.acc) && AllFit(p, w.run.acc, 0)
    ensures forall c :: c in ReleaseEdits(p, w) ==> PlainInsn(ReleaseEdits(p, w)[c])
  {
    hide WellFormed, AllFit, AccEdits, SpAccess, AccInCode, Accounted, Risen, Walked, SpAdjust, Adjust, PlainInsn,
         EndsAtLast, AllPositive;
    assert NoneBelow(w.run.acc, 0) by {
      assert forall k :: 0 <= k < |w.run.acc| ==> (w.run.acc + w.open)[k] == w.run.acc[k];
    }
    AccEditsFit(p, w.run.acc, 0);
    AdjustFits(w.run.total);
  }

  lemma SeamFits(p: Program, a: Word)
    requires WellFormed(p) && IsPair(p, a) && a in p.code && Wrap(a + p.code[a].len) in p.code
    ensures var e := PairEdits(p, a, Wrap(a + p.code[a].len)); forall c :: c in e ==> PlainInsn(e[c])
  {
    hide WellFormed, SpAdjust, Walked, Accounted, Adjust, PlainInsn, IsTarget;
    var b := Wrap(a + p.code[a].len);
    PairWalked(p, a);
    Placed(p, a);
    Placed(p, b);
    Small(p.code[a].insn);
    Small(p.code[b].insn);
    AdjustFits(Net(p, a, b));
  }

  /** Every instruction a finding puts in place can be encoded. */
  lemma EditsFit(p: Program, f: SpFinding)
    requires WellFormed(p) && Genuine(p, f)
    ensures forall c :: c in FindingEdits(p, f) ==> PlainInsn(FindingEdits(p, f)[c])
  {
    hide WellFormed, PushSoFar, ReleaseSoFar, AllFit, AccInCode, PushEdits, ReleaseEdits, PairEdits, IsPair, PlainInsn;
    match f {
      case Pushing(a, w) =>
        var at :| PushSoFar(p, a, at, w);
        PushFits(p, a, at, w);
      case Releasing(a, w) =>
        var at :| ReleaseSoFar(p, a, at, w);
        ReleaseFits(p, a, at, w);
      case Seam(a, b) =>
        PairInCode(p, a);
        SeamFits(p, a);
    }
  }
}
