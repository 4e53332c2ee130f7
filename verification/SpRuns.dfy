/** Runs of stack adjustments one addi would do: the push run, the release run read
    backwards, and the release directly followed by a reservation. */
module SpRuns {
  import opened Words
  import opened Wrappers
  import opened Machine
  import opened Sweep
  import opened Deletion
  import opened DeletionChecks
  import opened Encoding
  import opened SpShift

  const PUSH_WALK: nat := 64
  const PUSH_ACCESSES: nat := 32

  // ---- what the walks meet ----

  /** Two-byte c.fsdsp, whose space Zcmp's push and pop reuse. */
  predicate FsdSp(d: Decoded) {
    d.len == 2 && d.insn.Store? && d.insn.kind == FSD && d.insn.base == SP
  }

  predicate UsesSp(i: Insn) {
    (i.Load? || i.Store?) && i.base == SP
  }

  /** An instruction that neither reads nor writes sp and does not end the walk. */
  predicate Neutral(d: Decoded) {
    SP !in d.names && !StopsWalk(d.insn)
  }

  datatype Met = Adj(k: int) | Access | Between | Ends

  function Meet(p: Program, at: Word): Met {
    if at !in p.code || IsTarget(p, at) || !Readable(p, at) then Ends
    else
      var d := p.code[at];
      if d.insn == Alu(Add, SP, SP, K(SpAdjust(d.insn))) then Adj(SpAdjust(d.insn))
      else if FsdSp(d) then Ends
      else if UsesSp(d.insn) then (if SpAccess(d.insn) then Access else Ends)
      else if Neutral(d) then Between else Ends
  }

  /** sp's displacement since `a`, from the adjustments between. */
  function Risen(p: Program, a: Word, c: Word): int
    decreases c
  {
    if c <= a then 0
    else
      match Prev(p, c)
      case None => 0
      case Some(b) => if b < a then 0 else Risen(p, a, b) + SpAdjust(p.code[b].insn)
  }

  lemma RisenOn(p: Program, a: Word, at: Word)
    requires WellFormed(p) && a <= at && at in p.code
    ensures at + p.code[at].len < W64
    ensures Risen(p, a, at + p.code[at].len) == Risen(p, a, at) + SpAdjust(p.code[at].insn)
  {
    hide WellFormed;
    PrevOfNext(p, at);
    Placed(p, at);
  }

  /** Every instruction from `a` to `at` is met and let by. */
  ghost predicate Walked(p: Program, a: Word, at: int) {
    && a in p.code && a < at < W64 && Contiguous(p, a, at)
    && SpAdjust(p.code[a].insn) != 0
    && forall c :: c in p.code && a < c < at ==> !Meet(p, c).Ends?
  }

  lemma WalkedOn(p: Program, a: Word, at: Word)
    requires WellFormed(p) && Walked(p, a, at) && !Meet(p, at).Ends?
    ensures at in p.code && Walked(p, a, at + p.code[at].len)
    ensures forall c :: c in p.code && a <= c < at + p.code[at].len ==> c == at || (c < at && c + p.code[c].len <= at)
  {
    hide IsTarget, WellFormed, Contiguous;
    Placed(p, at);
    ContiguousGrows(p, a, at);
  }

  lemma WalkedStarts(p: Program, a: Word)
    requires WellFormed(p) && a in p.code && SpAdjust(p.code[a].insn) != 0
    ensures a + p.code[a].len < W64 && Walked(p, a, a + p.code[a].len)
            && Risen(p, a, a + p.code[a].len) == SpAdjust(p.code[a].insn)
    ensures forall c :: c in p.code && a <= c < a + p.code[a].len ==> c == a
  {
    hide WellFormed, Meet;
    Placed(p, a);
    RisenOn(p, a, a);
    forall c | c in p.code && a <= c < a + p.code[a].len ensures c == a { Apart(p, a, c); }
  }

  /** An access of a run, and how far the run had moved sp by then. */
  datatype Acc = Acc(addr: Word, moved: int)

  predicate AccInCode(p: Program, acc: seq<Acc>) {
    forall k :: 0 <= k < |acc| ==> acc[k].addr in p.code && SpAccess(p.code[acc[k].addr].insn)
  }

  predicate HasAcc(acc: seq<Acc>, c: Word) {
    exists k :: 0 <= k < |acc| && acc[k].addr == c
  }

  /** The accesses with their offsets lifted by `lift` and what sp had moved. */
  function AccEdits(p: Program, acc: seq<Acc>, lift: int): map<Word, Insn>
    requires AccInCode(p, acc)
  {
    if acc == [] then map[]
    else
      var last := acc[|acc| - 1];
      var i := p.code[last.addr].insn;
      AccEdits(p, acc[..|acc| - 1], lift)[last.addr := WithOffset(i, Off(i) + (lift + last.moved))]
  }

  function Off(i: Insn): int {
    if i.Load? || i.Store? then i.off else 0
  }

  function Kind(i: Insn): MemKind {
    if i.Load? || i.Store? then i.kind else LD
  }

  function Data(i: Insn): Reg {
    if i.Load? then i.rd else if i.Store? then i.data else 0
  }

  /** Each access, re-offset, still fits its immediate. */
  predicate AllFit(p: Program, acc: seq<Acc>, lift: int)
    requires forall k :: 0 <= k < |acc| ==> acc[k].addr in p.code
  {
    forall k :: 0 <= k < |acc| ==> Off(p.code[acc[k].addr].insn) + (lift + acc[k].moved) <= 2047
  }

  function AccBytes(p: Program, acc: seq<Acc>, lift: int, zcb: bool): nat
    requires AccInCode(p, acc)
  {
    if acc == [] then 0
    else
      var last := acc[|acc| - 1];
      var d := p.code[last.addr];
      AccBytes(p, acc[..|acc| - 1], lift, zcb) +
      (if d.len == 2 then MemBytes(Kind(d.insn), Data(d.insn), SP, Off(d.insn) + (lift + last.moved), zcb) else 4)
  }

  ghost predicate AccDone(p: Program, e: map<Word, Insn>, base: int, x: Acc) {
    && x.addr in p.code && x.addr in e
    && e[x.addr] == WithOffset(p.code[x.addr].insn, Off(p.code[x.addr].insn) + (x.moved - base))
  }

  /** One address, one displacement. */
  ghost predicate Consistent(acc: seq<Acc>) {
    forall j, k :: 0 <= j < |acc| && 0 <= k < |acc| && acc[j].addr == acc[k].addr ==> acc[j].moved == acc[k].moved
  }

  lemma {:induction false} AccEditsAre(p: Program, acc: seq<Acc>, lift: int)
    requires AccInCode(p, acc) && Consistent(acc)
    ensures forall c :: c in AccEdits(p, acc, lift) ==> HasAcc(acc, c)
    ensures forall k :: 0 <= k < |acc| ==> AccDone(p, AccEdits(p, acc, lift), -lift, acc[k])
  {
    hide SpAccess, WithOffset;
    if acc != [] {
      var n := |acc| - 1;
      AccEditsAre(p, acc[..n], lift);
      var e, was := AccEdits(p, acc, lift), AccEdits(p, acc[..n], lift);
      var i := p.code[acc[n].addr].insn;
      assert e == was[acc[n].addr := WithOffset(i, Off(i) + (lift + acc[n].moved))];
      forall c | c in e ensures HasAcc(acc, c) {
        if c != acc[n].addr {
          assert HasAcc(acc[..n], c);
          var k :| 0 <= k < |acc[..n]| && acc[..n][k].addr == c;
          assert acc[k].addr == c;
        }
      }
      forall k | 0 <= k < |acc|
        ensures AccDone(p, e, -lift, acc[k])
      {
        if k < n {
          assert AccDone(p, was, -lift, acc[..n][k]);
        }
      }
    }
  }

  // ---- what both walks collect ----

  /** A run: its adjustments, the accesses among them, where it ends. */
  datatype SpRun = SpRun(total: int, adj: seq<Word>, acc: seq<Acc>, bytes: nat, end: Word)

  /** The accesses recorded are those of the stretch, each with sp's displacement
      there. */
  ghost predicate Accounted(p: Program, a: Word, end: int, adj: seq<Word>, acc: seq<Acc>) {
    && (forall c :: c in adj ==> c in p.code && a <= c < end && IsAdjust(p.code[c].insn))
    && (forall k :: 0 <= k < |acc| ==>
          && acc[k].addr in p.code && a < acc[k].addr < end && SpAccess(p.code[acc[k].addr].insn)
          && acc[k].moved == Risen(p, a, acc[k].addr))
    && (forall c :: c in p.code && a <= c < end ==>
          c in adj || (a < c && (HasAcc(acc, c) || Plain(p.code[c]))))
  }

  predicate IsAdjust(i: Insn) {
    SpAdjust(i) != 0
  }

  predicate Plain(d: Decoded) {
    Neutral(d) && SpAdjust(d.insn) == 0
  }

  lemma RecordAdj(p: Program, a: Word, at: Word, adj: seq<Word>, acc: seq<Acc>)
    requires WellFormed(p) && Accounted(p, a, at, adj, acc) && at in p.code && a <= at && IsAdjust(p.code[at].insn)
    requires forall c :: c in p.code && a <= c < at + p.code[at].len ==> c == at || c < at
    ensures Accounted(p, a, at + p.code[at].len, adj + [at], acc)
  {
    hide SpAccess, Plain, WellFormed, IsAdjust, Risen;
    Placed(p, at);
  }

  lemma RecordAcc(p: Program, a: Word, at: Word, adj: seq<Word>, acc: seq<Acc>)
    requires WellFormed(p) && Accounted(p, a, at, adj, acc) && at in p.code && a < at && SpAccess(p.code[at].insn)
    requires forall c :: c in p.code && a <= c < at + p.code[at].len ==> c == at || c < at
    ensures Accounted(p, a, at + p.code[at].len, adj, acc + [Acc(at, Risen(p, a, at))])
  {
    hide SpAccess, Plain, WellFormed, IsAdjust, Risen;
    Placed(p, at);
    var acc' := acc + [Acc(at, Risen(p, a, at))];
    assert acc'[|acc|].addr == at;
    forall c | c in p.code && a <= c < at + p.code[at].len
      ensures c in adj || (a < c && (HasAcc(acc', c) || Plain(p.code[c])))
    {
      if c != at && c !in adj && !Plain(p.code[c]) {
        var k :| 0 <= k < |acc| && acc[k].addr == c;
        assert acc'[k].addr == c;
      }
    }
  }

  lemma RecordPlain(p: Program, a: Word, at: Word, adj: seq<Word>, acc: seq<Acc>)
    requires WellFormed(p) && Accounted(p, a, at, adj, acc) && at in p.code && a < at && Plain(p.code[at])
    requires forall c :: c in p.code && a <= c < at + p.code[at].len ==> c == at || c < at
    ensures Accounted(p, a, at + p.code[at].len, adj, acc)
  {
    hide SpAccess, Plain, WellFormed, IsAdjust, Risen;
    Placed(p, at);
  }

  /** The instructions after the run's end were all let by without touching sp. */
  lemma AccountedPrefix(p: Program, a: Word, end: Word, at: int, adj: seq<Word>, acc: seq<Acc>)
    requires Accounted(p, a, at, adj, acc) && end <= at
    requires forall c :: c in adj ==> c < end
    requires forall k :: 0 <= k < |acc| ==> acc[k].addr < end
    ensures Accounted(p, a, end, adj, acc)
  {
    hide SpAccess, Plain, IsAdjust, Risen;
  }

  // ---- the rewrite ----

  /** sp in the rewritten run, relative to the original, arriving at `c`. */
  function Delta(p: Program, a: Word, end: Word, base: int): map<int, int> {
    map c: int | c in p.code && a < c < end :: base - Risen(p, a, c)
  }

  /** An adjustment becomes what the two displacements ask for. */
  ghost predicate AdjDone(p: Program, e: map<Word, Insn>, a: Word, end: Word, base: int, c: Word) {
    && c in p.code && c in e
    && var delta := Delta(p, a, end, base);
       e[c] == Adjust(OffBy(delta, a, end, c + p.code[c].len) - OffBy(delta, a, end, c) + SpAdjust(p.code[c].insn))
  }

  ghost predicate Restacks(p: Program, e: map<Word, Insn>, a: Word, end: Word, base: int, adj: seq<Word>,
                           acc: seq<Acc>) {
    && (forall c :: c in e ==> a <= c < end && (c in adj || HasAcc(acc, c)))
    && (forall c :: c in adj ==> AdjDone(p, e, a, end, base, c))
    && (forall k :: 0 <= k < |acc| ==> AccDone(p, e, base, acc[k]))
  }

  /** Off by the same after an instruction that leaves sp alone. */
  lemma OffByOn(p: Program, a: Word, end: Word, base: int, c: Word)
    requires WellFormed(p) && Contiguous(p, a, end) && c in p.code && a < c < end && SpAdjust(p.code[c].insn) == 0
    requires Risen(p, a, end) == base || c + p.code[c].len < end
    ensures OffBy(Delta(p, a, end, base), a, end, c) == base - Risen(p, a, c)
    ensures OffBy(Delta(p, a, end, base), a, end, c + p.code[c].len) == base - Risen(p, a, c)
  {
    hide Risen, WellFormed, OffBy, Delta;
    Placed(p, c);
    RisenOn(p, a, c);
    NextInCode(p, a, end, c);
    DeltaAt(p, a, end, base, c);
    DeltaAt(p, a, end, base, c + p.code[c].len);
  }

  lemma RunRestacks(p: Program, e: map<Word, Insn>, a: Word, end: Word, base: int, adj: seq<Word>, acc: seq<Acc>)
    requires WellFormed(p) && Walked(p, a, end) && Accounted(p, a, end, adj, acc)
             && Restacks(p, e, a, end, base, adj, acc)
    requires forall c :: c in p.code && a < c < end && c + p.code[c].len == end && SpAdjust(p.code[c].insn) == 0 ==>
               Risen(p, a, end) == base
    ensures Restacked(p, Apply(p, e), a, end, Delta(p, a, end, base))
  {
    hide WellFormed, IsTarget, Risen, SpAccess, Shifts, Neutral;
    var q, delta := Apply(p, e), Delta(p, a, end, base);
    ApplyShape(p, e, a, end);
    forall c | c in p.code && a < c < end ensures !IsTarget(p, c) {
      assert !Meet(p, c).Ends?;
    }
    forall c | c in p.code && a <= c < end
      ensures Shifts(p.code[c].insn, q.code[c].insn, OffBy(delta, a, end, c), OffBy(delta, a, end, c + p.code[c].len))
    {
      InstructionShifts(p, e, a, end, base, adj, acc, c);
    }
  }

  lemma InstructionShifts(p: Program, e: map<Word, Insn>, a: Word, end: Word, base: int, adj: seq<Word>,
                          acc: seq<Acc>, c: Word)
    requires WellFormed(p) && Walked(p, a, end) && Accounted(p, a, end, adj, acc)
             && Restacks(p, e, a, end, base, adj, acc)
    requires c in p.code && a <= c < end
    requires a < c && c + p.code[c].len == end && SpAdjust(p.code[c].insn) == 0 ==> Risen(p, a, end) == base
    ensures var delta := Delta(p, a, end, base);
            Shifts(p.code[c].insn, Edit(p, e, c), OffBy(delta, a, end, c), OffBy(delta, a, end, c + p.code[c].len))
  {
    hide WellFormed, Risen, Walked, OffBy, Delta, Shifts, AccDone, AdjDone, SpAccess, Neutral, SpAdjust;
    InWalk(p, a, end, c);
    if c in adj {
      AdjShifts(p, e, a, end, base, c);
    } else if HasAcc(acc, c) {
      var k :| 0 <= k < |acc| && acc[k].addr == c;
      assert AccDone(p, e, base, acc[k]);
      AccessIsNoAdjust(p.code[c].insn);
      AccShifts(p, e, a, end, base, acc[k]);
    } else {
      assert c !in e && Plain(p.code[c]);
      PlainShifts(p, a, end, base, c);
    }
  }

  lemma AdjShifts(p: Program, e: map<Word, Insn>, a: Word, end: Word, base: int, c: Word)
    requires AdjDone(p, e, a, end, base, c) && IsAdjust(p.code[c].insn)
    ensures var delta := Delta(p, a, end, base);
            Shifts(p.code[c].insn, Edit(p, e, c), OffBy(delta, a, end, c), OffBy(delta, a, end, c + p.code[c].len))
  {
    hide OffBy, Delta, SpAccess, Reads, Writes;
  }

  lemma AccShifts(p: Program, e: map<Word, Insn>, a: Word, end: Word, base: int, x: Acc)
    requires WellFormed(p) && Contiguous(p, a, end) && AccDone(p, e, base, x) && a < x.addr < end
    requires SpAccess(p.code[x.addr].insn) && x.moved == Risen(p, a, x.addr)
    requires x.addr + p.code[x.addr].len == end ==> Risen(p, a, end) == base
    requires x.addr + p.code[x.addr].len <= end
    ensures var delta, c := Delta(p, a, end, base), x.addr;
            Shifts(p.code[c].insn, Edit(p, e, c), OffBy(delta, a, end, c), OffBy(delta, a, end, c + p.code[c].len))
  {
    hide OffBy, Delta, Risen, Reads, Writes, WellFormed, Contiguous;
    AccessIsNoAdjust(p.code[x.addr].insn);
    OffByOn(p, a, end, base, x.addr);
  }

  lemma PlainShifts(p: Program, a: Word, end: Word, base: int, c: Word)
    requires WellFormed(p) && Contiguous(p, a, end) && a < c < end && c in p.code && Plain(p.code[c])
    requires c + p.code[c].len == end ==> Risen(p, a, end) == base
    requires c + p.code[c].len <= end
    ensures var delta := Delta(p, a, end, base);
            Shifts(p.code[c].insn, p.code[c].insn, OffBy(delta, a, end, c), OffBy(delta, a, end, c + p.code[c].len))
  {
    hide OffBy, Delta, Risen, Reads, Writes, WellFormed, Contiguous, SpAccess;
    OffByOn(p, a, end, base, c);
    Named(p, c, SP);
  }

  lemma AccessIsNoAdjust(i: Insn)
    requires SpAccess(i)
    ensures SpAdjust(i) == 0
  {
  }

  lemma InWalk(p: Program, a: Word, end: Word, c: Word)
    requires WellFormed(p) && Walked(p, a, end) && c in p.code && a <= c < end
    ensures c + p.code[c].len <= end && Contiguous(p, a, end) && a in p.code
    ensures c + p.code[c].len < end || c + p.code[c].len == end
  {
    hide WellFormed, Meet;
  }

  // ---- the push run ----

  /** One instruction of the walk; None where it stops. */
  function PushNext(p: Program, at: Word, w: SpRun): Option<SpRun> {
    match Meet(p, at)
    case Ends => None
    case Between => Some(w)
    case Access =>
      if |w.acc| >= PUSH_ACCESSES then None
      else
        Some(w.(acc := w.acc + [Acc(at, -w.total)], bytes := w.bytes + p.code[at].len,
                end := Wrap(at + p.code[at].len)))
    case Adj(k) =>
      if k >= 0 || w.total - k > 2048 then None
      else Some(SpRun(w.total - k, w.adj + [at], w.acc, w.bytes + p.code[at].len, Wrap(at + p.code[at].len)))
  }

  function PushWalk(p: Program, at: Word, w: SpRun, budget: nat): SpRun
    decreases budget
  {
    if budget == 0 || PushNext(p, at, w) == None then w
    else PushWalk(p, Wrap(at + p.code[at].len), PushNext(p, at, w).value, budget - 1)
  }

  /** What the walk has made of the code up to `at`. */
  ghost predicate PushSoFar(p: Program, a: Word, at: Word, w: SpRun) {
    && Walked(p, a, at) && a < w.end <= at && Walked(p, a, w.end) && Accounted(p, a, at, w.adj, w.acc)
    && w.total == -Risen(p, a, at) == -Risen(p, a, w.end) && 0 < w.total <= 2048
    && |w.adj| > 0 && w.adj[0] == a
    && (forall c :: c in w.adj ==> c < w.end && c in p.code && SpAdjust(p.code[c].insn) < 0)
    && (forall k :: 0 <= k < |w.acc| ==> w.acc[k].addr < w.end)
    && NoneBelow(w.acc, w.total)
  }

  /** No offset is lowered. */
  ghost predicate NoneBelow(acc: seq<Acc>, lift: int) {
    forall k :: 0 <= k < |acc| ==> lift + acc[k].moved >= 0
  }

  lemma PushBetween(p: Program, a: Word, at: Word, w: SpRun)
    requires WellFormed(p) && PushSoFar(p, a, at, w) && Meet(p, at) == Between
    ensures PushSoFar(p, a, at + p.code[at].len, w)
  {
    hide WellFormed, Accounted, Risen, Walked;
    WalkedBounds(p, a, at);
    MetBetween(p, at);
    WalkedOn(p, a, at);
    RisenOn(p, a, at);
    RecordPlain(p, a, at, w.adj, w.acc);
  }

  lemma WalkedBounds(p: Program, a: Word, at: int)
    requires Walked(p, a, at)
    ensures a < at < W64 && a in p.code
  {
    hide Meet, Contiguous;
  }

  lemma MetBetween(p: Program, at: Word)
    requires Meet(p, at) == Between
    ensures at in p.code && Plain(p.code[at])
  {
    hide IsTarget;
  }

  lemma MetAccess(p: Program, at: Word)
    requires Meet(p, at) == Access
    ensures at in p.code && SpAccess(p.code[at].insn) && SpAdjust(p.code[at].insn) == 0
  {
    hide IsTarget;
    AccessIsNoAdjust(p.code[at].insn);
  }

  lemma MetAdj(p: Program, at: Word)
    requires Meet(p, at).Adj?
    ensures at in p.code && SpAdjust(p.code[at].insn) == Meet(p, at).k
  {
    hide IsTarget;
  }

  lemma PushAccess(p: Program, a: Word, at: Word, w: SpRun)
    requires WellFormed(p) && PushSoFar(p, a, at, w) && Meet(p, at) == Access
    ensures at + p.code[at].len < W64
    ensures var n := at + p.code[at].len;
            PushSoFar(p, a, n, w.(acc := w.acc + [Acc(at, -w.total)], bytes := w.bytes + p.code[at].len, end := n))
  {
    hide WellFormed, Accounted, Risen, Walked, SpAccess;
    WalkedBounds(p, a, at);
    MetAccess(p, at);
    WalkedOn(p, a, at);
    Placed(p, at);
    RisenOn(p, a, at);
    RecordAcc(p, a, at, w.adj, w.acc);
  }

  lemma PushAdj(p: Program, a: Word, at: Word, w: SpRun)
    requires WellFormed(p) && PushSoFar(p, a, at, w) && Meet(p, at).Adj?
    requires Meet(p, at).k < 0 && w.total - Meet(p, at).k <= 2048
    ensures at + p.code[at].len < W64
    ensures var n := at + p.code[at].len;
            PushSoFar(p, a, n, SpRun(w.total - Meet(p, at).k, w.adj + [at], w.acc, w.bytes + p.code[at].len, n))
  {
    hide WellFormed, Accounted, Risen, Walked, SpAccess;
    WalkedBounds(p, a, at);
    MetAdj(p, at);
    WalkedOn(p, a, at);
    Placed(p, at);
    RisenOn(p, a, at);
    RecordAdj(p, a, at, w.adj, w.acc);
  }

  lemma PushStep(p: Program, a: Word, at: Word, w: SpRun)
    requires WellFormed(p) && PushSoFar(p, a, at, w) && PushNext(p, at, w).Some?
    ensures at in p.code && at + p.code[at].len < W64
    ensures PushSoFar(p, a, at + p.code[at].len, PushNext(p, at, w).value)
  {
    hide WellFormed, PushSoFar, Meet, IsTarget;
    NotEnding(p, at);
    Placed(p, at);
    assert Wrap(at + p.code[at].len) == at + p.code[at].len;
    match Meet(p, at) {
      case Between => PushBetween(p, a, at, w);
      case Access => PushAccess(p, a, at, w);
      case Adj(k) => PushAdj(p, a, at, w);
    }
  }

  lemma NotEnding(p: Program, at: Word)
    requires !Meet(p, at).Ends?
    ensures at in p.code && !IsTarget(p, at) && Readable(p, at)
  {
    hide IsTarget;
  }

  lemma {:induction false} PushWalkSound(p: Program, a: Word, at: Word, w: SpRun, budget: nat)
    requires WellFormed(p) && PushSoFar(p, a, at, w)
    ensures exists at' :: PushSoFar(p, a, at', PushWalk(p, at, w, budget))
    decreases budget
  {
    hide PushSoFar, WellFormed, PushNext;
    if budget == 0 || PushNext(p, at, w) == None {
      assert PushSoFar(p, a, at, PushWalk(p, at, w, budget));
    } else {
      PushStep(p, a, at, w);
      var n := at + p.code[at].len;
      assert Wrap(n) == n;
      var w' := PushNext(p, at, w).value;
      PushWalkSound(p, a, n, w', budget - 1);
      assert PushWalk(p, at, w, budget) == PushWalk(p, n, w', budget - 1);
    }
  }

  /** Where the push run at `a` begins. */
  function PushStart(p: Program, a: Word): SpRun
    requires a in p.code
  {
    SpRun(-SpAdjust(p.code[a].insn), [a], [], p.code[a].len, Wrap(a + p.code[a].len))
  }

  lemma PushStarts(p: Program, a: Word)
    requires WellFormed(p) && a in p.code && -2048 <= SpAdjust(p.code[a].insn) < 0
    ensures a + p.code[a].len < W64 && PushSoFar(p, a, a + p.code[a].len, PushStart(p, a))
  {
    hide WellFormed, Meet, Walked, Accounted;
    WalkedStarts(p, a);
    StartAccounted(p, a);
    Placed(p, a);
    RisenAtStart(p, a);
    RisenOn(p, a, a);
    hide Risen, SpAdjust;
  }

  lemma StartAccounted(p: Program, a: Word)
    requires WellFormed(p) && a in p.code && IsAdjust(p.code[a].insn)
    ensures Accounted(p, a, a + p.code[a].len, [a], [])
  {
    hide WellFormed, SpAdjust, Risen, SpAccess;
    Placed(p, a);
    forall c | c in p.code && a <= c < a + p.code[a].len ensures c == a { Apart(p, a, c); }
  }

  /** The whole run at `a`, as far as the walk takes it. */
  function PushRun(p: Program, a: Word): SpRun
    requires a in p.code
  {
    PushWalk(p, Wrap(a + p.code[a].len), PushStart(p, a), PUSH_WALK)
  }

  /** The edits of the run: one adjustment first, the others gone, the accesses
      re-offset to reach the same addresses with sp already down. */
  function PushEdits(p: Program, a: Word, w: SpRun): map<Word, Insn>
    requires AccInCode(p, w.acc)
  {
    (map c | c in w.adj :: if c == a then Adjust(-w.total) else Nop) + AccEdits(p, w.acc, w.total)
  }

  lemma PushEditsAre(p: Program, a: Word, w: SpRun)
    requires AccInCode(p, w.acc) && (forall c :: c in w.adj ==> c in p.code && IsAdjust(p.code[c].insn))
    requires Consistent(w.acc)
    ensures var e := PushEdits(p, a, w);
            && (forall c :: c in e ==> c in w.adj || HasAcc(w.acc, c))
            && (forall c :: c in w.adj ==> c in e && e[c] == if c == a then Adjust(-w.total) else Nop)
            && (forall k :: 0 <= k < |w.acc| ==> AccDone(p, e, -w.total, w.acc[k]))
  {
    hide SpAccess, WithOffset, Adjust, Risen, AccEdits, Consistent, AccInCode;
    AccEditsAre(p, w.acc, w.total);
    AdjApart(p, w.adj, w.acc);
    var m, e := AccEdits(p, w.acc, w.total), PushEdits(p, a, w);
    forall k | 0 <= k < |w.acc| ensures AccDone(p, e, -w.total, w.acc[k]) {
      assert AccDone(p, m, -w.total, w.acc[k]);
    }
  }

  /** No address is an adjustment and an access. */
  lemma AdjApart(p: Program, adj: seq<Word>, acc: seq<Acc>)
    requires AccInCode(p, acc) && (forall c :: c in adj ==> c in p.code && IsAdjust(p.code[c].insn))
    ensures forall c :: c in adj ==> !HasAcc(acc, c)
  {
    hide SpAccess;
    forall c | c in adj && HasAcc(acc, c) ensures false {
      var k :| 0 <= k < |acc| && acc[k].addr == c;
      AccessIsNoAdjust(p.code[c].insn);
    }
  }

  lemma PushRestacks(p: Program, a: Word, at: Word, w: SpRun)
    requires WellFormed(p) && PushSoFar(p, a, at, w)
    ensures AccInCode(p, w.acc)
    ensures Restacked(p, Apply(p, PushEdits(p, a, w)), a, w.end, Delta(p, a, w.end, -w.total))
  {
    hide WellFormed, Walked, Restacked, Contiguous, SpAccess, Accounted, Risen, AdjDone, AccDone, Delta;
    AccountedPrefix(p, a, w.end, at, w.adj, w.acc);
    SameMoved(p, a, w.end, w.adj, w.acc);
    RunKeys(p, a, w.end, w.adj, w.acc);
    PushEditsAre(p, a, w);
    hide PushEdits;
    forall c | c in w.adj ensures AdjDone(p, PushEdits(p, a, w), a, w.end, -w.total, c) {
      PushAdjDone(p, a, w.end, w.total, PushEdits(p, a, w), c);
    }
    RunRestacks(p, PushEdits(p, a, w), a, w.end, -w.total, w.adj, w.acc);
  }

  lemma PushAdjDone(p: Program, a: Word, end: Word, total: int, e: map<Word, Insn>, c: Word)
    requires WellFormed(p) && Walked(p, a, end) && c in p.code && a <= c < end && total == -Risen(p, a, end)
    requires c in e && e[c] == if c == a then Adjust(-total) else Nop
    ensures AdjDone(p, e, a, end, -total, c)
  {
    hide WellFormed, Walked, Risen, OffBy, Delta, SpAdjust;
    OffByAt(p, a, end, -total, c);
  }

  lemma RunKeys(p: Program, a: Word, end: Word, adj: seq<Word>, acc: seq<Acc>)
    requires Accounted(p, a, end, adj, acc)
    ensures forall c :: c in adj ==> a <= c < end
    ensures forall k :: 0 <= k < |acc| ==> a <= acc[k].addr < end
  {
    hide Risen, Plain, SpAccess, IsAdjust;
  }

  lemma SameMoved(p: Program, a: Word, end: int, adj: seq<Word>, acc: seq<Acc>)
    requires Accounted(p, a, end, adj, acc)
    ensures AccInCode(p, acc)
    ensures Consistent(acc)
    ensures forall k :: 0 <= k < |acc| ==> SpAdjust(p.code[acc[k].addr].insn) == 0
  {
    hide Risen, Plain;
  }

  lemma DeltaAt(p: Program, a: Word, end: Word, base: int, c: int)
    ensures 0 <= c < W64 && c as Word in p.code && a < c < end ==>
            OffBy(Delta(p, a, end, base), a, end, c) == base - Risen(p, a, c)
    ensures !(a < c < end) ==> OffBy(Delta(p, a, end, base), a, end, c) == 0
  {
    hide Risen;
  }

  lemma RisenAtStart(p: Program, a: Word)
    ensures Risen(p, a, a) == 0
  {
  }

  /** The displacements on either side of the adjustment at `c`. */
  lemma OffByAt(p: Program, a: Word, end: Word, base: int, c: Word)
    requires WellFormed(p) && Walked(p, a, end) && c in p.code && a <= c < end
    ensures OffBy(Delta(p, a, end, base), a, end, c) == if c == a then 0 else base - Risen(p, a, c)
    ensures var n := c + p.code[c].len;
            OffBy(Delta(p, a, end, base), a, end, n) ==
            if n == end then 0 else base - Risen(p, a, c) - SpAdjust(p.code[c].insn)
    ensures c + p.code[c].len == end ==> Risen(p, a, end) == Risen(p, a, c) + SpAdjust(p.code[c].insn)
    ensures Risen(p, a, a) == 0
  {
    hide *;
    RisenAtStart(p, a);
    Placed(p, c);
    RisenOn(p, a, c);
    InWalk(p, a, end, c);
    NextInCode(p, a, end, c);
    DeltaAt(p, a, end, base, c);
    DeltaAt(p, a, end, base, c + p.code[c].len);
  }

  lemma NextInCode(p: Program, a: Word, end: Word, c: Word)
    requires Contiguous(p, a, end) && c in p.code && a <= c < end
    ensures c + p.code[c].len < end ==> c + p.code[c].len in p.code
  {
    assert c + p.code[c].len < end ==> Wrap(c + p.code[c].len) == c + p.code[c].len;
  }
}
