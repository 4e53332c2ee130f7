/** A tail that every jump to one label repeats, done once in front of the label. */
module CrossJump {
  import opened Words
  import opened Wrappers
  import opened Machine
  import opened Sweep

  const CROSS_TAIL: nat := 32

  /** Straight instructions, in order, wherever they stand. */
  type Tail = seq<Decoded>

  /** An instruction a tail may hold: it neither transfers nor reads the pc. */
  predicate Movable(i: Insn) {
    IsStraight(i) && !i.Auipc? && !i.Then?
  }

  lemma StraightOnes(i: Insn)
    requires Movable(i)
    ensures IsStraight(i)
  {
  }

  /** `tail` ends at `at`, with no side entry but at its top. */
  predicate Repeats(p: Program, at: Word, tail: Tail)
    decreases |tail|
  {
    tail == [] ||
    (!IsTarget(p, at) &&
     match Prev(p, at)
     case None => false
     case Some(q) =>
       Readable(p, q) && p.code[q] == tail[|tail| - 1] && Movable(p.code[q].insn) && Repeats(p, q, tail[..|tail| - 1]))
  }

  /** `n` instructions back from `at`. */
  function Back(p: Program, at: Word, n: nat): Option<Word>
    decreases n
  {
    if n == 0 then Some(at)
    else match Prev(p, at) case None => None case Some(q) => Back(p, q, n - 1)
  }

  datatype Hoist = Hoist(goal: Word, sites: seq<Word>, tail: Tail)

  /** A direct jump to the label. */
  predicate JumpsTo(d: Decoded, a: Word, goal: Word) {
    d.insn.Jal? && d.insn.rd == 0 && Wrap(a + d.insn.off) == goal
  }

  predicate NoFallThrough(i: Insn) {
    (i.Jal? || i.Jalr?) && i.rd == 0
  }

  /** Only the sites come to the label, and all of them over the tail. */
  ghost predicate Hoistable(p: Program, h: Hoist) {
    && h.goal in p.code && |h.tail| > 0
    && (forall a :: a in h.sites ==> a in p.code && JumpsTo(p.code[a], a, h.goal) && Repeats(p, a, h.tail))
    && (forall a :: a in p.code && TransfersTo(p.code[a].insn, a, h.goal) ==> a in h.sites)
    && Prev(p, h.goal).Some? && NoFallThrough(p.code[Prev(p, h.goal).value].insn)
    && h.sites != []
  }

  /** `c` stands `m` instructions before the end of some site's tail. */
  ghost predicate StandsAt(p: Program, h: Hoist, c: Word, site: Word, m: nat) {
    site in h.sites && m <= |h.tail| && Back(p, site, m) == Some(c)
  }

  /** In a tail, from its top up to the jump. */
  ghost predicate InTail(p: Program, h: Hoist, c: Word) {
    exists site, m :: 0 < m && StandsAt(p, h, c, site, m)
  }

  function Bundle(tail: Tail, i: Insn): Insn {
    if tail == [] then i else Then(tail[0].insn, Bundle(tail[1..], i))
  }

  ghost function Edited(p: Program, h: Hoist, c: Word): Insn
    requires c in p.code
  {
    if InTail(p, h, c) then Nop else p.code[c].insn
  }

  /** The tails gone from the sites, one copy at the label. */
  ghost function Hoisted(p: Program, h: Hoist): Program {
    p.(code := map c | c in p.code ::
         p.code[c].(insn := if c == h.goal then Bundle(h.tail, Edited(p, h, c)) else Edited(p, h, c)))
  }

  // ---- finding it ----

  /** One more instruction on top of the tail. */
  lemma {:induction false} RepeatsMore(p: Program, at: Word, tail: Tail, top: Word, q: Word)
    requires Repeats(p, at, tail) && Back(p, at, |tail|) == Some(top)
    requires !IsTarget(p, top) && Prev(p, top) == Some(q) && q in p.code && Readable(p, q) && Movable(p.code[q].insn)
    ensures Repeats(p, at, [p.code[q]] + tail) && Back(p, at, |tail| + 1) == Some(q)
    decreases |tail|
  {
    hide IsTarget, Movable, Prev;
    var all := [p.code[q]] + tail;
    if tail == [] {
      assert all[..0] == [];
      assert Back(p, at, 1) == Back(p, q, 0);
    } else {
      var n := |tail| - 1;
      var b := Prev(p, at).value;
      RepeatsMore(p, b, tail[..n], top, q);
      assert all[..|all| - 1] == [p.code[q]] + tail[..n];
    }
  }

  ghost predicate SweepOf(p: Program, order: seq<Word>) {
    && (forall c :: c in order ==> c in p.code) && (forall c :: c in p.code ==> c in order)
    && forall j, k :: 0 <= j < k < |order| ==> order[j] < order[k]
  }

  /** A branch or a call that also reaches the label. */
  predicate OtherwiseTo(d: Decoded, a: Word, goal: Word) {
    TransfersTo(d.insn, a, goal) && !JumpsTo(d, a, goal)
  }

  /** The jumps to a label, in the order of the list. */
  function Sites(p: Program, order: seq<Word>, goal: Word): (sites: seq<Word>)
    ensures forall c :: c in sites <==> c in order && c in p.code && JumpsTo(p.code[c], c, goal)
  {
    if order == [] then []
    else
      var n := |order| - 1;
      var rest := Sites(p, order[..n], goal);
      assert order == order[..n] + [order[n]];
      if order[n] in p.code && JumpsTo(p.code[order[n]], order[n], goal) then rest + [order[n]] else rest
  }

  predicate SomethingElse(p: Program, goal: Word) {
    exists c :: c in p.code && OtherwiseTo(p.code[c], c, goal)
  }

  /** The jumps to a label, in address order, and whether anything else goes there. */
  method JumpsOf(p: Program, order: seq<Word>, goal: Word) returns (sites: seq<Word>, other: bool)
    requires SweepOf(p, order)
    ensures sites == Sites(p, order, goal) && (other <==> SomethingElse(p, goal))
  {
    hide JumpsTo, OtherwiseTo, Sites;
    sites, other := [], false;
    NoSites(p, goal);
    var k := 0;
    while k < |order|
      invariant k <= |order| && sites == Sites(p, order[..k], goal)
      invariant other <==> exists c :: c in order[..k] && OtherwiseTo(p.code[c], c, goal)
    {
      var c := order[k];
      SitesOn(p, order, k, goal);
      assert order[..k + 1] == order[..k] + [c];
      if JumpsTo(p.code[c], c, goal) { sites := sites + [c]; }
      if OtherwiseTo(p.code[c], c, goal) { other := true; }
      k := k + 1;
    }
    assert order[..k] == order;
  }

  lemma NoSites(p: Program, goal: Word)
    ensures Sites(p, [], goal) == []
  {
  }

  lemma SitesOn(p: Program, order: seq<Word>, k: nat, goal: Word)
    requires k < |order| && order[k] in p.code
    ensures Sites(p, order[..k + 1], goal) ==
            Sites(p, order[..k], goal) + if JumpsTo(p.code[order[k]], order[k], goal) then [order[k]] else []
  {
    assert order[..k + 1][..k] == order[..k];
  }

  function TailBytes(tail: Tail): nat {
    if tail == [] then 0 else tail[0].len + TailBytes(tail[1..])
  }

  /** A `c.j` reaches 2 KiB, a `j` a megabyte. */
  predicate ReachesCopy(p: Program, site: Word, place: int)
    requires site in p.code
  {
    var d := place - site;
    if p.code[site].len == 2 then -2048 <= d <= 2046 else -1048576 <= d <= 1048574 && d % 2 == 0
  }

  ghost predicate AllRepeat(p: Program, sites: seq<Word>, tops: seq<Word>, tail: Tail) {
    && |tops| == |sites|
    && forall i :: 0 <= i < |sites| ==> Repeats(p, sites[i], tail) && Back(p, sites[i], |tail|) == Some(tops[i])
  }

  /** The instruction above `at` may join a tail. */
  predicate MayJoin(p: Program, at: Word) {
    && !IsTarget(p, at) && Prev(p, at).Some? && Prev(p, at).value in p.code
    && Readable(p, Prev(p, at).value) && Movable(p.code[Prev(p, at).value].insn)
  }

  /** The instruction above `at` may join the tail, and is `d`. */
  predicate Agrees(p: Program, at: Word, d: Decoded) {
    MayJoin(p, at) && p.code[Prev(p, at).value] == d
  }

  /** The instruction above all of them, if they agree on one. */
  function Agreed(p: Program, tops: seq<Word>): Option<Decoded> {
    if tops == [] || !MayJoin(p, tops[0]) then None
    else
      var d := p.code[Prev(p, tops[0]).value];
      if forall k :: 0 <= k < |tops| ==> Agrees(p, tops[k], d) then Some(d) else None
  }

  function OneBack(p: Program, tops: seq<Word>): (up: seq<Word>)
    ensures |up| == |tops|
  {
    seq(|tops|, k requires 0 <= k < |tops| => if Prev(p, tops[k]).Some? then Prev(p, tops[k]).value else tops[k])
  }

  /** The tail above `tops`, as long as they agree and `left` allows. */
  function Longest(p: Program, tops: seq<Word>, tail: Tail, left: nat): Tail
    decreases left
  {
    if left == 0 || Agreed(p, tops) == None then tail
    else Longest(p, OneBack(p, tops), [Agreed(p, tops).value] + tail, left - 1)
  }

  /** Takes one more instruction into the tail if all the sites agree on it. */
  method OneMore(p: Program, tops: array<Word>) returns (d: Option<Decoded>)
    requires tops.Length > 0
    modifies tops
    ensures d == Agreed(p, old(tops[..])) && tops[..] == if d.Some? then OneBack(p, old(tops[..])) else old(tops[..])
  {
    hide Movable, IsTarget, Prev;
    PrevInCode(p, tops[0]);
    if !MayJoin(p, tops[0]) { return None; }
    d := Some(p.code[Prev(p, tops[0]).value]);
    var i := 0;
    while i < tops.Length
      invariant 0 <= i <= tops.Length && tops[..] == old(tops[..])
      invariant forall j :: 0 <= j < i ==> Agrees(p, tops[..][j], d.value)
    {
      if !Agrees(p, tops[i], d.value) {
        assert !Agrees(p, tops[..][i], d.value);
        return None;
      }
      i := i + 1;
    }
    i := 0;
    while i < tops.Length
      invariant 0 <= i <= tops.Length
      invariant forall j :: i <= j < tops.Length ==> tops[j] == old(tops[j]) && Agrees(p, tops[j], d.value)
      invariant forall j :: 0 <= j < i ==> tops[j] == OneBack(p, old(tops[..]))[j]
    {
      tops[i] := Prev(p, tops[i]).value;
      i := i + 1;
    }
  }

  lemma PrevInCode(p: Program, a: Word)
    ensures Prev(p, a).Some? ==> Prev(p, a).value in p.code
  {
  }

  /** What is built above the sites repeats before each of them. */
  lemma {:induction false} LongestRepeats(p: Program, sites: seq<Word>, tops: seq<Word>, tail: Tail, left: nat)
    requires AllRepeat(p, sites, tops, tail)
    ensures var t := Longest(p, tops, tail, left);
            (forall a :: a in sites ==> Repeats(p, a, t)) && |t| <= |tail| + left
    decreases left
  {
    hide Repeats, Movable, IsTarget, Prev, Back, Agrees;
    if left > 0 && Agreed(p, tops) != None {
      var d := Agreed(p, tops).value;
      forall i | 0 <= i < |sites|
        ensures Repeats(p, sites[i], [d] + tail) && Back(p, sites[i], |tail| + 1) == Some(OneBack(p, tops)[i])
      {
        assert Agrees(p, tops[i], d);
        JoinOne(p, sites[i], tops[i], tail, d);
      }
      LongestRepeats(p, sites, OneBack(p, tops), [d] + tail, left - 1);
    }
  }

  lemma JoinOne(p: Program, site: Word, top: Word, tail: Tail, d: Decoded)
    requires Repeats(p, site, tail) && Back(p, site, |tail|) == Some(top) && Agrees(p, top, d)
    ensures Prev(p, top).Some? && Repeats(p, site, [d] + tail) && Back(p, site, |tail| + 1) == Prev(p, top)
  {
    hide Repeats, Movable, IsTarget, Prev, Back;
    RepeatsMore(p, site, tail, top, Prev(p, top).value);
  }

  function CrossOutcome(p: Program, order: seq<Word>, a: Word): Option<Hoist>
    requires a in p.code
  {
    var goal, before := Wrap(a + JumpOffset(p.code[a].insn)), Prev(p, Wrap(a + JumpOffset(p.code[a].insn)));
    var sites := Sites(p, order, goal);
    if !Readable(p, a) || !JumpsSomewhere(p.code[a]) || !(p.vaddr <= goal < p.vaddr + p.size) then None
    else if SomethingElse(p, goal) || |sites| < 2 || sites[0] != a then None
    else if before.None? || before.value !in p.code || !Readable(p, before.value)
        || !NoFallThrough(p.code[before.value].insn) then None
    else
      var tail := Longest(p, sites, [], CROSS_TAIL);
      if tail == [] || !AllReachCopy(p, sites, goal - TailBytes(tail)) then None else Some(Hoist(goal, sites, tail))
  }

  function JumpOffset(i: Insn): int {
    if i.Jal? then i.off else 0
  }

  predicate AllReachCopy(p: Program, sites: seq<Word>, place: int) {
    forall k :: 0 <= k < |sites| ==> sites[k] in p.code && ReachesCopy(p, sites[k], place)
  }

  lemma CrossIsSound(p: Program, order: seq<Word>, a: Word)
    requires SweepOf(p, order) && a in p.code && CrossOutcome(p, order, a).Some?
    ensures var h := CrossOutcome(p, order, a).value; h.goal in p.code ==> Hoistable(p, h)
  {
    hide JumpsTo, OtherwiseTo, Repeats, Back, TailBytes, ReachesCopy, NoFallThrough, Longest, Agreed, Prev,
         SomethingElse;
    var h := CrossOutcome(p, order, a).value;
    NothingYet(p, h.sites);
    LongestRepeats(p, h.sites, h.sites, [], CROSS_TAIL);
    OnlyJumps(p, order, h.goal);
  }

  /** The finding, made from the lowest of the jumps. */
  method CheckCrossJump(p: Program, order: seq<Word>, a: Word) returns (found: Option<Hoist>)
    requires SweepOf(p, order) && a in p.code
    ensures found == CrossOutcome(p, order, a)
    ensures found.Some? && found.value.goal in p.code ==> Hoistable(p, found.value)
  {
    hide TailBytes, ReachesCopy, NoFallThrough, Hoistable, Agreed, OneBack, SomethingElse, Sites, SweepOf;
    if CrossOutcome(p, order, a).Some? { CrossIsSound(p, order, a); }
    if !Readable(p, a) || !JumpsSomewhere(p.code[a]) { return None; }
    var goal: Word := Wrap(a + p.code[a].insn.off);
    if !(p.vaddr <= goal < p.vaddr + p.size) { return None; }
    var sites, other := JumpsOf(p, order, goal);
    if other || |sites| < 2 || sites[0] != a { return None; }
    var before := Prev(p, goal);
    PrevInCode(p, goal);
    if before.None? || !Readable(p, before.value) || !NoFallThrough(p.code[before.value].insn) { return None; }
    var tail := Build(p, sites);
    if tail == [] || !AllReachCopy(p, sites, goal - TailBytes(tail)) { return None; }
    return Some(Hoist(goal, sites, tail));
  }

  /** Walks every site backwards in step. */
  method Build(p: Program, sites: seq<Word>) returns (tail: Tail)
    requires sites != []
    ensures tail == Longest(p, sites, [], CROSS_TAIL)
  {
    hide Agreed, OneBack;
    var tops := new Word[|sites|](i requires 0 <= i < |sites| => sites[i]);
    assert tops[..] == sites;
    tail := [];
    var left: nat := CROSS_TAIL;
    while left > 0
      invariant Longest(p, tops[..], tail, left) == Longest(p, sites, [], CROSS_TAIL)
      decreases left
    {
      var d := OneMore(p, tops);
      if d.None? { break; }
      tail, left := [d.value] + tail, left - 1;
    }
  }

  predicate JumpsSomewhere(d: Decoded) {
    d.insn.Jal? && d.insn.rd == 0
  }

  lemma NothingYet(p: Program, sites: seq<Word>)
    ensures AllRepeat(p, sites, sites, [])
  {
  }

  lemma OnlyJumps(p: Program, order: seq<Word>, goal: Word)
    requires SweepOf(p, order) && !SomethingElse(p, goal)
    ensures forall c :: c in p.code && TransfersTo(p.code[c].insn, c, goal) ==> c in Sites(p, order, goal)
  {
    hide JumpsTo, TransfersTo;
    forall c | c in p.code && TransfersTo(p.code[c].insn, c, goal) ensures c in Sites(p, order, goal) {
      assert !OtherwiseTo(p.code[c], c, goal);
    }
  }

  // ---- the tail as one effect ----

  ghost function All(tail: Tail, s: State): State {
    if tail == [] then s else All(tail[1..], Effect(tail[0].insn, tail[0].len, s))
  }

  ghost predicate AllMovable(tail: Tail) {
    forall k :: 0 <= k < |tail| ==> Movable(tail[k].insn)
  }

  lemma MovableAnywhere(i: Insn, len: nat, len': nat, s: State, pc: Word)
    requires Movable(i)
    ensures Effect(i, len', s.(pc := pc)) == Effect(i, len, s).(pc := pc)
  {
    hide AluVal, Sext, Box, LoadLE, StoreLE, Wrap, Extend;
    forall q: Reg ensures X(s.(pc := pc), q) == X(s, q) {}
  }

  lemma {:induction false} AllAnywhere(tail: Tail, s: State, pc: Word)
    requires AllMovable(tail)
    ensures All(tail, s.(pc := pc)) == All(tail, s).(pc := pc)
  {
    hide Effect, Movable;
    if tail != [] {
      MovableAnywhere(tail[0].insn, tail[0].len, tail[0].len, s, pc);
      AllAnywhere(tail[1..], Effect(tail[0].insn, tail[0].len, s), pc);
    }
  }

  lemma {:induction false} AllKeepsPc(tail: Tail, s: State)
    ensures All(tail, s).pc == s.pc
  {
    hide Effect;
    if tail != [] {
      EffectKeeps(tail[0].insn, tail[0].len, s, 1);
      AllKeepsPc(tail[1..], Effect(tail[0].insn, tail[0].len, s));
    }
  }

  lemma {:induction false} AllGrows(tail: Tail, k: nat, s: State)
    requires k < |tail|
    ensures All(tail[..k + 1], s) == Effect(tail[k].insn, tail[k].len, All(tail[..k], s))
    decreases k
  {
    hide Effect;
    if k > 0 {
      assert tail[..k + 1][1..] == tail[1..][..k] && tail[..k][1..] == tail[1..][..k - 1];
      AllGrows(tail[1..], k - 1, Effect(tail[0].insn, tail[0].len, s));
      assert tail[1..][..k - 1 + 1] == tail[1..][..k];
    } else {
      assert tail[..1][1..] == [];
    }
  }

  lemma {:induction false} BundleRuns(tail: Tail, i: Insn, len: nat, s: State)
    requires AllMovable(tail)
    ensures Effect(Bundle(tail, i), len, s) == Effect(i, len, All(tail, s))
    ensures NextPc(Bundle(tail, i), len, s) == NextPc(i, len, All(tail, s))
    ensures IsIndirect(Bundle(tail, i)) == IsIndirect(i)
    decreases |tail|
  {
    if tail != [] {
      var a := tail[0].insn;
      assert Movable(a);
      MovableAnywhere(a, tail[0].len, len, s, s.pc);
      assert s.(pc := s.pc) == s;
      EffectKeeps(a, len, s, 1);
      hide Effect, NextPc, Movable;
      BundleRuns(tail[1..], i, len, Effect(a, len, s));
      ThenRuns(a, Bundle(tail[1..], i), len, s);
    }
  }

  lemma ThenRuns(a: Insn, b: Insn, len: nat, s: State)
    ensures Effect(Then(a, b), len, s) == Effect(b, len, Effect(a, len, s))
    ensures NextPc(Then(a, b), len, s) == NextPc(b, len, Effect(a, len, s))
  {
    hide XRegs, FRegs, MemResult, Taken, ClearBit0, Wrap;
  }

  // ---- where the tails stand ----

  lemma {:induction false} BackOnce(p: Program, at: Word, m: nat)
    ensures Back(p, at, m + 1) == match Back(p, at, m) case None => None case Some(c) => Prev(p, c)
    decreases m
  {
    hide Prev;
    if m > 0 {
      match Prev(p, at) {
        case Some(q) => BackOnce(p, q, m - 1);
        case None =>
      }
    }
  }

  lemma PrevFollows(p: Program, c: Word)
    requires Prev(p, c).Some?
    ensures Prev(p, c).value in p.code && Prev(p, c).value + p.code[Prev(p, c).value].len == c
  {
  }

  /** The `m`-th instruction back from a jump is the tail's, with no side entry but
      at the top, and the next one follows it. */
  lemma {:induction false} TailStands(p: Program, at: Word, tail: Tail, m: nat)
    requires Repeats(p, at, tail) && m <= |tail|
    ensures Back(p, at, m).Some? && Repeats(p, Back(p, at, m).value, tail[..|tail| - m])
    ensures m < |tail| ==> !IsTarget(p, Back(p, at, m).value)
    ensures m > 0 ==>
              var c := Back(p, at, m).value;
              && c in p.code && p.code[c] == tail[|tail| - m] && Movable(p.code[c].insn)
              && Back(p, at, m - 1) == Some(Wrap(c + p.code[c].len)) && c + p.code[c].len < W64
    decreases m
  {
    hide IsTarget, Prev, Movable, Back;
    if m == 0 {
      assert Back(p, at, 0) == Some(at) by { BackNone(p, at); }
      assert tail[..|tail|] == tail;
    } else {
      TailStands(p, at, tail, m - 1);
      var c' := Back(p, at, m - 1).value;
      var rest := tail[..|tail| - (m - 1)];
      BackOnce(p, at, m - 1);
      assert rest[|rest| - 1] == tail[|tail| - m] && rest[..|rest| - 1] == tail[..|tail| - m];
      PrevFollows(p, c');
      assert Wrap(c') == c';
    }
  }

  lemma BackNone(p: Program, at: Word)
    ensures Back(p, at, 0) == Some(at)
  {
  }

  /** Below the top of a tail, or at its jump. */
  ghost predicate Inside(p: Program, h: Hoist, c: Word) {
    exists site, m: nat :: m < |h.tail| && StandsAt(p, h, c, site, m)
  }

  lemma Standing(p: Program, h: Hoist, c: Word, site: Word, m: nat)
    requires Hoistable(p, h) && StandsAt(p, h, c, site, m)
    ensures m < |h.tail| ==> !IsTarget(p, c)
    ensures m > 0 ==>
              && c in p.code && p.code[c] == h.tail[|h.tail| - m] && Movable(p.code[c].insn)
              && c + p.code[c].len < W64 && StandsAt(p, h, c + p.code[c].len, site, m - 1)
    ensures m == 0 ==> c == site && c in p.code && JumpsTo(p.code[c], c, h.goal)
  {
    hide IsTarget, Prev, Movable, Back, Repeats, TransfersTo, NoFallThrough, JumpsTo;
    TailStands(p, site, h.tail, m);
    BackNone(p, site);
  }

  lemma GoalIsTarget(p: Program, h: Hoist)
    requires WellFormed(p) && Hoistable(p, h)
    ensures IsTarget(p, h.goal) && !Inside(p, h, h.goal)
  {
    hide WellFormed, Repeats, Back;
    Placed(p, h.goal);
    var a := h.sites[0];
    assert a in h.sites && TransfersTo(p.code[a].insn, a, h.goal);
    if Inside(p, h, h.goal) {
      var site, m: nat :| m < |h.tail| && StandsAt(p, h, h.goal, site, m);
      Standing(p, h, h.goal, site, m);
    }
  }

  lemma SitesStay(p: Program, h: Hoist, site: Word)
    requires Hoistable(p, h) && site in h.sites
    ensures !InTail(p, h, site)
  {
    hide Back, IsTarget, Repeats;
    if InTail(p, h, site) {
      var other, m :| 0 < m && StandsAt(p, h, site, other, m);
      Standing(p, h, site, other, m);
    }
  }

  lemma TailMovable(p: Program, h: Hoist)
    requires Hoistable(p, h)
    ensures AllMovable(h.tail)
  {
    hide Back, IsTarget, Repeats, Movable;
    var site := h.sites[0];
    forall k | 0 <= k < |h.tail| ensures Movable(h.tail[k].insn) {
      TailStands(p, site, h.tail, |h.tail| - k);
    }
  }

  // ---- who comes to the label and into the tails ----

  /** Indirect jumps are assumed to land neither at the label nor inside a tail. */
  ghost predicate LandsClear(p: Program, h: Hoist) {
    forall c :: c in p.landings ==> c != h.goal && !Inside(p, h, c)
  }

  lemma Arrives(p: Program, s: State)
    requires WellFormed(p) && Runs(p, s) && Step(p, s).pc in p.code
    ensures var d, c := p.code[s.pc], Step(p, s).pc;
            (d.insn.Jalr? && c in p.landings) || (c == s.pc + d.len && !d.insn.Jal? && !d.insn.Jalr?)
              || TransfersTo(d.insn, s.pc, c)
  {
    hide Effect, Taken, WellFormed, ClearBit0;
    Placed(p, s.pc);
    assert Wrap(s.pc + p.code[s.pc].len) == s.pc + p.code[s.pc].len;
  }

  lemma OnlySitesArrive(p: Program, h: Hoist, s: State)
    requires WellFormed(p) && Hoistable(p, h) && LandsClear(p, h) && Runs(p, s) && Step(p, s).pc == h.goal
    ensures s.pc in h.sites
  {
    hide WellFormed, Repeats, Runs, Step, Prev, Inside, JumpsTo;
    assert s.pc in p.code by { Running(p, s); }
    Arrives(p, s);
    PrevOfNext(p, s.pc);
  }

  lemma Running(p: Program, s: State)
    requires Runs(p, s)
    ensures s.pc in p.code
  {
  }

  /** The inside of a tail is entered from the instruction before. */
  lemma EntersFromAbove(p: Program, h: Hoist, s: State, site: Word, m: nat)
    requires WellFormed(p) && Hoistable(p, h) && LandsClear(p, h) && Runs(p, s)
    requires m < |h.tail| && StandsAt(p, h, Step(p, s).pc, site, m) && Step(p, s).pc in p.code
    ensures StandsAt(p, h, s.pc, site, m + 1)
  {
    hide WellFormed, Repeats, Runs, Step, Prev, JumpsTo, Back, Hoistable;
    var c := Step(p, s).pc;
    Running(p, s);
    Standing(p, h, c, site, m);
    Arrives(p, s);
    Placed(p, c);
    PrevOfNext(p, s.pc);
    BackOnce(p, site, m);
    assert TransfersTo(p.code[s.pc].insn, s.pc, c) ==> IsTarget(p, c);
  }

  // ---- original and rewritten run ----

  /** `t` has yet to do what `s` did of the tail it is in; before the label, all of
      it; anywhere else they are one state. */
  ghost predicate Beside(p: Program, h: Hoist, s: State, t: State) {
    && t.pc == s.pc
    && (s.pc == h.goal ==> s == All(h.tail, t))
    && (Inside(p, h, s.pc) ==> exists site, m: nat :: Behind(p, h, s, t, site, m))
    && (s.pc != h.goal && !Inside(p, h, s.pc) ==> s == t)
  }

  ghost predicate Behind(p: Program, h: Hoist, s: State, t: State, site: Word, m: nat) {
    m < |h.tail| && StandsAt(p, h, s.pc, site, m) && s == All(h.tail[..|h.tail| - m], t)
  }

  lemma NopOn(len: nat, s: State)
    ensures Exec(Decoded(Nop, len, {}), s) == s.(pc := Wrap(s.pc + len))
  {
  }

  /** The original carries out number `k` of the tail where the rewritten program
      does nothing. */
  lemma TailStep(p: Program, h: Hoist, s: State, t: State, site: Word, m: nat)
    requires WellFormed(p) && Hoistable(p, h) && 0 < m && StandsAt(p, h, s.pc, site, m)
    requires s.pc == t.pc && s == All(h.tail[..|h.tail| - m], t)
    ensures s.pc in p.code && Step(p, s).pc == Wrap(s.pc + p.code[s.pc].len)
    ensures Behind(p, h, Step(p, s), t.(pc := Wrap(s.pc + p.code[s.pc].len)), site, m - 1)
  {
    hide WellFormed, Repeats, Movable, Back, Effect, Hoistable, NextPc;
    Standing(p, h, s.pc, site, m);
    TailMovable(p, h);
    var d := p.code[s.pc];
    assert IsStraight(d.insn) by { StraightOnes(d.insn); }
    var k := |h.tail| - m;
    StraightNext(d.insn, d.len, s);
    AllGrows(h.tail, k, t);
    var n: Word := s.pc + d.len;
    assert AllMovable(h.tail[..k + 1]);
    AllAnywhere(h.tail[..k + 1], t, n);
    assert Step(p, s) == Effect(d.insn, d.len, s).(pc := n);
  }

  lemma HoistedAt(p: Program, h: Hoist, c: Word)
    ensures (c in Hoisted(p, h).code) == (c in p.code)
    ensures c in p.code ==>
              && Hoisted(p, h).code[c].len == p.code[c].len
              && Hoisted(p, h).code[c].insn == (if c == h.goal then Bundle(h.tail, Edited(p, h, c))
                                                else Edited(p, h, c))
    ensures Hoisted(p, h).landings == p.landings
  {
    hide Edited, Bundle;
  }

  lemma NothingThere(p: Program, h: Hoist, t: State)
    requires t.pc in p.code && t.pc != h.goal && InTail(p, h, t.pc)
    ensures Step(Hoisted(p, h), t) == t.(pc := Wrap(t.pc + p.code[t.pc].len))
  {
    hide InTail;
    HoistedAt(p, h, t.pc);
  }

  lemma UnchangedThere(p: Program, h: Hoist, t: State)
    requires t.pc in p.code ==> t.pc != h.goal && !InTail(p, h, t.pc)
    ensures Step(Hoisted(p, h), t) == Step(p, t)
  {
    hide InTail, Effect, NextPc;
    HoistedAt(p, h, t.pc);
  }

  /** Control that is neither in a tail nor at the label goes into none, nor there. */
  lemma StaysOutside(p: Program, h: Hoist, s: State)
    requires WellFormed(p) && Hoistable(p, h) && LandsClear(p, h) && s.pc in p.code && Runs(p, s)
    requires !InTail(p, h, s.pc) && s.pc !in h.sites
    ensures Step(p, s).pc != h.goal && !Inside(p, h, Step(p, s).pc)
  {
    hide WellFormed, Hoistable, LandsClear, Runs, Step, StandsAt;
    var c := Step(p, s).pc;
    if c == h.goal {
      OnlySitesArrive(p, h, s);
    }
    if Inside(p, h, c) {
      var site, m: nat :| m < |h.tail| && StandsAt(p, h, c, site, m);
      assert c in p.code by { InsideInCode(p, h, c, site, m); }
      EntersFromAbove(p, h, s, site, m);
    }
  }

  lemma InsideInCode(p: Program, h: Hoist, c: Word, site: Word, m: nat)
    requires Hoistable(p, h) && StandsAt(p, h, c, site, m)
    ensures c in p.code
  {
    hide Repeats, Back, IsTarget;
    Standing(p, h, c, site, m);
  }

  lemma AtSite(p: Program, h: Hoist, s: State, t: State, site: Word)
    requires WellFormed(p) && Hoistable(p, h) && Behind(p, h, s, t, site, 0) && t.pc == s.pc
    ensures Beside(p, h, Step(p, s), Step(Hoisted(p, h), t))
  {
    hide WellFormed, Repeats, Back, All, Inside, IsTarget;
    Standing(p, h, s.pc, site, 0);
    GoalIsTarget(p, h);
    SitesStay(p, h, site);
    assert s.pc != h.goal by { SiteIsNoGoal(p, h, site); }
    UnchangedThere(p, h, t);
    TailMovable(p, h);
    assert h.tail[..|h.tail| - 0] == h.tail;
    AllAnywhere(h.tail, t, h.goal);
    JumpStep(p, s, h.goal);
    JumpStep(p, t, h.goal);
  }

  lemma SiteIsNoGoal(p: Program, h: Hoist, site: Word)
    requires WellFormed(p) && Hoistable(p, h) && site in h.sites
    ensures site != h.goal
  {
    hide WellFormed, Repeats, IsTarget, TransfersTo, JumpsTo;
    GoalIsTarget(p, h);
    BackNone(p, site);
    hide Back;
    assert StandsAt(p, h, site, site, 0);
    assert Inside(p, h, site);
  }

  lemma JumpStep(p: Program, s: State, goal: Word)
    requires s.pc in p.code && JumpsTo(p.code[s.pc], s.pc, goal)
    ensures Step(p, s) == s.(pc := goal)
  {
  }

  lemma InTheTail(p: Program, h: Hoist, s: State, t: State, site: Word, m: nat)
    requires WellFormed(p) && Hoistable(p, h) && Behind(p, h, s, t, site, m) && t.pc == s.pc && m > 0
    ensures Beside(p, h, Step(p, s), Step(Hoisted(p, h), t))
  {
    hide WellFormed, Hoistable, StandsAt, Step, All;
    GoalIsTarget(p, h);
    assert Inside(p, h, s.pc) && InTail(p, h, s.pc);
    TailStep(p, h, s, t, site, m);
    NothingThere(p, h, t);
    EndsBeside(p, h, Step(p, s), t.(pc := Wrap(s.pc + p.code[s.pc].len)), site, m - 1);
  }

  lemma EndsBeside(p: Program, h: Hoist, s: State, t: State, site: Word, m: nat)
    requires WellFormed(p) && Hoistable(p, h) && Behind(p, h, s, t, site, m) && t.pc == s.pc
    ensures Beside(p, h, s, t)
  {
    hide WellFormed, Hoistable, StandsAt, All;
    GoalIsTarget(p, h);
    assert Inside(p, h, s.pc);
  }

  lemma GoalIsTop(p: Program, h: Hoist, s: State, t: State)
    requires WellFormed(p) && Hoistable(p, h) && InTail(p, h, h.goal) && s.pc == h.goal == t.pc && s == All(h.tail, t)
    ensures Beside(p, h, Step(p, s), Step(Hoisted(p, h), t))
  {
    hide WellFormed, Hoistable, Repeats, Back, Effect, NextPc, Bundle;
    var site, m :| 0 < m && StandsAt(p, h, h.goal, site, m);
    GoalIsTarget(p, h);
    assert m == |h.tail| by { assert m < |h.tail| ==> Inside(p, h, h.goal); }
    assert h.tail[..0] == [];
    TailStep(p, h, s, s, site, m);
    var d := p.code[h.goal];
    TailMovable(p, h);
    HoistedAt(p, h, h.goal);
    BundleRuns(h.tail, Nop, d.len, t);
    NopOn(d.len, s);
    AllKeepsPc(h.tail, t);
    assert Step(Hoisted(p, h), t) == s.(pc := Wrap(s.pc + d.len));
    EndsBeside(p, h, Step(p, s), s.(pc := Wrap(s.pc + d.len)), site, m - 1);
  }

  lemma BundleSteps(p: Program, h: Hoist, s: State, t: State)
    requires Hoistable(p, h) && !InTail(p, h, h.goal) && s.pc == h.goal == t.pc && s == All(h.tail, t)
    ensures Step(Hoisted(p, h), t) == if Runs(p, s) then Step(p, s) else t
  {
    hide Effect, NextPc, Bundle, InTail, All, Repeats;
    TailMovable(p, h);
    HoistedAt(p, h, h.goal);
    BundleRuns(h.tail, p.code[h.goal].insn, p.code[h.goal].len, t);
  }

  /** At the label: the bundle catches up, then does what stands there. */
  lemma AtGoal(p: Program, h: Hoist, s: State, t: State)
    requires WellFormed(p) && Hoistable(p, h) && LandsClear(p, h) && s.pc == h.goal == t.pc && s == All(h.tail, t)
    ensures Beside(p, h, Step(p, s), Step(Hoisted(p, h), t))
  {
    hide WellFormed, LandsClear, Hoistable, Exec, All, Inside, InTail, StandsAt;
    GoalIsTarget(p, h);
    if InTail(p, h, h.goal) {
      GoalIsTop(p, h, s, t);
    } else {
      BundleSteps(p, h, s, t);
      if h.goal in h.sites { SiteIsNoGoal(p, h, h.goal); }
      if Runs(p, s) {
        Running(p, s);
        StaysOutside(p, h, s);
      }
    }
  }

  /** At the top of a tail, or anywhere outside. */
  lemma AtTop(p: Program, h: Hoist, s: State)
    requires WellFormed(p) && Hoistable(p, h) && InTail(p, h, s.pc) && s.pc != h.goal && !Inside(p, h, s.pc)
    ensures Beside(p, h, Step(p, s), Step(Hoisted(p, h), s))
  {
    hide WellFormed, Hoistable, Step;
    var site, m :| 0 < m && StandsAt(p, h, s.pc, site, m);
    assert m == |h.tail| by { assert m < |h.tail| ==> Inside(p, h, s.pc); }
    hide StandsAt, Inside;
    assert h.tail[..0] == [];
    TailStep(p, h, s, s, site, m);
    NothingThere(p, h, s);
    EndsBeside(p, h, Step(p, s), s.(pc := Wrap(s.pc + p.code[s.pc].len)), site, m - 1);
  }

  lemma StepBeside(p: Program, h: Hoist, s: State, t: State)
    requires WellFormed(p) && Hoistable(p, h) && LandsClear(p, h) && Beside(p, h, s, t)
    ensures Beside(p, h, Step(p, s), Step(Hoisted(p, h), t))
  {
    hide WellFormed, Hoistable, LandsClear, All, StandsAt, InTail, Inside, Exec, Hoisted;
    if s.pc == h.goal {
      AtGoal(p, h, s, t);
    } else if Inside(p, h, s.pc) {
      var site, m: nat :| Behind(p, h, s, t, site, m);
      if m == 0 { AtSite(p, h, s, t, site); } else { InTheTail(p, h, s, t, site, m); }
    } else if InTail(p, h, s.pc) {
      AtTop(p, h, s);
    } else {
      UnchangedThere(p, h, t);
      if s.pc in h.sites { SiteIsInside(p, h, s.pc); }
      if Runs(p, s) {
        Running(p, s);
        StaysOutside(p, h, s);
      }
    }
  }

  lemma SiteIsInside(p: Program, h: Hoist, site: Word)
    requires Hoistable(p, h) && site in h.sites
    ensures Inside(p, h, site)
  {
    BackNone(p, site);
    hide Back;
    assert StandsAt(p, h, site, site, 0);
  }

  /** From any state outside the tails and away from the label, the two programs run
      alike: the same state wherever control is neither in a tail nor at the label,
      and there the rewritten one is behind by exactly the part of the tail done. */
  lemma {:induction false} HoistingIsInvisible(p: Program, h: Hoist, s: State, n: nat)
    requires WellFormed(p) && Hoistable(p, h) && LandsClear(p, h) && s.pc != h.goal && !Inside(p, h, s.pc)
    ensures Beside(p, h, Run(p, s, n), Run(Hoisted(p, h), s, n))
  {
    hide WellFormed, Hoistable, LandsClear, Inside, Step, Hoisted, All, Behind;
    if n > 0 {
      HoistingIsInvisible(p, h, s, n - 1);
      StepBeside(p, h, Run(p, s, n - 1), Run(Hoisted(p, h), s, n - 1));
    }
  }
}
