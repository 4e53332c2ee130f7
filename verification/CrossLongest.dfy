/** Which tails are found: the longest every jump to the label repeats, wherever there is
    one and all of them still reach its copy. */
module CrossLongest {
  import opened Words
  import opened Wrappers
  import opened Machine
  import opened Sweep
  import opened CrossJump
  import opened Lines

  ghost predicate Jumper(p: Program, c: Word, goal: Word) {
    c in p.code && JumpsTo(p.code[c], c, goal)
  }

  /** Every jump to the label comes over the tail. */
  ghost predicate Shared(p: Program, goal: Word, tail: Tail) {
    0 < |tail| <= 32 && forall c :: Jumper(p, c, goal) ==> Repeats(p, c, tail)
  }

  ghost predicate LongestShared(p: Program, goal: Word, tail: Tail) {
    Shared(p, goal, tail) && forall t :: Shared(p, goal, t) ==> |t| <= |tail|
  }

  // ---- what a tail is ----

  /** The instruction at `c` is `d`, which transfers nowhere and does not form an address. */
  predicate OfTail(p: Program, c: Word, d: Decoded) {
    c in p.code && Readable(p, c) && p.code[c] == d
    && !d.insn.Branch? && !d.insn.Jal? && !d.insn.Jalr? && !d.insn.Auipc?
  }

  function TopOf(at: Word, line: seq<Word>): Word {
    if line == [] then at else line[0]
  }

  /** The tail stands at `line`, which ends where `at` begins, and nothing comes in below its
      top. */
  predicate StandsAt(p: Program, at: Word, tail: Tail, line: seq<Word>) {
    && |line| == |tail| && Chain(p, TopOf(at, line), line) && AfterAll(p, TopOf(at, line), line) == at
    && (forall k :: 0 <= k < |line| ==> OfTail(p, line[k], tail[k]))
    && (forall k :: 0 < k < |line| ==> !IsTarget(p, line[k])) && (line != [] ==> !IsTarget(p, at))
  }

  /** A tail repeats before a jump exactly where it stands so. */
  lemma {:induction false} RepeatsExactly(p: Program, at: Word, tail: Tail)
    requires WellFormed(p)
    ensures Repeats(p, at, tail) <==> exists line :: StandsAt(p, at, tail, line)
    decreases |tail|
  {
    hide WellFormed, IsTarget, Prev, StandsAt;
    if tail == [] {
      EmptyStands(p, at);
    } else {
      var n := |tail| - 1;
      if Repeats(p, at, tail) {
        var q := Prev(p, at).value;
        PrevFollows(p, at);
        RepeatsExactly(p, q, tail[..n]);
        var line :| StandsAt(p, q, tail[..n], line);
        PlainHere(p, q);
        StandsOn(p, q, at, tail, line);
      }
      if line :| StandsAt(p, at, tail, line) {
        StandsInit(p, at, tail, line);
        PrevOfNext(p, line[n]);
        RepeatsExactly(p, line[n], tail[..n]);
        PlainHere(p, line[n]);
      }
    }
  }

  lemma EmptyStands(p: Program, at: Word)
    ensures StandsAt(p, at, [], [])
  {
  }

  lemma PlainHere(p: Program, c: Word)
    requires WellFormed(p) && c in p.code
    ensures Readable(p, c) && Movable(p.code[c].insn) <==> OfTail(p, c, p.code[c])
  {
    hide WellFormed;
    Placed(p, c);
  }

  lemma StandsOn(p: Program, q: Word, at: Word, tail: Tail, line: seq<Word>)
    requires tail != [] && StandsAt(p, q, tail[..|tail| - 1], line) && q in p.code && q + p.code[q].len == at
    requires OfTail(p, q, tail[|tail| - 1]) && !IsTarget(p, at)
    ensures StandsAt(p, at, tail, line + [q])
  {
    hide IsTarget, OfTail;
    ChainOn(p, TopOf(q, line), line, q);
  }

  lemma StandsInit(p: Program, at: Word, tail: Tail, line: seq<Word>)
    requires StandsAt(p, at, tail, line) && tail != []
    ensures |line| == |tail|
    ensures var n, c := |tail| - 1, line[|tail| - 1];
            && OfTail(p, c, tail[n]) && c in p.code && c + p.code[c].len == at
            && !IsTarget(p, at) && StandsAt(p, c, tail[..n], line[..n])
  {
    hide IsTarget;
    ChainInit(p, line[0], line);
  }

  /** What stands `n` instructions back from the end of a tail is its own. */
  lemma {:induction false} RepeatsBack(p: Program, at: Word, tail: Tail, n: nat, top: Word)
    requires Repeats(p, at, tail) && n < |tail| && Back(p, at, n) == Some(top)
    ensures MayJoin(p, top) && p.code[Prev(p, top).value] == tail[|tail| - 1 - n]
    decreases n
  {
    hide IsTarget, Movable, Prev;
    PrevInCode(p, at);
    if n > 0 {
      var q := Prev(p, at).value;
      RepeatsBack(p, q, tail[..|tail| - 1], n - 1, top);
    }
  }

  /** Sites that share a tail agree as far as it goes. */
  lemma SharedAgree(p: Program, sites: seq<Word>, tops: seq<Word>, tail: Tail, t: Tail)
    requires AllRepeat(p, sites, tops, tail) && sites != [] && |tail| < |t|
    requires forall a :: a in sites ==> Repeats(p, a, t)
    ensures Agreed(p, tops) == Some(t[|t| - 1 - |tail|])
  {
    hide Repeats, Back, MayJoin, Prev;
    forall i | 0 <= i < |sites| ensures Agrees(p, tops[i], t[|t| - 1 - |tail|]) {
      RepeatsBack(p, sites[i], t, |tail|, tops[i]);
    }
  }

  /** No tail the sites share is longer than the one built, but for the limit. */
  lemma {:induction false} NoneLonger(p: Program, sites: seq<Word>, tops: seq<Word>, tail: Tail, left: nat, t: Tail)
    requires AllRepeat(p, sites, tops, tail) && sites != [] && |t| <= |tail| + left
    requires forall a :: a in sites ==> Repeats(p, a, t)
    ensures |t| <= |Longest(p, tops, tail, left)| && |tail| <= |Longest(p, tops, tail, left)|
    decreases left
  {
    hide Repeats, Movable, IsTarget, Prev, Back, Agrees, Agreed, OneBack;
    if left > 0 && Agreed(p, tops).Some? {
      var d := Agreed(p, tops).value;
      AgreedOn(p, sites, tops, tail, d);
      NoneLonger(p, sites, OneBack(p, tops), [d] + tail, left - 1, t);
    } else if |tail| < |t| {
      SharedAgree(p, sites, tops, tail, t);
    }
  }

  lemma AgreedOn(p: Program, sites: seq<Word>, tops: seq<Word>, tail: Tail, d: Decoded)
    requires AllRepeat(p, sites, tops, tail) && Agreed(p, tops) == Some(d)
    ensures AllRepeat(p, sites, OneBack(p, tops), [d] + tail)
  {
    hide Repeats, Movable, IsTarget, Prev, Back, Agrees;
    forall i | 0 <= i < |sites|
      ensures Repeats(p, sites[i], [d] + tail) && Back(p, sites[i], |tail| + 1) == Some(OneBack(p, tops)[i])
    {
      assert Agrees(p, tops[i], d);
      JoinOne(p, sites[i], tops[i], tail, d);
    }
  }

  /** The tail built above all the jumps is the longest they share, and empty only where
      they share none. */
  lemma LongestIsLongest(p: Program, goal: Word, sites: seq<Word>)
    requires sites != [] && forall c :: c in sites <==> Jumper(p, c, goal)
    ensures var tail := Longest(p, sites, [], CROSS_TAIL);
            && (tail == [] ==> forall t :: !Shared(p, goal, t))
            && (tail != [] ==> LongestShared(p, goal, tail))
  {
    hide Repeats, Longest, JumpsTo;
    var tail := Longest(p, sites, [], CROSS_TAIL);
    NothingYet(p, sites);
    LongestRepeats(p, sites, sites, [], CROSS_TAIL);
    forall t | Shared(p, goal, t) ensures |t| <= |tail| {
      NoneLonger(p, sites, sites, [], CROSS_TAIL, t);
    }
  }

  /** Nothing but direct jumps goes to the label, two of them at least and none below `a`;
      nothing falls into it; and all of them reach a copy of the longest tail they share. */
  ghost predicate Reports(p: Program, a: Word, goal: Word, tail: Tail) {
    && Readable(p, a) && Jumper(p, a, goal) && p.vaddr <= goal < p.vaddr + p.size
    && (forall c :: c in p.code && TransfersTo(p.code[c].insn, c, goal) ==> Jumper(p, c, goal))
    && (forall c :: Jumper(p, c, goal) ==> a <= c) && (exists c :: Jumper(p, c, goal) && c != a)
    && Prev(p, goal).Some? && Prev(p, goal).value in p.code && Readable(p, Prev(p, goal).value)
    && NoFallThrough(p.code[Prev(p, goal).value].insn)
    && LongestShared(p, goal, tail) && forall c :: Jumper(p, c, goal) ==> ReachesCopy(p, c, goal - TailBytes(tail))
  }

  ghost predicate Reported(p: Program, a: Word, goal: Word) {
    exists tail :: Reports(p, a, goal, tail)
  }

  predicate Rising(s: seq<Word>) {
    forall j, k :: 0 <= j < k < |s| ==> s[j] < s[k]
  }

  lemma {:induction false} SitesInOrder(p: Program, order: seq<Word>, goal: Word)
    requires Rising(order)
    ensures Rising(Sites(p, order, goal)) && forall c :: c in Sites(p, order, goal) ==> c in order
  {
    hide JumpsTo;
    if order != [] {
      var n := |order| - 1;
      SitesInOrder(p, order[..n], goal);
      var rest := Sites(p, order[..n], goal);
      forall j | 0 <= j < |rest| ensures rest[j] < order[n] {
        assert rest[j] in order[..n];
        var k :| 0 <= k < n && order[k] == rest[j];
      }
      assert Rising(rest) && Rising(rest + [order[n]]);
    }
  }

  lemma SitesAre(p: Program, order: seq<Word>, goal: Word, a: Word)
    requires SweepOf(p, order)
    ensures var sites := Sites(p, order, goal);
            && (forall c :: c in sites <==> Jumper(p, c, goal))
            && (|sites| >= 2 && sites[0] == a <==>
                  Jumper(p, a, goal) && (forall c :: Jumper(p, c, goal) ==> a <= c) &&
                  exists c :: Jumper(p, c, goal) && c != a)
  {
    hide Sites, JumpsTo;
    var sites := Sites(p, order, goal);
    SitesInOrder(p, order, goal);
    if |sites| >= 2 && sites[0] == a {
      assert sites[1] in sites && sites[1] != a && sites[0] in sites;
    }
    if Jumper(p, a, goal) && (forall c :: Jumper(p, c, goal) ==> a <= c) && exists c :: Jumper(p, c, goal) && c != a {
      var c :| Jumper(p, c, goal) && c != a;
      assert a in sites && c in sites;
      assert sites[0] in sites;
    }
  }

  /** A finding is made from `a` exactly where there is such a tail; it is that tail, and
      its sites are all the jumps there are. */
  lemma ReportedExactly(p: Program, order: seq<Word>, a: Word)
    requires SweepOf(p, order) && a in p.code
    ensures CrossOutcome(p, order, a).Some? <==>
            p.code[a].insn.Jal? && Reported(p, a, Wrap(a + p.code[a].insn.off))
    ensures CrossOutcome(p, order, a).Some? ==>
              var h := CrossOutcome(p, order, a).value;
              Reports(p, a, h.goal, h.tail) && forall c :: c in h.sites <==> Jumper(p, c, h.goal)
  {
    hide Longest, Repeats, TailBytes, ReachesCopy, NoFallThrough, Prev, Sites, TransfersTo, LongestShared, Shared,
         SweepOf;
    if JumpsSomewhere(p.code[a]) {
      var goal := Wrap(a + p.code[a].insn.off);
      var sites := Sites(p, order, goal);
      SitesAre(p, order, goal, a);
      OtherOrJump(p, goal);
      if |sites| >= 2 && sites[0] == a {
        LongestIsLongest(p, goal, sites);
        var tail := Longest(p, sites, [], CROSS_TAIL);
        forall t: Tail { ReachAll(p, goal, sites, goal - TailBytes(t)); }
        forall t | Reports(p, a, goal, t) ensures t == tail && t != [] { OneLongest(p, a, goal, t, tail); }
        assert tail != [] && AllReachCopy(p, sites, goal - TailBytes(tail)) ==> LongestShared(p, goal, tail);
        if CrossOutcome(p, order, a).Some? { assert Reports(p, a, goal, tail); }
      }
    }
  }

  lemma OtherOrJump(p: Program, goal: Word)
    ensures !SomethingElse(p, goal) <==> forall c :: c in p.code && TransfersTo(p.code[c].insn, c, goal) ==>
            Jumper(p, c, goal)
  {
    hide TransfersTo, JumpsTo;
  }

  lemma ReachAll(p: Program, goal: Word, sites: seq<Word>, place: int)
    requires forall c :: c in sites <==> Jumper(p, c, goal)
    ensures AllReachCopy(p, sites, place) <==> forall c :: Jumper(p, c, goal) ==> ReachesCopy(p, c, place)
  {
    hide ReachesCopy, JumpsTo;
    if AllReachCopy(p, sites, place) {
      forall c | Jumper(p, c, goal) ensures ReachesCopy(p, c, place) {
        assert c in sites;
        var k :| 0 <= k < |sites| && sites[k] == c;
      }
    }
    if forall c :: Jumper(p, c, goal) ==> ReachesCopy(p, c, place) {
      forall k | 0 <= k < |sites| ensures sites[k] in p.code && ReachesCopy(p, sites[k], place) {
        assert sites[k] in sites;
      }
    }
  }

  /** Two tails of one length before one place are the same. */
  lemma {:induction false} SameTail(p: Program, at: Word, t: Tail, u: Tail)
    requires Repeats(p, at, t) && Repeats(p, at, u) && |t| == |u|
    ensures t == u
    decreases |t|
  {
    hide IsTarget, Movable, Prev;
    if t != [] {
      var n := |t| - 1;
      SameTail(p, Prev(p, at).value, t[..n], u[..n]);
      assert t == t[..n] + [t[n]] && u == u[..n] + [u[n]];
    }
  }

  lemma OneLongest(p: Program, a: Word, goal: Word, t: Tail, u: Tail)
    requires Jumper(p, a, goal) && LongestShared(p, goal, t) && (u != [] ==> LongestShared(p, goal, u))
    requires u == [] ==> forall t :: !Shared(p, goal, t)
    ensures t == u && t != []
  {
    hide Repeats, JumpsTo;
    SameTail(p, a, t, u);
  }
}
