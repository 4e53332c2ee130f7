/** The constant chains in flight: what value each register is building, one chain a
    register, and that the value is what the register holds. */
module ConstChains {
  import opened Words
  import opened Wrappers
  import opened Machine
  import opened Window
  import opened Sweep
  import opened ConstSteps

  datatype Chain = Chain(val: Word, insns: nat, start: Word)

  type Live = map<Reg, Chain>

  /** Chains grown from one root share its instructions. */
  function Union(m: ConstMerge, a: Chain, b: Chain): Chain {
    Chain(Merged(m, a.val, b.val),
          (if a.start == b.start then (if a.insns > b.insns then a.insns else b.insns) else a.insns + b.insns) + 1,
          if a.start < b.start then a.start else b.start)
  }

  /** A step extends the chain it reads, a composition consumes two, anything else
      ends the chains of the registers it names and may begin one. */
  function Flows(live: Live, i: Insn, len: nat, a: Word): Live {
    var st, mg := StepOf(i, len), MergeOf(i);
    if st.Some? && st.value.dst != 0 && st.value.reg in live then
      var c := live[st.value.reg];
      live[st.value.dst := Chain(Stepped(st.value, c.val), c.insns + 1, c.start)]
    else if mg.Some? && mg.value.a in live && mg.value.b in live then
      (live - {mg.value.a, mg.value.b})[mg.value.dst := Union(mg.value, live[mg.value.a], live[mg.value.b])]
    else
      var kept := live - (Reads(i) + Writes(i));
      if EndsRegion(i) then map[]
      else match DecodeConst(i) case Some((rd, k)) => kept[rd := Chain(Wrap(k), 1, a)] case None => kept
  }

  /** The chains open on arriving at `a`. */
  function LiveAt(p: Program, a: Word): Live
    decreases a
  {
    if IsTarget(p, a) then map[]
    else match Prev(p, a)
      case None => map[]
      case Some(b) => Flows(LiveAt(p, b), p.code[b].insn, p.code[b].len, b)
  }

  // ---- the values are the registers' ----

  ghost predicate ChainsTrue(live: Live, s: State) {
    forall r :: r in live ==> r != 0 && X(s, r) == live[r].val
  }

  lemma StepFlows(live: Live, i: Insn, len: nat, a: Word, s: State)
    requires ChainsTrue(live, s) && StepOf(i, len).Some? && StepOf(i, len).value.dst != 0
             && StepOf(i, len).value.reg in live
    ensures ChainsTrue(Flows(live, i, len, a), Effect(i, len, s))
  {
    hide Effect, Writes, Stepped, Merged;
    StepRight(i, len, s);
    forall r | r in Flows(live, i, len, a)
      ensures r != 0 && X(Effect(i, len, s), r) == Flows(live, i, len, a)[r].val
    {
      EffectKeeps(i, len, s, r);
    }
  }

  lemma MergeFlows(live: Live, i: Insn, len: nat, a: Word, s: State)
    requires ChainsTrue(live, s) && MergeOf(i).Some? && MergeOf(i).value.a in live && MergeOf(i).value.b in live
    ensures ChainsTrue(Flows(live, i, len, a), Effect(i, len, s))
  {
    hide Effect, Writes, Stepped, Merged;
    NoStep(i, len);
    MergeRight(i, len, s);
    forall r | r in Flows(live, i, len, a)
      ensures r != 0 && X(Effect(i, len, s), r) == Flows(live, i, len, a)[r].val
    {
      EffectKeeps(i, len, s, r);
    }
  }

  lemma NoStep(i: Insn, len: nat)
    requires MergeOf(i).Some?
    ensures StepOf(i, len).None?
  {
  }

  lemma OtherFlows(live: Live, i: Insn, len: nat, a: Word, s: State)
    requires ChainsTrue(live, s)
    requires !(StepOf(i, len).Some? && StepOf(i, len).value.dst != 0 && StepOf(i, len).value.reg in live)
    requires !(MergeOf(i).Some? && MergeOf(i).value.a in live && MergeOf(i).value.b in live)
    ensures ChainsTrue(Flows(live, i, len, a), Effect(i, len, s))
  {
    hide Effect, Reads, Writes, Stepped, Merged;
    if DecodeConst(i).Some? {
      ConstResult(i, len, s);
    }
    forall r | r in Flows(live, i, len, a)
      ensures r != 0 && X(Effect(i, len, s), r) == Flows(live, i, len, a)[r].val
    {
      EffectKeeps(i, len, s, r);
    }
  }

  lemma FlowsTrue(live: Live, i: Insn, len: nat, a: Word, s: State)
    requires ChainsTrue(live, s)
    ensures ChainsTrue(Flows(live, i, len, a), Effect(i, len, s))
  {
    hide Effect, ChainsTrue, Flows;
    if StepOf(i, len).Some? && StepOf(i, len).value.dst != 0 && StepOf(i, len).value.reg in live {
      StepFlows(live, i, len, a, s);
    } else if MergeOf(i).Some? && MergeOf(i).value.a in live && MergeOf(i).value.b in live {
      MergeFlows(live, i, len, a, s);
    } else {
      OtherFlows(live, i, len, a, s);
    }
  }

  ghost predicate LiveTrue(p: Program, s: State) {
    s.pc in p.code ==> ChainsTrue(LiveAt(p, s.pc), s)
  }

  lemma TransferEnds(live: Live, i: Insn, len: nat, a: Word)
    requires EndsRegion(i)
    ensures Flows(live, i, len, a) == map[]
  {
  }

  lemma QuietNoChains(p: Program, a: Word)
    requires Quiet(p, a)
    ensures LiveAt(p, a) == map[]
  {
    hide Flows;
    match Prev(p, a) {
      case Some(b) =>
        if EndsRegion(p.code[b].insn) { TransferEnds(LiveAt(p, b), p.code[b].insn, p.code[b].len, b); }
      case None =>
    }
  }

  lemma ChainsIgnorePc(live: Live, s: State, pc: Word)
    requires ChainsTrue(live, s)
    ensures ChainsTrue(live, s.(pc := pc))
  {
  }

  lemma StepKeepsChains(p: Program, s: State)
    requires WellFormed(p) && QuietLandings(p) && LiveTrue(p, s)
    ensures LiveTrue(p, Step(p, s))
  {
    hide WellFormed, Effect, IsTarget, NextPc, PlainInsn, Flows, ChainsTrue, QuietLandings, Quiet;
    NoChains(Step(p, s));
    if Runs(p, s) && Step(p, s).pc in p.code {
      var d, c := p.code[s.pc], Step(p, s).pc;
      PrevOfNext(p, s.pc);
      if c == s.pc + d.len && !EndsRegion(d.insn) {
        FlowsTrue(LiveAt(p, s.pc), d.insn, d.len, s.pc, s);
        ChainsIgnorePc(Flows(LiveAt(p, s.pc), d.insn, d.len, s.pc), Effect(d.insn, d.len, s), c);
      } else {
        Lands(p, s, c);
        QuietNoChains(p, c);
      }
    }
  }

  lemma NoChains(s: State)
    ensures ChainsTrue(map[], s)
  {
  }

  /** At every state of every run each open chain's value is its register's. */
  lemma {:induction false} ChainsAreTrue(p: Program, s: State, n: nat)
    requires WellFormed(p) && QuietLandings(p) && Quiet(p, s.pc)
    ensures LiveTrue(p, Run(p, s, n))
  {
    hide Step, WellFormed, QuietLandings, Quiet, ChainsTrue;
    if n == 0 {
      QuietNoChains(p, s.pc);
      NoChains(s);
    } else {
      ChainsAreTrue(p, s, n - 1);
      StepKeepsChains(p, Run(p, s, n - 1));
    }
  }

  // ---- which chains are counted ----

  const AllRegs: set<Reg> := set r: Reg | 0 <= r < 32

  /** The open chains of these registers, from register `r` on. */
  function Closing(live: Live, rs: set<Reg>, r: nat): seq<Chain>
    requires r <= 32
    decreases 32 - r
  {
    if r == 32 then [] else (if r in rs && r in live then [live[r]] else []) + Closing(live, rs, r + 1)
  }

  /** What the instruction closes, and so counts: a chain another is copied over, one a
      composition is put over, and the chains of the registers any other instruction
      names; nothing survives one that ends the region. */
  function Counted(live: Live, i: Insn, len: nat): seq<Chain> {
    var st, mg := StepOf(i, len), MergeOf(i);
    if st.Some? && st.value.dst != 0 && st.value.reg in live then
      (if st.value.dst != st.value.reg then Closing(live, {st.value.dst}, 0) else [])
    else if mg.Some? && mg.value.a in live && mg.value.b in live then
      Closing(live - {mg.value.a, mg.value.b}, {mg.value.dst}, 0)
    else
      Closing(live, Reads(i) + Writes(i), 0) +
      if EndsRegion(i) then Closing(live - (Reads(i) + Writes(i)), AllRegs, 0) else []
  }

  predicate Cut(p: Program, a: Word) {
    IsTarget(p, a) || Prev(p, a).None?
  }

  /** The chains open once the instruction at `a` has been taken in. */
  function OutOf(p: Program, a: Word): Live {
    if a in p.code then Flows(LiveAt(p, a), p.code[a].insn, p.code[a].len, a) else map[]
  }

  /** Each instruction follows the one before it in the list, or nothing decodable
      ends where it begins. */
  ghost predicate Follows(p: Program, order: seq<Word>) {
    forall k :: 0 <= k < |order| ==> FollowsAt(p, order, k)
  }

  ghost predicate FollowsAt(p: Program, order: seq<Word>, k: nat)
    requires k < |order|
  {
    order[k] in p.code && (Prev(p, order[k]).Some? ==> k > 0 && Prev(p, order[k]) == Some(order[k - 1]))
  }

  /** What is open on reaching number `k` of the list. */
  function Arriving(p: Program, order: seq<Word>, k: nat): Live
    requires k <= |order|
  {
    if k == 0 then map[] else OutOf(p, order[k - 1])
  }

  /** Every chain counted before number `k`, in order. */
  function CountedTo(p: Program, order: seq<Word>, k: nat): seq<Chain>
    requires k <= |order|
  {
    if k == 0 then []
    else
      var a := order[k - 1];
      CountedTo(p, order, k - 1) + (if Cut(p, a) then Closing(Arriving(p, order, k - 1), AllRegs, 0) else []) +
      if a in p.code then Counted(LiveAt(p, a), p.code[a].insn, p.code[a].len) else []
  }

  /** And in the whole list, what is open at its end with them. */
  function CountedIn(p: Program, order: seq<Word>): seq<Chain> {
    CountedTo(p, order, |order|) + Closing(Arriving(p, order, |order|), AllRegs, 0)
  }

  // ---- none is lost and none counted twice ----

  ghost function OpenIn(live: Live, rs: set<Reg>, r: nat): set<Reg> {
    set q | q in live && q in rs && q >= r
  }

  lemma {:induction false} ClosingSize(live: Live, rs: set<Reg>, r: nat)
    requires r <= 32
    ensures |Closing(live, rs, r)| == |OpenIn(live, rs, r)|
    decreases 32 - r
  {
    if r < 32 {
      ClosingSize(live, rs, r + 1);
      if r in rs && r in live {
        assert OpenIn(live, rs, r) == OpenIn(live, rs, r + 1) + {r};
      } else {
        assert OpenIn(live, rs, r) == OpenIn(live, rs, r + 1);
      }
    } else {
      assert OpenIn(live, rs, r) == {};
    }
  }

  lemma ClosedSize(live: Live, rs: set<Reg>)
    ensures |Closing(live, rs, 0)| + |live - rs| == |live|
  {
    hide Closing;
    ClosingSize(live, rs, 0);
    OpenAre(live, rs);
    hide OpenIn;
    Parts(live.Keys, OpenIn(live, rs, 0), (live - rs).Keys);
    SizeOfKeys(live);
    SizeOfKeys(live - rs);
  }

  lemma OpenAre(live: Live, rs: set<Reg>)
    ensures live.Keys == OpenIn(live, rs, 0) + (live - rs).Keys && OpenIn(live, rs, 0) !! (live - rs).Keys
  {
  }

  lemma Parts(all: set<Reg>, gone: set<Reg>, left: set<Reg>)
    requires all == gone + left && gone !! left
    ensures |all| == |gone| + |left|
  {
  }

  lemma SizeOfKeys(live: Live)
    ensures |live.Keys| == |live|
  {
  }

  lemma AllClosed(live: Live)
    ensures |Closing(live, AllRegs, 0)| == |live|
  {
    ClosedSize(live, AllRegs);
    assert live - AllRegs == map[];
  }

  lemma PutSize(live: Live, r: Reg, c: Chain)
    ensures |live[r := c]| == |live - {r}| + 1
  {
    assert live[r := c].Keys == (live - {r}).Keys + {r};
    SizeOfKeys(live[r := c]);
    SizeOfKeys(live - {r});
  }

  /** How many chains an instruction adds to those there are: one copied or begun, and a
      composition leaves one of the chains it consumes. */
  function Gained(live: Live, i: Insn, len: nat): int {
    var st, mg := StepOf(i, len), MergeOf(i);
    if st.Some? && st.value.dst != 0 && st.value.reg in live then (if st.value.dst != st.value.reg then 1 else 0)
    else if mg.Some? && mg.value.a in live && mg.value.b in live then (if mg.value.a == mg.value.b then 0 else -1)
    else if DecodeConst(i).Some? then 1
    else 0
  }

  /** Every chain there is stays open or is counted, and never both. */
  lemma Conserved(live: Live, i: Insn, len: nat, a: Word)
    ensures |Counted(live, i, len)| + |Flows(live, i, len, a)| == |live| + Gained(live, i, len)
  {
    hide Stepped, Merged, Union, Reads, Writes, Closing, MergeOf, StepOf, DecodeConst, EndsRegion, AllRegs;
    var st, mg := StepOf(i, len), MergeOf(i);
    if st.Some? && st.value.dst != 0 && st.value.reg in live {
      var now := Flows(live, i, len, a);
      PutSize(live, st.value.dst, now[st.value.dst]);
      ClosedSize(live, {st.value.dst});
      Without(live, st.value.dst);
    } else if mg.Some? && mg.value.a in live && mg.value.b in live {
      var rest := live - {mg.value.a, mg.value.b};
      PutSize(rest, mg.value.dst, Union(mg.value, live[mg.value.a], live[mg.value.b]));
      ClosedSize(rest, {mg.value.dst});
      Without2(live, mg.value.a, mg.value.b);
    } else {
      OtherConserved(live, i, len, a);
    }
  }

  lemma OtherConserved(live: Live, i: Insn, len: nat, a: Word)
    requires !(StepOf(i, len).Some? && StepOf(i, len).value.dst != 0 && StepOf(i, len).value.reg in live)
    requires !(MergeOf(i).Some? && MergeOf(i).value.a in live && MergeOf(i).value.b in live)
    ensures |Counted(live, i, len)| + |Flows(live, i, len, a)| == |live| + if DecodeConst(i).Some? then 1 else 0
  {
    hide Stepped, Merged, Union, Reads, Closing, MergeOf, StepOf;
    var kept := live - (Reads(i) + Writes(i));
    ClosedSize(live, Reads(i) + Writes(i));
    if EndsRegion(i) {
      AllClosed(kept);
    } else if DecodeConst(i).Some? {
      var (rd, k) := DecodeConst(i).value;
      PutSize(kept, rd, Chain(Wrap(k), 1, a));
      assert kept - {rd} == kept;
    }
  }

  lemma Without(live: Live, r: Reg)
    ensures |live - {r}| == |live| - if r in live then 1 else 0
  {
    assert (live - {r}).Keys == live.Keys - {r};
    SizeOfKeys(live - {r});
    SizeOfKeys(live);
  }

  lemma Without2(live: Live, a: Reg, b: Reg)
    requires a in live && b in live
    ensures |live - {a, b}| == |live| - if a == b then 1 else 2
  {
    assert live - {a, b} == live - {a} - {b};
    Without(live, a);
    Without(live - {a}, b);
  }

  function GainedTo(p: Program, order: seq<Word>, k: nat): int
    requires k <= |order|
  {
    if k == 0 then 0
    else
      var a := order[k - 1];
      GainedTo(p, order, k - 1) + if a in p.code then Gained(LiveAt(p, a), p.code[a].insn, p.code[a].len) else 0
  }

  lemma {:induction false} ConservedTo(p: Program, order: seq<Word>, k: nat)
    requires k <= |order| && Follows(p, order)
    ensures |CountedTo(p, order, k)| + |Arriving(p, order, k)| == GainedTo(p, order, k)
  {
    hide Flows, Counted, Gained, IsTarget, Prev, AllRegs, Closing, LiveAt, Cut;
    if k > 0 {
      var a := order[k - 1];
      ConservedTo(p, order, k - 1);
      assert FollowsAt(p, order, k - 1);
      Conserved(LiveAt(p, a), p.code[a].insn, p.code[a].len, a);
      EntersAt(p, order, k - 1);
      AllClosed(Arriving(p, order, k - 1));
    }
  }

  /** Over a section as many are counted as are begun or copied, less one for every two
      that are put together. */
  lemma CountedOnce(p: Program, order: seq<Word>)
    requires Follows(p, order)
    ensures |CountedIn(p, order)| == GainedTo(p, order, |order|)
  {
    hide CountedTo, GainedTo, Arriving, Closing;
    ConservedTo(p, order, |order|);
    AllClosed(Arriving(p, order, |order|));
  }

  lemma {:induction false} ClosingOpen(live: Live, rs: set<Reg>, r: nat, c: Chain)
    requires r <= 32 && c in Closing(live, rs, r)
    ensures c in live.Values
    decreases 32 - r
  {
    if !(r in rs && r in live && live[r] == c) {
      ClosingOpen(live, rs, r + 1, c);
    }
  }

  lemma CountedOpen(live: Live, i: Insn, len: nat, c: Chain)
    requires c in Counted(live, i, len)
    ensures c in live.Values
  {
    hide Closing, Reads, Writes;
    forall l: Live, rs | c in Closing(l, rs, 0) ensures c in l.Values { ClosingOpen(l, rs, 0, c); }
  }

  ghost predicate WasOpen(p: Program, order: seq<Word>, c: Chain) {
    exists k :: 0 <= k < |order| && c in OutOf(p, order[k]).Values
  }

  /** What is counted was open after some instruction of the list. */
  lemma {:induction false} CountedWereOpen(p: Program, order: seq<Word>, k: nat, c: Chain)
    requires k <= |order| && Follows(p, order)
    ensures c in CountedTo(p, order, k) || c in Arriving(p, order, k).Values ==> WasOpen(p, order, c)
  {
    hide Flows, Counted, Cut, Closing, AllRegs, LiveAt, Follows;
    if k > 0 {
      var a := order[k - 1];
      CountedWereOpen(p, order, k - 1, c);
      EntersAt(p, order, k - 1);
      if c in Closing(Arriving(p, order, k - 1), AllRegs, 0) { ClosingOpen(Arriving(p, order, k - 1), AllRegs, 0, c); }
      if a in p.code && c in Counted(LiveAt(p, a), p.code[a].insn, p.code[a].len) {
        CountedOpen(LiveAt(p, a), p.code[a].insn, p.code[a].len, c);
      }
    }
  }

  // ---- the scan ----

  class ChainScan {
    var live: Live
    var finished: seq<Chain>

    constructor ()
      ensures live == map[] && finished == []
    {
      live, finished := map[], [];
    }

    method Close(r: Reg)
      modifies this
      ensures live == old(live) - {r} && finished == old(finished) + Closing(old(live), {r}, 0)
    {
      ClosingOne(live, r, 0);
      if r in live {
        finished := finished + [live[r]];
        live := live - {r};
      }
    }

    /** In the order of the registers; a tally does not depend on it. */
    method CloseThose(rs: set<Reg>)
      modifies this
      ensures live == old(live) - rs && finished == old(finished) + Closing(old(live), rs, 0)
    {
      hide Closing;
      var r: int := 0;
      while r < 32
        invariant 0 <= r <= 32 && live == old(live) - Below(rs, r)
        invariant finished + Closing(old(live), rs, r) == old(finished) + Closing(old(live), rs, 0)
      {
        ClosingStep(old(live), rs, r);
        BelowNext(rs, r);
        if r in rs {
          ClosingOne(live, r, 0);
          Close(r);
        }
        r := r + 1;
      }
      ClosingEnd(old(live), rs);
      assert Below(rs, 32) == rs;
    }

    /** A branch landing at `a`, or bytes before it that do not decode, end every
        chain. */
    method Enter(p: Program, a: Word)
      modifies this
      ensures live == (if Cut(p, a) then map[] else old(live))
      ensures finished == old(finished) + if Cut(p, a) then Closing(old(live), AllRegs, 0) else []
    {
      if IsTarget(p, a) || Prev(p, a).None? { CloseThose(AllRegs); }
    }

    method Observe(i: Insn, len: nat, a: Word)
      modifies this
      ensures live == Flows(old(live), i, len, a) && finished == old(finished) + Counted(old(live), i, len)
    {
      hide Stepped, Merged, Reads, Closing;
      var st, mg := StepOf(i, len), MergeOf(i);
      if st.Some? && st.value.dst != 0 && st.value.reg in live {
        var c := live[st.value.reg];
        if st.value.dst != st.value.reg { Close(st.value.dst); }
        live := live[st.value.dst := Chain(Stepped(st.value, c.val), c.insns + 1, c.start)];
        return;
      }
      if mg.Some? && mg.value.a in live && mg.value.b in live {
        var union := Union(mg.value, live[mg.value.a], live[mg.value.b]);
        live := live - {mg.value.a, mg.value.b};
        Close(mg.value.dst);
        live := live[mg.value.dst := union];
        return;
      }
      CloseThose(Reads(i) + Writes(i));
      match DecodeConst(i) {
        case Some((rd, k)) => live := live[rd := Chain(Wrap(k), 1, a)];
        case None =>
      }
      if EndsRegion(i) {
        assert DecodeConst(i).None?;
        CloseThose(AllRegs);
      }
    }

    /** A section's instructions in address order: exactly the chains specified are
        counted, one for every chain there was. */
    method Scan(p: Program, order: seq<Word>)
      requires live == map[] && finished == [] && Follows(p, order)
      modifies this
      ensures finished == CountedIn(p, order) && |finished| == GainedTo(p, order, |order|)
      ensures forall c :: c in finished ==> WasOpen(p, order, c)
    {
      hide Flows, Counted, Closing, Cut, GainedTo;
      var k := 0;
      while k < |order|
        invariant k <= |order| && live == Arriving(p, order, k) && finished == CountedTo(p, order, k)
      {
        assert FollowsAt(p, order, k);
        Enter(p, order[k]);
        EntersAt(p, order, k);
        Observe(p.code[order[k]].insn, p.code[order[k]].len, order[k]);
        k := k + 1;
      }
      ghost var left := live;
      CloseThose(AllRegs);
      CountedOnce(p, order);
      forall c | c in finished ensures WasOpen(p, order, c) {
        if c in Closing(left, AllRegs, 0) { ClosingOpen(left, AllRegs, 0, c); }
        CountedWereOpen(p, order, |order|, c);
      }
    }
  }

  lemma EntersAt(p: Program, order: seq<Word>, k: nat)
    requires k < |order| && Follows(p, order)
    ensures LiveAt(p, order[k]) == if Cut(p, order[k]) then map[] else Arriving(p, order, k)
  {
    hide Flows, IsTarget;
    assert FollowsAt(p, order, k);
  }

  ghost function Below(rs: set<Reg>, n: int): set<Reg> {
    set q | q in rs && q < n
  }

  lemma BelowNext(rs: set<Reg>, r: Reg)
    ensures Below(rs, r + 1) == Below(rs, r) + if r in rs then {r} else {}
    ensures r !in Below(rs, r)
  {
  }

  lemma ClosingStep(live: Live, rs: set<Reg>, r: nat)
    requires r < 32
    ensures Closing(live, rs, r) == (if r in rs && r in live then [live[r]] else []) + Closing(live, rs, r + 1)
  {
  }

  lemma ClosingEnd(live: Live, rs: set<Reg>)
    ensures Closing(live, rs, 32) == []
  {
  }

  lemma {:induction false} ClosingOne(live: Live, r: Reg, from: nat)
    requires from <= 32
    ensures Closing(live, {r}, from) == if r in live && from <= r then [live[r]] else []
    decreases 32 - from
  {
    if from < 32 {
      ClosingOne(live, r, from + 1);
    }
  }

  /** Whenever control comes by, what is open after an instruction is true once it
      has been carried out. */
  lemma CountedAreTrue(p: Program, s: State, n: nat, r: Reg)
    requires WellFormed(p) && QuietLandings(p) && Quiet(p, s.pc) && Run(p, s, n).pc in p.code
    requires r in OutOf(p, Run(p, s, n).pc)
    ensures var t := Run(p, s, n);
            var d := p.code[t.pc];
            X(Effect(d.insn, d.len, t), r) == OutOf(p, t.pc)[r].val
  {
    hide WellFormed, QuietLandings, Quiet, Run, Flows, Effect;
    ChainsAreTrue(p, s, n);
    var t := Run(p, s, n);
    FlowsTrue(LiveAt(p, t.pc), p.code[t.pc].insn, p.code[t.pc].len, t.pc, t);
  }
}
