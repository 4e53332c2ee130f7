/** The table as the scan keeps it, updated in place after every instruction, and
    the scan that asks every check about every instruction. */
module WindowState {
  import opened Words
  import opened Wrappers
  import opened Machine
  import opened MemoryFacts
  import opened Window
  import opened WindowChecks
  import opened Sweep

  class WindowTable {
    var slots: seq<Slot>
    var consts: map<Reg, int>
    var comps: map<Reg, Comp>

    ghost function View(): Table
      reads this
    {
      Table(slots, consts, comps)
    }

    constructor ()
      ensures View() == Empty
    {
      slots, consts, comps := [], map[], map[];
    }

    method Drop()
      modifies this
      ensures View() == Empty
    {
      slots, consts, comps := [], map[], map[];
    }

    /** Applies `f` to every slot. */
    method Update(f: Slot -> Slot)
      modifies this`slots
      ensures slots == Map(f, old(slots))
    {
      var k := 0;
      while k < |slots|
        invariant k <= |slots| == |old(slots)|
        invariant forall j :: 0 <= j < k ==> slots[j] == f(old(slots)[j])
        invariant forall j :: k <= j < |slots| ==> slots[j] == old(slots)[j]
      {
        slots := slots[k := f(slots[k])];
        k := k + 1;
      }
    }

    /** Drops every computation that names a register of `x`. */
    method LoseComps(x: set<Reg>)
      modifies this`comps
      ensures comps == map r | r in old(comps) && r !in x && !CompNames(old(comps)[r], x) :: old(comps)[r]
    {
      var r: int := 0;
      while r < 32
        invariant 0 <= r <= 32
        invariant comps == map q | q in old(comps) && (q >= r || (q !in x && !CompNames(old(comps)[q], x))) ::
                  old(comps)[q]
      {
        if r in comps && (r in x || CompNames(comps[r], x)) {
          comps := comps - {r};
        }
        r := r + 1;
      }
    }

    /** Finds the record for (base, off, kind), or makes room for it. */
    method Record(sl: Slot)
      requires |slots| <= SLOTS
      modifies this`slots
      ensures slots == Put(old(slots), SlotFor(old(slots), sl.base, sl.disp, sl.kind), sl)
    {
      var k := 0;
      while k < |slots| && !slots[k].Names(sl.base, sl.disp, sl.kind)
        invariant k <= |slots| && slots == old(slots)
        invariant forall j :: 0 <= j < k ==> !slots[j].Names(sl.base, sl.disp, sl.kind)
      {
        k := k + 1;
      }
      assert k == SlotFor(slots, sl.base, sl.disp, sl.kind);
      if k < |slots| {
        slots := slots[k := sl];
      } else if |slots| < SLOTS {
        slots := slots + [sl];
      }
    }

    /** Folds the instruction at `a` into the table. */
    method Observe(p: Program, a: Word)
      requires a in p.code && PlainInsn(p.code[a].insn) && a + p.code[a].len < W64 && |slots| <= SLOTS
      modifies this
      ensures View() == Observed(old(View()), p.code[a].insn, a, IsTarget(p, a + p.code[a].len) || !Readable(p, a))
      ensures |slots| <= SLOTS
    {
      hide Writes, FWrites, RangesOverlap, IsTarget;
      var i := p.code[a].insn;
      ghost var was := slots;
      // Registers first, so that a load's own destination is lost before the
      // load records itself into it.
      Update(sl => LoseRegisters(sl, Writes(i), FWrites(i)));
      ghost var s1 := slots;
      consts := consts - Writes(i);
      LoseComps(Writes(i));
      // The access itself.
      match i {
        case Store(k, _, base, off) => Update(sl => LoseToStore(sl, base, off, k.Width()));
        case Load(k, _, base, off) => Update(sl => LoseToLoad(sl, base, off, k.Width()));
        case Branch(_, _, _, _) => Update((sl: Slot) => sl.(unread := false));
        case _ =>
      }
      assert slots == Map(sl => Survives(i, sl), was);
      match i {
        case Store(k, data, base, off) => Record(Slot(true, base == 2 || base == 8, base, off, k, data, a));
        case Load(k, rd, base, off) =>
          if base !in Writes(i) {
            Record(Slot(true, false, base, off, k, rd, a));
          }
        case _ =>
      }
      // Constants, then the computation performed.
      match DecodeConst(i) {
        case Some((rd, k)) => consts := consts[rd := k];
        case None =>
      }
      match CompKey(i) {
        case Some(key) =>
          if key.rs1 != XDest(i) && key.src != R(XDest(i)) {
            comps := comps[XDest(i) := key];
          }
        case None =>
      }
      if EndsRegion(i) {
        Drop();
      }
      if IsTarget(p, a + p.code[a].len) || !Readable(p, a) {
        Drop();
      }
    }

    /** The first slot on which `f` decides. */
    method FirstVerdict(f: Slot -> Verdict) returns (r: Option<Insn>)
      ensures r == Decide(slots, f)
    {
      var k := 0;
      while k < |slots|
        invariant k <= |slots|
        invariant Decide(slots[k..], f) == Decide(slots, f)
      {
        match f(slots[k]) {
          case Skip =>
          case Refuse => return None;
          case Rewrite(i) => return Some(i);
        }
        k := k + 1;
      }
      return None;
    }

    method AnySlot(f: Slot -> bool) returns (any: bool)
      ensures any <==> exists sl :: sl in slots && f(sl)
    {
      any := false;
      for k := 0 to |slots|
        invariant any <==> exists j :: 0 <= j < k && f(slots[j])
      {
        if f(slots[k]) { any := true; }
      }
    }

    method LowestReg(f: Reg -> bool) returns (r: Option<Reg>)
      ensures r == FirstReg(f, 1)
    {
      var k := 1;
      while k < 32
        invariant 1 <= k <= 32 && FirstReg(f, k) == FirstReg(f, 1)
      {
        if f(k) { return Some(k); }
        k := k + 1;
      }
      return None;
    }

    /** Asks check `c` about an instruction. */
    method Ask(c: Check, i: Insn, len: nat, entry: bool, ext: Extensions) returns (r: Option<Insn>)
      ensures r == Rewriting(c, View(), i, len, entry, ext)
    {
      hide Decide, ReloadVerdict, ForwardVerdict, StillHeldVerdict, SilentVerdict, BitcastVerdict;
      r := None;
      match c {
        case Reload =>
          if IntLoad(i) { r := FirstVerdict(sl => ReloadVerdict(i, sl)); }
        case Forward =>
          if IntLoad(i) {
            var held := AnySlot((sl: Slot) => sl.held && sl.Names(i.base, i.off, i.kind));
            if !held { r := FirstVerdict(sl => ForwardVerdict(i, len, ext.zba, ext.zbb, sl)); }
          }
        case SameLoad =>
          if IntLoad(i) { r := FirstVerdict(sl => StillHeldVerdict(i, sl)); }
        case Silent =>
          if i.Store? && i.kind.IsStore() && !i.kind.IsFp() && (i.base == 2 || i.base == 8) {
            var dead := AnySlot(sl => Overwrites(i, sl));
            if entry || !dead { r := FirstVerdict(sl => SilentVerdict(i, sl)); }
          }
        case ConstAgain => r := AskConst(i, len);
        case CompAgain => r := AskComp(i, len);
        case Bitcast =>
          if len == 4 && i.Load? && !i.kind.IsStore() { r := FirstVerdict(sl => BitcastVerdict(i, sl)); }
      }
    }

    method AskConst(i: Insn, len: nat) returns (r: Option<Insn>)
      ensures r == ConstRemat(View(), i, len)
    {
      hide FirstReg;
      match DecodeConst(i) {
        case None => return None;
        case Some((rd, k)) =>
          if len != 4 || -32 <= k <= 31 || rd == 2 || rd == 3 || rd == 4 { return None; }
          var same := consts;
          var q := LowestReg((r: Reg) => r != rd && r in same && same[r] == k);
          match q {
            case None => return None;
            case Some(r) => return Some(Move(rd, r));
          }
      }
    }

    method AskComp(i: Insn, len: nat) returns (r: Option<Insn>)
      ensures r == CompRemat(View(), i, len)
    {
      hide FirstReg;
      match CompKey(i) {
        case None => return None;
        case Some(key) =>
          var rd, same := XDest(i), comps;
          if rd == 2 || rd == 3 || rd == 4 { return None; }
          if rd in comps && comps[rd] == key { return Some(Nop); }
          if len != 4 { return None; }
          var q := LowestReg((r: Reg) => r != rd && r in same && same[r] == key);
          match q {
            case None => return None;
            case Some(r) => return Some(Move(rd, r));
          }
      }
    }
  }

  // ---- the scan ----

  datatype Finding = Finding(check: Check, addr: Word, insn: Insn)

  /** Check `f.check` rewrites the instruction at `f.addr` to `f.insn` on the table
      the sweep holds there. */
  predicate IsFinding(p: Program, ext: Extensions, f: Finding) {
    && f.addr in p.code && Readable(p, f.addr)
    && Rewriting(f.check, WindowAt(p, f.addr), p.code[f.addr].insn, p.code[f.addr].len, IsTarget(p, f.addr), ext)
       == Some(f.insn)
  }

  method AskAll(w: WindowTable, p: Program, a: Word, ext: Extensions) returns (fs: seq<Finding>)
    requires a in p.code && Readable(p, a) && w.View() == WindowAt(p, a)
    ensures forall f :: f in fs <==> f.addr == a && IsFinding(p, ext, f)
  {
    hide WindowAt, IsTarget, Rewriting;
    var checks := [Reload, Forward, SameLoad, Silent, ConstAgain, CompAgain, Bitcast];
    fs := [];
    var k := 0;
    while k < |checks|
      invariant k <= |checks|
      invariant forall f :: f in fs <==> f.addr == a && f.check in checks[..k] && IsFinding(p, ext, f)
    {
      var r := w.Ask(checks[k], p.code[a].insn, p.code[a].len, IsTarget(p, a), ext);
      if r.Some? {
        fs := fs + [Finding(checks[k], a, r.value)];
      }
      assert checks[..k + 1] == checks[..k] + [checks[k]];
      k := k + 1;
    }
    assert checks[..k] == checks;
    forall c: Check
      ensures c in checks
    {
      EveryCheck(c, checks);
    }
  }

  lemma EveryCheck(c: Check, checks: seq<Check>)
    requires checks == [Reload, Forward, SameLoad, Silent, ConstAgain, CompAgain, Bitcast]
    ensures c in checks
  {
    match c {
      case Reload => assert checks[0] == c;
      case Forward => assert checks[1] == c;
      case SameLoad => assert checks[2] == c;
      case Silent => assert checks[3] == c;
      case ConstAgain => assert checks[4] == c;
      case CompAgain => assert checks[5] == c;
      case Bitcast => assert checks[6] == c;
    }
  }

  /** The sweep reports exactly the findings there are. */
  method Scan(p: Program, ext: Extensions) returns (fs: seq<Finding>)
    requires WellFormed(p)
    ensures forall f :: f in fs <==> IsFinding(p, ext, f)
  {
    hide IsTarget, Observed, Rewriting, WellFormed, WindowAt, Prev, PlainInsn;
    var w := new WindowTable();
    fs := [];
    var a: Word := p.vaddr;
    SweepStarts(p);
    while p.vaddr + p.size - a >= 2
      invariant p.vaddr <= a <= p.vaddr + p.size && (a - p.vaddr) % 2 == 0
      invariant w.View() == WindowAt(p, a) && |w.slots| <= SLOTS && fresh(w)
      invariant SweptTo(p, a)
      invariant forall f :: f in fs <==> f.addr < a && IsFinding(p, ext, f)
      decreases p.vaddr + p.size - a
    {
      if a in p.code {
        if Readable(p, a) {
          var here := AskAll(w, p, a, ext);
          fs := fs + here;
        }
        SweepsOn(p, a);
        w.Observe(p, a);
        a := a + p.code[a].len;
      } else {
        SkipsHalfword(p, a);
        w.Drop();
        a := a + 2;
      }
    }
    SweepEnds(p, a);
  }

  /** Every instruction that begins before `a` ends there or before. */
  ghost predicate SweptTo(p: Program, a: Word) {
    forall b :: b in p.code && b < a ==> b + p.code[b].len <= a
  }

  lemma SweepStarts(p: Program)
    requires WellFormed(p)
    ensures WindowAt(p, p.vaddr) == Empty && SweptTo(p, p.vaddr)
    ensures p.vaddr + p.size < W64
  {
    hide PlainInsn, Reads, Writes, IsTarget, Observed;
    assert forall b :: b in p.code ==> WellPlaced(p, b, p.code[b]);
  }

  lemma SweepEnds(p: Program, a: Word)
    requires WellFormed(p) && p.vaddr + p.size < a + 2
    ensures forall b :: b in p.code ==> b < a
  {
    hide PlainInsn, Reads, Writes;
    assert forall b :: b in p.code ==> WellPlaced(p, b, p.code[b]);
  }

  lemma SweepsOn(p: Program, a: Word)
    requires WellFormed(p) && a in p.code && SweptTo(p, a)
    ensures var d := p.code[a];
            && PlainInsn(d.insn) && (d.len == 2 || d.len == 4) && a + d.len <= p.vaddr + p.size < W64
            && WindowAt(p, a + d.len) == Observed(WindowAt(p, a), d.insn, a, IsTarget(p, a + d.len) || !Readable(p, a))
            && SweptTo(p, a + d.len)
            && forall b :: b in p.code && b < a + d.len ==> b <= a
  {
    hide PlainInsn, Reads, Writes, IsTarget, Observed;
    assert WellPlaced(p, a, p.code[a]);
    PrevOfNext(p, a);
  }

  lemma SkipsHalfword(p: Program, a: Word)
    requires WellFormed(p) && a !in p.code && p.vaddr <= a && a + 2 <= p.vaddr + p.size && (a - p.vaddr) % 2 == 0
    requires SweptTo(p, a) && p.vaddr + p.size < W64
    ensures WindowAt(p, a + 2) == Empty
    ensures SweptTo(p, a + 2) && forall b :: b in p.code && b < a + 2 ==> b < a
  {
    hide PlainInsn, Reads, Writes, IsTarget, Observed;
    forall b | b in p.code && b < a + 2
      ensures b < a
    {
      assert WellPlaced(p, b, p.code[b]);
    }
  }

  // ---- the whole program rewritten ----

  /** `q` is `p` with some of the instructions replaced as `fs` says. */
  ghost predicate Rewritten(p: Program, q: Program, fs: set<Finding>) {
    && q == p.(code := q.code) && q.code.Keys == p.code.Keys
    && forall a :: a in p.code ==>
         q.code[a].len == p.code[a].len &&
         (q.code[a].insn == p.code[a].insn || exists f :: f in fs && f.addr == a && f.insn == q.code[a].insn)
  }

  /** No bit cast among the findings is read off a load into x0. */
  ghost predicate SoundFindings(p: Program, fs: set<Finding>) {
    forall f :: f in fs && f.check == Bitcast && f.addr in p.code ==>
      SoundCasts(WindowAt(p, f.addr), p.code[f.addr].insn)
  }

  lemma FindingKeepsState(p: Program, ext: Extensions, f: Finding, s: State)
    requires WellFormed(p) && IsFinding(p, ext, f) && TrueHere(p, s) && s.pc == f.addr
    requires f.check == Bitcast ==> SoundCasts(WindowAt(p, f.addr), p.code[f.addr].insn)
    ensures Exec(p.code[s.pc].(insn := f.insn), s) == Exec(p.code[s.pc], s)
    ensures !IsIndirect(f.insn) && !IsIndirect(p.code[s.pc].insn)
  {
    hide Effect, TableTrue, WindowAt, Rewriting, IsTarget, Reads, Writes, Readable, SoundCasts;
    var d, t := p.code[s.pc], WindowAt(p, s.pc);
    assert WellPlaced(p, s.pc, d);
    RewritingRight(f.check, t, d.insn, d.len, IsTarget(p, f.addr), ext);
    RewritingStraight(f.check, t, d.insn, d.len, IsTarget(p, f.addr), ext);
    StraightNext(d.insn, d.len, s);
    StraightNext(f.insn, d.len, s);
  }

  /** Replacing every finding of the scan at once, or any of them, leaves every
      run of the program as it was, state by state. */
  lemma {:induction false} RewritesPreserveRuns(p: Program, q: Program, ext: Extensions, fs: set<Finding>, s: State,
                                                n: nat)
    requires WellFormed(p) && QuietLandings(p) && SoundFindings(p, fs) && Starts(p, s)
    requires Rewritten(p, q, fs) && forall f :: f in fs ==> IsFinding(p, ext, f)
    ensures Run(q, s, n) == Run(p, s, n)
  {
    if n > 0 {
      RewritesPreserveRuns(p, q, ext, fs, s, n - 1);
      WindowIsTrue(p, s, n - 1);
      RewrittenStep(p, q, ext, fs, Run(p, s, n - 1));
    }
  }

  lemma RewrittenStep(p: Program, q: Program, ext: Extensions, fs: set<Finding>, t: State)
    requires WellFormed(p) && SoundFindings(p, fs) && TrueHere(p, t)
    requires Rewritten(p, q, fs) && forall f :: f in fs ==> IsFinding(p, ext, f)
    ensures Step(q, t) == Step(p, t)
  {
    hide TrueHere, IsFinding, Exec, WellFormed, SoundCasts;
    if t.pc in p.code && q.code[t.pc].insn != p.code[t.pc].insn {
      var f :| f in fs && f.addr == t.pc && f.insn == q.code[t.pc].insn;
      FindingKeepsState(p, ext, f, t);
      ExecIgnoresNames(q.code[t.pc], p.code[t.pc].(insn := f.insn), t);
    } else if t.pc in p.code {
      ExecIgnoresNames(q.code[t.pc], p.code[t.pc], t);
    }
  }

  lemma ExecIgnoresNames(d: Decoded, e: Decoded, s: State)
    requires d.insn == e.insn && d.len == e.len
    ensures Exec(d, s) == Exec(e, s)
  {
  }

  // ---- a load into x0, read as a record ----

  const Misread: Finding := Finding(Bitcast, 4, FmvWX(1, 0))

  /** `lw zero,0(sp)` and `flw f1,0(sp)`. */
  function X0Cast(): Program {
    Program(0, 8, map[
      0 := Decoded(Load(LW, 0, 2, 0), 4, {2}),
      4 := Decoded(Load(FLW, 1, 2, 0), 4, {2})], {})
  }

  function Cast(): Program {
    X0Cast().(code := X0Cast().code[4 := Decoded(FmvWX(1, 0), 4, {2})])
  }

  lemma X0CastPlaced()
    ensures WellFormed(X0Cast())
  {
  }

  lemma X0CastFound(ext: Extensions)
    ensures IsFinding(X0Cast(), ext, Misread)
  {
    var p := X0Cast();
    assert !IsTarget(p, 4);
    var sl := Slot(true, false, 2, 0, LW, 0, 0);
    assert Prev(p, 0) == None && Prev(p, 4) == Some(0);
    assert WindowAt(p, 0) == Empty;
    assert WindowAt(p, 4).slots == [sl];
    assert BitcastVerdict(p.code[4].insn, sl) == Rewrite(FmvWX(1, 0));
  }

  lemma LoadNothing(s: State)
    requires s.pc == 0
    ensures Run(X0Cast(), s, 1) == s.(pc := 4) == Run(Cast(), s, 1)
  {
    hide LoadLE;
    assert Run(X0Cast(), s, 0) == s == Run(Cast(), s, 0);
  }

  lemma CastSteps(s: State)
    requires s.pc == 4
    ensures Step(X0Cast(), s).f[1] == Box(LoadLE(s.mem, X(s, 2), 4)) && Step(Cast(), s).f[1] == Box(0)
  {
    hide LoadLE, Box;
    assert Wrap(X(s, 2) + 0) == X(s, 2);
  }

  /** The check reports it, and the two programs differ after two steps exactly where
      the word loaded is not zero. */
  lemma X0CastMisleads(ext: Extensions, s: State)
    requires s.pc == 0
    ensures WellFormed(X0Cast()) && IsFinding(X0Cast(), ext, Misread) && Rewritten(X0Cast(), Cast(), {Misread})
    ensures Run(X0Cast(), s, 2).f[1] == Run(Cast(), s, 2).f[1] <==> LoadLE(s.mem, X(s, 2), 4) == 0
  {
    X0CastPlaced();
    X0CastFound(ext);
    CastIs();
    LoadNothing(s);
    CastSteps(s.(pc := 4));
    LoadBound4(s.mem, X(s, 2));
    PcAside(s);
    BoxOfWord(LoadLE(s.mem, X(s, 2), 4));
    TwoSteps(X0Cast(), s);
    TwoSteps(Cast(), s);
    hide LoadLE, X0Cast, Cast, WellFormed, IsFinding, Rewritten, Step, Run, X, Box;
  }

  lemma BoxOfWord(v: nat)
    requires v < W32
    ensures Box(v) == Box(0) <==> v == 0
  {
  }

  lemma TwoSteps(p: Program, s: State)
    ensures Run(p, s, 2) == Step(p, Run(p, s, 1))
  {
    hide Step;
  }

  lemma PcAside(s: State)
    ensures X(s.(pc := 4), 2) == X(s, 2)
  {
  }

  lemma CastIs()
    ensures Rewritten(X0Cast(), Cast(), {Misread})
  {
  }
}
