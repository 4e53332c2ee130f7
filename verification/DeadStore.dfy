/** The store a later store overwrites before anything reads it: what the sweep
    knows about the instructions in between, and why deleting it is invisible. */
module DeadStore {
  import opened Words
  import opened Wrappers
  import opened Machine
  import opened MemoryFacts
  import opened Window
  import opened Sweep
  import opened WindowChecks
  import opened WindowState

  /** The first unread record of the bytes `i` stores to. */
  function FirstOverwritten(s: seq<Slot>, i: Insn): Option<Word> {
    if s == [] then None else if Overwrites(i, s[0]) then Some(s[0].addr) else FirstOverwritten(s[1..], i)
  }

  /** The address of the store that the frame store `i` makes dead. */
  function DeadStore(t: Table, i: Insn, entry: bool): Option<Word> {
    if !i.Store? || !i.kind.IsStore() || (i.base != 2 && i.base != 8) || entry then None
    else FirstOverwritten(t.slots, i)
  }

  method CheckDeadStore(w: WindowTable, i: Insn, entry: bool) returns (dead: Option<Word>)
    ensures dead == DeadStore(w.View(), i, entry)
  {
    if !i.Store? || !i.kind.IsStore() || (i.base != 2 && i.base != 8) { return None; }
    var k := 0;
    while k < |w.slots|
      invariant k <= |w.slots|
      invariant FirstOverwritten(w.slots[k..], i) == FirstOverwritten(w.slots, i)
    {
      if Overwrites(i, w.slots[k]) {
        return if entry then None else Some(w.slots[k].addr);
      }
      k := k + 1;
    }
    return None;
  }

  lemma {:induction false} FoundOverwritten(s: seq<Slot>, i: Insn) returns (k: nat)
    requires FirstOverwritten(s, i).Some?
    ensures k < |s| && Overwrites(i, s[k]) && s[k].addr == FirstOverwritten(s, i).value
  {
    if Overwrites(i, s[0]) {
      k := 0;
    } else {
      var j := FoundOverwritten(s[1..], i);
      k := j + 1;
    }
  }

  // ---- what lies between the two stores ----

  /** `i` neither moves control, nor writes the base, nor may read the slot. */
  predicate Transparent(i: Insn, base: Reg, disp: int, w: nat) {
    && PlainInsn(i) && !IsTransfer(i) && base !in Writes(i)
    && (i.Load? ==> i.base == base && !RangesOverlap(disp, w, i.off, i.kind.Width()))
  }

  /** From the store at `a` up to `b` every instruction is transparent. */
  predicate Unread(p: Program, a: Word, base: Reg, disp: int, w: nat, b: Word)
    decreases b
  {
    match Prev(p, b)
    case None => false
    case Some(c) =>
      if c == a then
        && p.code[c].insn.Store? && PlainInsn(p.code[c].insn)
        && p.code[c].insn.base == base && p.code[c].insn.off == disp && p.code[c].insn.kind.Width() == w
      else Transparent(p.code[c].insn, base, disp, w) && Unread(p, a, base, disp, w, c)
  }

  lemma UnreadSurvives(i: Insn, sl: Slot)
    requires PlainInsn(i) && !EndsRegion(i) && Survives(i, sl).unread
    ensures sl.unread && Transparent(i, sl.base, sl.disp, sl.Width())
    ensures var r := Survives(i, sl); r.base == sl.base && r.disp == sl.disp && r.kind == sl.kind && r.addr == sl.addr
  {
    hide Writes, FWrites, RangesOverlap;
  }

  /** An unread record tells that nothing since its store read or moved the slot. */
  lemma {:induction false} UnreadMeans(p: Program, b: Word, sl: Slot)
    requires WellFormed(p) && sl in WindowAt(p, b).slots && sl.unread
    ensures Unread(p, sl.addr, sl.base, sl.disp, sl.Width(), b)
    decreases b
  {
    hide Survives, Writes, Reads, RangesOverlap, IsTarget, ConstsAfter, CompsAfter, Transparent;
    var c := Prev(p, b).value;
    var i, was := p.code[c].insn, WindowAt(p, c).slots;
    assert WellPlaced(p, c, p.code[c]);
    var kept := Map(sl => Survives(i, sl), was);
    if sl in kept {
      var k :| 0 <= k < |kept| && kept[k] == sl;
      UnreadSurvives(i, was[k]);
      UnreadMeans(p, c, was[k]);
      UnreadBefore(p, was[k].addr, sl.base, sl.disp, sl.Width(), c);
    } else {
      assert i.Store? && sl == Slot(true, sl.unread, i.base, i.off, i.kind, i.data, c);
    }
  }

  lemma {:induction false} UnreadBefore(p: Program, a: Word, base: Reg, disp: int, w: nat, b: Word)
    requires Unread(p, a, base, disp, w, b)
    ensures a < b && a in p.code && p.code[a].insn.Store? && PlainInsn(p.code[a].insn)
    ensures p.code[a].insn.base == base && p.code[a].insn.off == disp && p.code[a].insn.kind.Width() == w
    decreases b
  {
    hide Transparent;
    var c := Prev(p, b).value;
    if c != a {
      UnreadBefore(p, a, base, disp, w, c);
    }
  }

  /** Every instruction strictly between the two is transparent and followed by
      another of the stretch or by `b`. */
  lemma {:induction false} UnreadBetween(p: Program, a: Word, base: Reg, disp: int, w: nat, b: Word, c: Word)
    requires WellFormed(p) && Unread(p, a, base, disp, w, b) && c in p.code && a <= c < b
    ensures c + p.code[c].len <= b
    ensures c > a ==> Transparent(p.code[c].insn, base, disp, w)
    decreases b
  {
    hide Transparent, Reads, Writes, PlainInsn;
    var d := Prev(p, b).value;
    assert d in p.code && d + p.code[d].len == b;
    Apart(p, d, c);
    if d != a {
      UnreadBefore(p, a, base, disp, w, d);
      if c < d {
        UnreadBetween(p, a, base, disp, w, d, c);
      }
    }
  }

  // ---- deleting it ----

  /** The memories agree outside the `w` bytes from `at`. */
  ghost predicate AgreeOutside(m: Memory, m': Memory, at: Word, w: nat) {
    forall b: Word :: !InRange(at, w, b) ==> (b in m <==> b in m') && (b in m ==> m[b] == m'[b])
  }

  ghost predicate SameButMemory(s: State, t: State) {
    t == s.(mem := t.mem)
  }

  /** The two runs side by side: one state, but for the slot's bytes while control
      is between the store and its overwriting. */
  ghost predicate Beside(a: Word, b: Word, base: Reg, disp: int, w: nat, s: State, t: State) {
    && SameButMemory(s, t)
    && (if a < s.pc <= b then AgreeOutside(s.mem, t.mem, Address(s, base, disp), w) else s.mem == t.mem)
  }

  function Without(p: Program, a: Word): Program
    requires a in p.code
  {
    p.(code := p.code[a := p.code[a].(insn := Nop)])
  }

  lemma StoreBoth(m: Memory, m': Memory, at: Word, w: nat, a: Word, n: nat, v: nat)
    requires AgreeOutside(m, m', at, w)
    ensures AgreeOutside(StoreLE(m, a, n, v), StoreLE(m', a, n, v), at, w)
    ensures a == at && n == w ==> StoreLE(m, a, n, v) == StoreLE(m', a, n, v)
  {
    hide InRange, Digit, Gap;
  }

  lemma StoreOne(m: Memory, at: Word, w: nat, v: nat)
    ensures AgreeOutside(StoreLE(m, at, w, v), m, at, w)
  {
    hide InRange, Digit, Gap;
  }

  lemma LoadsAlike(m: Memory, m': Memory, base: Word, disp: int, w: nat, off: int, n: nat)
    requires AgreeOutside(m, m', Wrap(base + disp), w) && !RangesOverlap(disp, w, off, n)
    requires w <= 8 && n <= 8 && -2048 <= disp <= 2047 && -2048 <= off <= 2047
    ensures LoadLE(m', Wrap(base + off), n) == LoadLE(m, Wrap(base + off), n)
  {
    hide InRange, Wrap, RangesOverlap, LoadLE;
    forall b: Word | InRange(Wrap(base + off), n, b)
      ensures Byte0(m', b) == Byte0(m, b)
    {
      DisjointBytes(base, disp, w, off, n, b);
    }
    LoadSame(m, m', Wrap(base + off), n);
  }

  lemma StoresTo(i: Insn, s: State, m: Memory)
    requires i.Store?
    ensures MemResult(i, s.(mem := m)) ==
            StoreLE(m, Address(s, i.base, i.off), i.kind.Width(), StoredReg(i.kind, s, i.data))
  {
    hide StoreLE, Wrap;
  }

  lemma AddressIgnoresMemory(s: State, m: Memory, base: Reg, off: int)
    ensures Address(s.(mem := m), base, off) == Address(s, base, off)
  {
  }

  lemma StoreStep(i: Insn, len: nat, base: Reg, disp: int, w: nat, s: State, t: State)
    requires i.Store? && SameButMemory(s, t) && AgreeOutside(s.mem, t.mem, Address(s, base, disp), w)
    ensures var s', t' := Effect(i, len, s), Effect(i, len, t);
            SameButMemory(s', t') && AgreeOutside(s'.mem, t'.mem, Address(s', base, disp), w)
  {
    hide AgreeOutside, StoreLE, Effect, MemResult, Address, StoredReg;
    StoreEffect(i, len, s);
    StoreEffect(i, len, t);
    StoresTo(i, s, s.mem);
    StoresTo(i, s, t.mem);
    assert t == s.(mem := t.mem) && s == s.(mem := s.mem);
    var a, v, k := Address(s, i.base, i.off), StoredReg(i.kind, s, i.data), i.kind.Width();
    AddressIgnoresMemory(s, StoreLE(s.mem, a, k, v), base, disp);
    StoreBoth(s.mem, t.mem, Address(s, base, disp), w, a, k, v);
  }

  lemma LoadStep(i: Insn, len: nat, base: Reg, disp: int, w: nat, s: State, t: State)
    requires i.Load? && PlainInsn(i) && i.base == base && !RangesOverlap(disp, w, i.off, i.kind.Width())
    requires w <= 8 && -2048 <= disp <= 2047
    requires SameButMemory(s, t) && AgreeOutside(s.mem, t.mem, Address(s, base, disp), w)
    ensures Effect(i, len, t) == Effect(i, len, s).(mem := t.mem)
  {
    hide AgreeOutside, LoadLE, RangesOverlap, Effect;
    LoadsAlike(s.mem, t.mem, X(s, base), disp, w, i.off, i.kind.Width());
    LoadSees(i, len, s, t.mem);
  }

  lemma QuietStep(i: Insn, len: nat, base: Reg, disp: int, w: nat, s: State, t: State)
    requires !i.Store? && !i.Then? && base !in Writes(i) && SameButMemory(s, t)
    requires Effect(i, len, t) == Effect(i, len, s).(mem := t.mem)
    requires AgreeOutside(s.mem, t.mem, Address(s, base, disp), w)
    ensures var s', t' := Effect(i, len, s), Effect(i, len, t);
            SameButMemory(s', t') && AgreeOutside(s'.mem, t'.mem, Address(s', base, disp), w)
  {
    hide AgreeOutside, Effect, Writes, Wrap, X;
    EffectKeeps(i, len, s, base);
  }

  /** A transparent instruction does the same on both sides. */
  lemma TransparentStep(i: Insn, len: nat, base: Reg, disp: int, w: nat, s: State, t: State)
    requires Transparent(i, base, disp, w) && w <= 8 && -2048 <= disp <= 2047
    requires SameButMemory(s, t) && AgreeOutside(s.mem, t.mem, Address(s, base, disp), w)
    ensures var s', t' := Effect(i, len, s), Effect(i, len, t);
            SameButMemory(s', t') && AgreeOutside(s'.mem, t'.mem, Address(s', base, disp), w)
    ensures NextPc(i, len, s) == Wrap(s.pc + len) && NextPc(i, len, t) == Wrap(t.pc + len)
  {
    StraightNext(i, len, s);
    StraightNext(i, len, t);
    hide AgreeOutside, RangesOverlap, Effect, Writes, Address, NextPc;
    if i.Store? {
      StoreStep(i, len, base, disp, w, s, t);
    } else {
      if i.Load? {
        LoadStep(i, len, base, disp, w, s, t);
      } else {
        EffectIgnoresMemory(i, len, s, t.mem);
      }
      QuietStep(i, len, base, disp, w, s, t);
    }
  }

  lemma DeletedStep(p: Program, a: Word, b: Word, i: Insn, s: State, t: State)
    requires WellFormed(p) && b in p.code && p.code[b].insn == i && i.Store?
    requires Unread(p, a, i.base, i.off, i.kind.Width(), b)
    requires a in p.code && Beside(a, b, i.base, i.off, i.kind.Width(), s, t)
    ensures Beside(a, b, i.base, i.off, i.kind.Width(), Step(p, s), Step(Without(p, a), t))
  {
    hide Effect, AgreeOutside, Unread, NextPc, PlainInsn, Reads, Writes, WellFormed, Exec, Transparent;
    UnreadBefore(p, a, i.base, i.off, i.kind.Width(), b);
    if s.pc in p.code {
      var d := p.code[s.pc];
      Placed(p, s.pc);
      Placed(p, b);
      if s.pc == a {
        UnreadBetween(p, a, i.base, i.off, i.kind.Width(), b, a);
        AtStore(d, s, i.base, i.off, i.kind.Width());
      } else if a < s.pc < b {
        UnreadBetween(p, a, i.base, i.off, i.kind.Width(), b, s.pc);
        AtBetween(d, i.base, i.off, i.kind.Width(), s, t);
      } else if s.pc == b {
        AtOverwrite(d, s, t);
      } else {
        assert s == t;
        AgreesWithItself(Step(p, s).mem, Address(Step(p, s), i.base, i.off), i.kind.Width());
      }
    }
  }

  lemma AgreesWithItself(m: Memory, at: Word, w: nat)
    ensures AgreeOutside(m, m, at, w)
  {
  }

  lemma AtStore(d: Decoded, s: State, base: Reg, disp: int, w: nat)
    requires d.insn.Store? && d.insn.base == base && d.insn.off == disp && d.insn.kind.Width() == w
    requires s.pc + d.len < W64
    ensures var s', t' := Exec(d, s), Exec(d.(insn := Nop), s);
            s'.pc == s.pc + d.len && SameButMemory(s', t') && AgreeOutside(s'.mem, t'.mem, Address(s', base, disp), w)
    ensures !IsIndirect(d.insn)
  {
    hide StoreLE, AgreeOutside;
    StoreOne(s.mem, Address(s, base, disp), w, StoredReg(d.insn.kind, s, d.insn.data));
  }

  lemma AtBetween(d: Decoded, base: Reg, disp: int, w: nat, s: State, t: State)
    requires Transparent(d.insn, base, disp, w) && w <= 8 && -2048 <= disp <= 2047 && s.pc + d.len < W64
    requires SameButMemory(s, t) && AgreeOutside(s.mem, t.mem, Address(s, base, disp), w)
    ensures var s', t' := Exec(d, s), Exec(d, t);
            s'.pc == s.pc + d.len && SameButMemory(s', t') && AgreeOutside(s'.mem, t'.mem, Address(s', base, disp), w)
    ensures !IsIndirect(d.insn)
  {
    hide Effect, AgreeOutside, NextPc, RangesOverlap, Writes;
    TransparentStep(d.insn, d.len, base, disp, w, s, t);
  }

  lemma AtOverwrite(d: Decoded, s: State, t: State)
    requires d.insn.Store? && SameButMemory(s, t) && s.pc + d.len < W64
    requires AgreeOutside(s.mem, t.mem, Address(s, d.insn.base, d.insn.off), d.insn.kind.Width())
    ensures Exec(d, s) == Exec(d, t)
    ensures Exec(d, s).pc == s.pc + d.len && !IsIndirect(d.insn)
  {
    hide StoreLE, AgreeOutside;
    var at, w := Address(s, d.insn.base, d.insn.off), d.insn.kind.Width();
    StoreBoth(s.mem, t.mem, at, w, at, w, StoredReg(d.insn.kind, s, d.insn.data));
  }

  /** A store the sweep calls dead can be deleted: the two runs go in lock step,
      the same state at every step except that between the store and the one that
      overwrites it the slot's own bytes may differ. */
  lemma {:induction false} DeadStoreIsInvisible(p: Program, b: Word, s: State, n: nat)
    requires WellFormed(p) && b in p.code && DeadStore(WindowAt(p, b), p.code[b].insn, IsTarget(p, b)).Some?
    requires !(DeadStore(WindowAt(p, b), p.code[b].insn, IsTarget(p, b)).value < s.pc <= b)
    ensures var i, a := p.code[b].insn, DeadStore(WindowAt(p, b), p.code[b].insn, IsTarget(p, b)).value;
            a in p.code && Beside(a, b, i.base, i.off, i.kind.Width(), Run(p, s, n), Run(Without(p, a), s, n))
  {
    hide WindowAt, IsTarget, Beside, Step, PlainInsn, Reads, Writes;
    var i, t := p.code[b].insn, WindowAt(p, b);
    var k := FoundOverwritten(t.slots, i);
    UnreadMeans(p, b, t.slots[k]);
    var a := t.slots[k].addr;
    UnreadBefore(p, a, i.base, i.off, i.kind.Width(), b);
    if n == 0 {
      BesideAtStart(a, b, i, s);
    } else {
      DeadStoreIsInvisible(p, b, s, n - 1);
      DeletedStep(p, a, b, i, Run(p, s, n - 1), Run(Without(p, a), s, n - 1));
    }
  }

  lemma BesideAtStart(a: Word, b: Word, i: Insn, s: State)
    requires i.Store? && !(a < s.pc <= b)
    ensures Beside(a, b, i.base, i.off, i.kind.Width(), s, s)
  {
  }
}
