/** The windowed table of one straight-line region: frame slots, constants and
    computations, how one instruction changes it, and what it claims of a
    machine state. */
module Window {
  import opened Words
  import opened Wrappers
  import opened Machine
  import opened MemoryFacts

  const SLOTS: nat := 24

  /** What the sweep remembers of one place in memory. A `held` record stands for the
      register that agrees with it, an `unread` one for a store no load has seen. */
  datatype Slot = Slot(held: bool, unread: bool, base: Reg, disp: int, kind: MemKind, data: Reg, addr: Word) {
    function Width(): nat { kind.Width() }

    predicate Names(b: Reg, d: int, k: MemKind) {
      base == b && disp == d && kind == k
    }
  }

  /** A computation a register holds; x0 stands for an absent operand. */
  datatype Comp = Comp(op: AluOp, rs1: Reg, src: Src)

  datatype Table = Table(slots: seq<Slot>, consts: map<Reg, int>, comps: map<Reg, Comp>)

  const Empty: Table := Table([], map[], map[])

  // ---- one instruction, step by step ----

  /** Step 1 for one slot: the registers written take their claims along. */
  function LoseRegisters(sl: Slot, x: set<Reg>, f: set<Reg>): Slot {
    var data := if sl.kind.IsFp() then sl.data in f else sl.data in x;
    sl.(held := sl.held && !data && sl.base !in x, unread := sl.unread && sl.base !in x)
  }

  predicate CompNames(c: Comp, x: set<Reg>) {
    c.rs1 in x || (c.src.R? && c.src.r in x)
  }

  /** Step 2 for one slot: an access at (base, off) of `w` bytes. */
  function LoseToStore(sl: Slot, base: Reg, off: int, w: nat): Slot {
    var sl1 := if sl.base != base || RangesOverlap(sl.disp, sl.Width(), off, w) then sl.(held := false) else sl;
    if sl.base == base && sl.disp == off && sl.Width() == w then sl1.(unread := false) else sl1
  }

  function LoseToLoad(sl: Slot, base: Reg, off: int, w: nat): Slot {
    if sl.unread && (sl.base != base || RangesOverlap(sl.disp, sl.Width(), off, w)) then sl.(unread := false) else sl
  }

  function Survives(i: Insn, sl: Slot): Slot {
    var sl1 := LoseRegisters(sl, Writes(i), FWrites(i));
    match i
    case Store(k, _, base, off) => LoseToStore(sl1, base, off, k.Width())
    case Load(k, _, base, off) => LoseToLoad(sl1, base, off, k.Width())
    case Branch(_, _, _, _) => sl1.(unread := false)
    case _ => sl1
  }

  function Map(f: Slot -> Slot, s: seq<Slot>): (r: seq<Slot>)
    ensures |r| == |s| && forall k :: 0 <= k < |s| ==> r[k] == f(s[k])
  {
    seq(|s|, k requires 0 <= k < |s| => f(s[k]))
  }

  /** Where the record for (b, d, k) goes: its own place, else one past the end. */
  function SlotFor(s: seq<Slot>, b: Reg, d: int, k: MemKind): (n: nat)
    ensures n <= |s|
    ensures n < |s| ==> s[n].Names(b, d, k)
    ensures forall j :: 0 <= j < n ==> !s[j].Names(b, d, k)
  {
    if s == [] then 0
    else if s[0].Names(b, d, k) then 0
    else
      var rest := SlotFor(s[1..], b, d, k);
      assert forall j :: 0 < j <= rest && j < |s| ==> s[j] == s[1..][j - 1];
      rest + 1
  }

  function Put(s: seq<Slot>, n: nat, sl: Slot): seq<Slot>
    requires n <= |s|
  {
    if n < |s| then s[n := sl] else if |s| < SLOTS then s + [sl] else s
  }

  /** The record an access leaves, unless it wrote its own base. */
  function Recorded(s: seq<Slot>, i: Insn, a: Word): seq<Slot> {
    match i
    case Load(k, rd, base, off) =>
      if base in Writes(i) then s
      else Put(s, SlotFor(s, base, off, k), Slot(true, false, base, off, k, rd, a))
    case Store(k, data, base, off) =>
      Put(s, SlotFor(s, base, off, k), Slot(true, base == 2 || base == 8, base, off, k, data, a))
    case _ => s
  }

  /** The constant an instruction materializes: `li` or `lui`. */
  function DecodeConst(i: Insn): Option<(Reg, int)> {
    match i
    case Alu(Add, rd, 0, K(k)) => if rd != 0 then Some((rd, k)) else None
    case Lui(rd, k) => if rd != 0 then Some((rd, k)) else None
    case _ => None
  }

  /** `mv rd,rs`, in either spelling. */
  predicate IsMove(i: Insn) {
    i.Alu? && i.op == Add && (i.src == K(0) || (i.rs1 == 0 && i.src.R?))
  }

  /** The computation an instruction performs, as the table records it. */
  function CompKey(i: Insn): Option<Comp> {
    if i.Alu? && i.rd != 0 && !IsMove(i) && DecodeConst(i) == None then Some(Comp(i.op, i.rs1, i.src)) else None
  }

  function ConstsAfter(c: map<Reg, int>, i: Insn): map<Reg, int> {
    var kept := c - Writes(i);
    match DecodeConst(i)
    case Some((rd, k)) => kept[rd := k]
    case None => kept
  }

  function CompsAfter(c: map<Reg, Comp>, i: Insn): map<Reg, Comp> {
    var kept := map r | r in c && r !in Writes(i) && !CompNames(c[r], Writes(i)) :: c[r];
    match CompKey(i)
    case Some(key) => if key.rs1 != XDest(i) && key.src != R(XDest(i)) then kept[XDest(i) := key] else kept
    case None => kept
  }

  predicate EndsRegion(i: Insn) {
    i.Jal? || i.Jalr?
  }

  /** The table after the instruction at `a`, `entry` when what follows it is a
      side entry. */
  function Observed(t: Table, i: Insn, a: Word, entry: bool): Table {
    if entry || EndsRegion(i) then Empty
    else
      Table(Recorded(Map(sl => Survives(i, sl), t.slots), i, a), ConstsAfter(t.consts, i), CompsAfter(t.comps, i))
  }

  // ---- what the table claims ----

  /** The register agrees with the bytes at the slot; a load of x0 claims nothing. */
  ghost predicate HeldTrue(sl: Slot, s: State) {
    var bytes := LoadLE(s.mem, Address(s, sl.base, sl.disp), sl.Width());
    if sl.kind.IsStore() then Low(StoredReg(sl.kind, s, sl.data), sl.Width()) == bytes
    else if sl.kind.IsFp() then s.f[sl.data] == Extend(sl.kind, bytes)
    else sl.data != 0 ==> X(s, sl.data) == Extend(sl.kind, bytes)
  }

  ghost predicate SlotTrue(sl: Slot, s: State) {
    -2048 <= sl.disp <= 2047 && (sl.held ==> HeldTrue(sl, s))
  }

  ghost predicate SlotsTrue(sls: seq<Slot>, s: State) {
    forall k :: 0 <= k < |sls| ==> SlotTrue(sls[k], s)
  }

  ghost predicate CompTrue(c: Comp, r: Reg, s: State) {
    X(s, r) == AluVal(c.op, X(s, c.rs1), SrcVal(c.src, s))
  }

  ghost predicate TableTrue(t: Table, s: State) {
    && |t.slots| <= SLOTS
    && SlotsTrue(t.slots, s)
    && (forall r :: r in t.consts ==> r != 0 && X(s, r) == Wrap(t.consts[r]))
    && (forall r :: r in t.comps ==> r != 0 && CompTrue(t.comps[r], r, s))
  }

  // ---- one instruction keeps the claims true ----

  lemma HeldSurvives(i: Insn, len: nat, sl: Slot, s: State)
    requires PlainInsn(i) && !i.Store?
    requires sl.base !in Writes(i) && (if sl.kind.IsFp() then sl.data !in FWrites(i) else sl.data !in Writes(i))
    requires HeldTrue(sl, s)
    ensures HeldTrue(sl, Effect(i, len, s))
  {
    hide Effect, Writes, FWrites, LoadLE, Low, Extend;
    EffectKeeps(i, len, s, sl.base);
    EffectKeeps(i, len, s, sl.data);
  }

  lemma HeldSurvivesStore(i: Insn, len: nat, sl: Slot, s: State)
    requires PlainInsn(i) && i.Store? && -2048 <= sl.disp <= 2047
    requires sl.base == i.base && !RangesOverlap(sl.disp, sl.Width(), i.off, i.kind.Width())
    requires HeldTrue(sl, s)
    ensures HeldTrue(sl, Effect(i, len, s))
  {
    hide LoadLE, Low, Extend, StoreLE;
    LoadMissesStore(s.mem, X(s, i.base), i.off, i.kind.Width(), StoredReg(i.kind, s, i.data), sl.disp, sl.Width());
  }

  lemma SlotSurvives(i: Insn, len: nat, sl: Slot, s: State)
    requires PlainInsn(i) && SlotTrue(sl, s)
    ensures SlotTrue(Survives(i, sl), Effect(i, len, s))
  {
    hide Effect, Writes, FWrites, HeldTrue, RangesOverlap;
    var after := Survives(i, sl);
    if after.held {
      if i.Store? {
        HeldSurvivesStore(i, len, sl, s);
      } else {
        HeldSurvives(i, len, sl, s);
      }
      HeldIgnoresFlags(sl, after, Effect(i, len, s));
    }
  }

  lemma HeldIgnoresFlags(a: Slot, b: Slot, s: State)
    requires b == a.(held := b.held, unread := b.unread)
    ensures HeldTrue(a, s) == HeldTrue(b, s)
  {
  }

  lemma RecordTrue(i: Insn, len: nat, a: Word, unread: bool, s: State)
    requires PlainInsn(i)
    ensures i.Load? && i.base !in Writes(i) ==>
              HeldTrue(Slot(true, unread, i.base, i.off, i.kind, i.rd, a), Effect(i, len, s))
    ensures i.Store? ==> HeldTrue(Slot(true, unread, i.base, i.off, i.kind, i.data, a), Effect(i, len, s))
  {
    hide LoadLE, Low, Extend, StoreLE;
    var t := Effect(i, len, s);
    if i.Load? && i.base !in Writes(i) {
      EffectKeeps(i, len, s, i.base);
      assert Address(t, i.base, i.off) == Address(s, i.base, i.off);
    }
    if i.Store? {
      LoadAfterStore(s.mem, Address(s, i.base, i.off), i.kind.Width(), StoredReg(i.kind, s, i.data));
    }
  }

  lemma SlotsAfter(t: Table, i: Insn, len: nat, a: Word, s: State)
    requires PlainInsn(i) && TableTrue(t, s)
    ensures SlotsTrue(Recorded(Map(sl => Survives(i, sl), t.slots), i, a), Effect(i, len, s))
    ensures |Recorded(Map(sl => Survives(i, sl), t.slots), i, a)| <= SLOTS
  {
    hide Effect, Writes, FWrites, HeldTrue, Survives, CompTrue;
    var kept := Map(sl => Survives(i, sl), t.slots);
    forall k | 0 <= k < |kept|
      ensures SlotTrue(kept[k], Effect(i, len, s))
    {
      SlotSurvives(i, len, t.slots[k], s);
    }
    RecordTrue(i, len, a, false, s);
    RecordTrue(i, len, a, i.Store? && (i.base == 2 || i.base == 8), s);
  }

  lemma ConstsTrue(t: Table, i: Insn, len: nat, s: State, r: Reg)
    requires PlainInsn(i) && TableTrue(t, s) && r in ConstsAfter(t.consts, i)
    ensures r != 0 && X(Effect(i, len, s), r) == Wrap(ConstsAfter(t.consts, i)[r])
  {
    hide SlotsTrue, CompTrue, Wrap;
    EffectKeeps(i, len, s, r);
    if DecodeConst(i).Some? && DecodeConst(i).value.0 == r {
      ConstResult(i, len, s);
    }
  }

  lemma ConstResult(i: Insn, len: nat, s: State)
    requires DecodeConst(i).Some?
    ensures X(Effect(i, len, s), DecodeConst(i).value.0) == Wrap(DecodeConst(i).value.1)
  {
  }

  lemma CompKeeps(c: Comp, r: Reg, i: Insn, len: nat, s: State)
    requires CompTrue(c, r, s) && r !in Writes(i) && !CompNames(c, Writes(i))
    ensures CompTrue(c, r, Effect(i, len, s))
  {
    hide Effect, Writes, AluVal;
    EffectKeeps(i, len, s, r);
    EffectKeeps(i, len, s, c.rs1);
    if c.src.R? {
      EffectKeeps(i, len, s, c.src.r);
    }
  }

  lemma CompMade(i: Insn, len: nat, s: State)
    requires i.Alu? && i.rd != 0 && i.rs1 != i.rd && i.src != R(i.rd)
    ensures CompTrue(Comp(i.op, i.rs1, i.src), i.rd, Effect(i, len, s))
  {
    hide AluVal;
  }

  lemma CompsTrue(t: Table, i: Insn, len: nat, s: State, r: Reg)
    requires PlainInsn(i) && TableTrue(t, s) && r in CompsAfter(t.comps, i)
    ensures r != 0 && CompTrue(CompsAfter(t.comps, i)[r], r, Effect(i, len, s))
  {
    hide SlotsTrue, CompTrue, Effect, Writes, CompNames;
    if r in t.comps && CompsAfter(t.comps, i)[r] == t.comps[r] && r !in Writes(i) && !CompNames(t.comps[r], Writes(i)) {
      CompKeeps(t.comps[r], r, i, len, s);
    } else {
      CompMade(i, len, s);
    }
  }

  /** Every claim of the table is still true after the instruction. */
  lemma ObservedTrue(t: Table, i: Insn, len: nat, a: Word, entry: bool, s: State)
    requires PlainInsn(i) && TableTrue(t, s)
    ensures TableTrue(Observed(t, i, a, entry), Effect(i, len, s))
  {
    hide Effect, SlotTrue, CompTrue, ConstsAfter, CompsAfter, Recorded;
    SlotsAfter(t, i, len, a, s);
    forall r | r in ConstsAfter(t.consts, i)
      ensures r != 0 && X(Effect(i, len, s), r) == Wrap(ConstsAfter(t.consts, i)[r])
    {
      ConstsTrue(t, i, len, s, r);
    }
    forall r | r in CompsAfter(t.comps, i)
      ensures r != 0 && CompTrue(CompsAfter(t.comps, i)[r], r, Effect(i, len, s))
    {
      CompsTrue(t, i, len, s, r);
    }
  }
}
