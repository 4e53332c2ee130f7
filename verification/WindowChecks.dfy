/** The checks that read the windowed table, and why each rewrite they name
    leaves the machine in the state the instruction would have left. */
module WindowChecks {
  import opened Words
  import opened Wrappers
  import opened Machine
  import opened MemoryFacts
  import opened Window

  /** What a check makes of one slot. */
  datatype Verdict = Skip | Refuse | Rewrite(insn: Insn)

  /** The first slot that decides. */
  function Decide(s: seq<Slot>, f: Slot -> Verdict): Option<Insn> {
    if s == [] then None
    else if f(s[0]).Skip? then Decide(s[1..], f)
    else if f(s[0]).Refuse? then None
    else Some(f(s[0]).insn)
  }

  lemma {:induction false} DecideFound(s: seq<Slot>, f: Slot -> Verdict) returns (k: nat)
    requires Decide(s, f).Some?
    ensures k < |s| && f(s[k]) == Rewrite(Decide(s, f).value)
  {
    if f(s[0]).Skip? {
      var j := DecideFound(s[1..], f);
      k := j + 1;
    } else {
      k := 0;
    }
  }

  function Move(rd: Reg, rs: Reg): Insn {
    Alu(Add, rd, rs, K(0))
  }

  // ---- the verdicts ----

  /** A load of what an earlier load left in another register. */
  function ReloadVerdict(i: Insn, sl: Slot): Verdict
    requires i.Load?
  {
    if !sl.held || !sl.Names(i.base, i.off, i.kind) then Skip
    else if sl.data == 0 || sl.data == i.rd then Refuse
    else Rewrite(Move(i.rd, sl.data))
  }

  /** The one instruction a load of just-stored bytes becomes; zext.w needs Zba,
      zext.h, sext.h and sext.b need Zbb. */
  function ForwardForm(st: MemKind, k: MemKind, zba: bool, zbb: bool, rd: Reg, rs: Reg): Option<Insn> {
    match (st, k)
    case (SD, LD) => Some(Move(rd, rs))
    case (SW, LW) => Some(Alu(Addw, rd, rs, K(0)))
    case (SW, LWU) => if zba then Some(Alu(ZextW, rd, rs, K(0))) else None
    case (SH, LH) => if zbb then Some(Alu(SextH, rd, rs, K(0))) else None
    case (SH, LHU) => if zbb then Some(Alu(ZextH, rd, rs, K(0))) else None
    case (SB, LB) => if zbb then Some(Alu(SextB, rd, rs, K(0))) else None
    case (SB, LBU) => Some(Alu(And, rd, rs, K(255)))
    case _ => None
  }

  function ForwardVerdict(i: Insn, len: nat, zba: bool, zbb: bool, sl: Slot): Verdict
    requires i.Load?
  {
    if !sl.held || !sl.kind.IsStore() || sl.base != i.base || sl.disp != i.off then Skip
    else
      match ForwardForm(sl.kind, i.kind, zba, zbb, i.rd, sl.data)
      case None => Refuse
      case Some(r) =>
        if sl.data == 0 || sl.data == i.rd then Refuse
        else if len == 2 && r != Move(i.rd, sl.data) then Refuse
        else Rewrite(r)
  }

  /** A load of what its own register still holds. */
  function StillHeldVerdict(i: Insn, sl: Slot): Verdict
    requires i.Load?
  {
    if !sl.held || sl.data != i.rd || sl.base != i.base || sl.disp != i.off then Skip
    else if sl.kind != i.kind && !(sl.kind == SD && i.kind == LD) then Skip
    else Rewrite(Nop)
  }

  /** A store of the bytes the slot already holds. */
  function SilentVerdict(i: Insn, sl: Slot): Verdict
    requires i.Store?
  {
    if sl.kind.IsFp() || !sl.held || sl.data != i.data then Skip
    else if sl.base != i.base || sl.disp != i.off || sl.Width() != i.kind.Width() then Skip
    else if i.data == 0 && !sl.kind.IsStore() then Skip
    else Rewrite(Nop)
  }

  /** The move between the register files that does what a store and a load
      through one slot do. */
  function BitcastForm(held: MemKind, k: MemKind, dst: Reg, src: Reg): Option<Insn> {
    match (held, k)
    case (FSD, LD) => Some(FmvXD(dst, src))
    case (FLD, LD) => Some(FmvXD(dst, src))
    case (FSW, LW) => Some(FmvXW(dst, src))
    case (FLW, LW) => Some(FmvXW(dst, src))
    case (SD, FLD) => Some(FmvDX(dst, src))
    case (LD, FLD) => Some(FmvDX(dst, src))
    case (SW, FLW) => Some(FmvWX(dst, src))
    case (LW, FLW) => Some(FmvWX(dst, src))
    case _ => None
  }

  function BitcastVerdict(i: Insn, sl: Slot): Verdict
    requires i.Load?
  {
    if !sl.held || sl.base != i.base || sl.disp != i.off then Skip
    else
      match BitcastForm(sl.kind, i.kind, i.rd, sl.data)
      case None => Skip
      case Some(r) => Rewrite(r)
  }

  // ---- why they are right ----

  /** Wherever the table is true, `r` does exactly what `i` does. */
  ghost predicate Licensed(t: Table, i: Insn, r: Insn) {
    forall len: nat, s :: TableTrue(t, s) && Mapped(s.mem) ==> Effect(r, len, s) == Effect(i, len, s)
  }

  /** The same for what one slot claims. */
  ghost predicate SlotLicenses(sl: Slot, i: Insn, r: Insn) {
    forall len: nat, s :: SlotTrue(sl, s) && Mapped(s.mem) ==> Effect(r, len, s) == Effect(i, len, s)
  }

  lemma DecideLicensed(t: Table, f: Slot -> Verdict, i: Insn)
    requires Decide(t.slots, f).Some?
    requires forall sl :: sl in t.slots && f(sl).Rewrite? ==> SlotLicenses(sl, i, f(sl).insn)
    ensures Licensed(t, i, Decide(t.slots, f).value)
  {
    hide Effect, SlotTrue;
    var k := DecideFound(t.slots, f);
    assert SlotLicenses(t.slots[k], i, f(t.slots[k]).insn);
  }

  lemma SameX(i: Insn, r: Insn, len: nat, s: State)
    requires i.Load? && !i.kind.IsFp() && !i.kind.IsStore() && !r.Then? && MemResult(r, s) == s.mem && FDest(r) == 32
    requires (XDest(r) == i.rd && XResult(r, len, s) == XResult(i, len, s))
             || (XDest(r) == 0 && X(s, i.rd) == XResult(i, len, s))
    ensures i.rd != 0 ==> Effect(r, len, s) == Effect(i, len, s)
  {
    hide XResult, FResult;
    assert s.x[i.rd := s.x[i.rd]] == s.x;
  }

  lemma MoveResult(rd: Reg, rs: Reg, len: nat, s: State)
    ensures XResult(Move(rd, rs), len, s) == X(s, rs)
  {
  }

  lemma ReloadRight(i: Insn, sl: Slot)
    requires i.Load? && !i.kind.IsFp() && !i.kind.IsStore() && i.rd != 0 && ReloadVerdict(i, sl).Rewrite?
    ensures SlotLicenses(sl, i, ReloadVerdict(i, sl).insn)
  {
    forall len: nat, s | SlotTrue(sl, s)
      ensures Effect(Move(i.rd, sl.data), len, s) == Effect(i, len, s)
    {
      hide Effect, LoadLE, Extend, Low;
      MoveResult(i.rd, sl.data, len, s);
      SameX(i, Move(i.rd, sl.data), len, s);
    }
  }

  lemma ForwardResult(st: MemKind, k: MemKind, zba: bool, zbb: bool, rd: Reg, rs: Reg, len: nat, s: State, bytes: nat)
    requires ForwardForm(st, k, zba, zbb, rd, rs).Some? && Low(X(s, rs), st.Width()) == bytes
    ensures st.IsStore() && !st.IsFp() && !k.IsStore() && !k.IsFp() && st.Width() == k.Width()
    ensures XResult(ForwardForm(st, k, zba, zbb, rd, rs).value, len, s) == Extend(k, bytes)
  {
    hide Low, AluVal, Sext;
    LowWidths(X(s, rs));
    ForwardValues(X(s, rs));
  }

  lemma ForwardValues(v: Word)
    ensures AluVal(Add, v, 0) == v
    ensures AluVal(Addw, v, 0) == Sext(v % W32, W32)
    ensures AluVal(ZextW, v, 0) == v % W32
    ensures AluVal(SextH, v, 0) == Sext(v % 0x1_0000, 0x1_0000)
    ensures AluVal(ZextH, v, 0) == v % 0x1_0000
    ensures AluVal(SextB, v, 0) == Sext(v % 0x100, 0x100)
    ensures AluVal(And, v, 255) == v % 0x100
  {
    hide BitWord, Pow2, Sext;
    Pow2Word();
    AndMask(8, v, 255);
    SextOfLow(v, W32);
    SextOfLow(v, 0x1_0000);
    SextOfLow(v, 0x100);
  }

  lemma ForwardRight(i: Insn, len: nat, zba: bool, zbb: bool, sl: Slot)
    requires i.Load? && i.rd != 0 && ForwardVerdict(i, len, zba, zbb, sl).Rewrite?
    ensures SlotLicenses(sl, i, ForwardVerdict(i, len, zba, zbb, sl).insn)
  {
    var r := ForwardVerdict(i, len, zba, zbb, sl).insn;
    forall n: nat, s | SlotTrue(sl, s)
      ensures Effect(r, n, s) == Effect(i, n, s)
    {
      hide Effect, LoadLE, Extend, Low, AluVal;
      ForwardResult(sl.kind, i.kind, zba, zbb, i.rd, sl.data, n, s, LoadAt(i.kind, s, i.base, i.off));
      SameX(i, r, n, s);
    }
  }

  lemma StillHeldValue(i: Insn, sl: Slot, len: nat, s: State)
    requires i.Load? && !i.kind.IsFp() && !i.kind.IsStore() && i.rd != 0 && StillHeldVerdict(i, sl).Rewrite?
    requires SlotTrue(sl, s)
    ensures X(s, i.rd) == XResult(i, len, s)
  {
    hide LoadLE, Low, Sext, Box;
    LowWidths(X(s, i.rd));
    LoadBound8(s.mem, Address(s, i.base, i.off));
  }

  lemma StillHeldRight(i: Insn, sl: Slot)
    requires i.Load? && !i.kind.IsFp() && !i.kind.IsStore() && i.rd != 0 && StillHeldVerdict(i, sl).Rewrite?
    ensures SlotLicenses(sl, i, Nop)
  {
    forall n: nat, s | SlotTrue(sl, s)
      ensures Effect(Nop, n, s) == Effect(i, n, s)
    {
      hide Effect, LoadLE, Low, XResult;
      StillHeldValue(i, sl, n, s);
      SameX(i, Nop, n, s);
    }
  }

  lemma SilentRight(i: Insn, sl: Slot)
    requires i.Store? && i.kind.IsStore() && !i.kind.IsFp() && SilentVerdict(i, sl).Rewrite?
    ensures SlotLicenses(sl, i, Nop)
  {
    forall n: nat, s | SlotTrue(sl, s) && Mapped(s.mem)
      ensures Effect(Nop, n, s) == Effect(i, n, s)
    {
      hide LoadLE, Low, StoreLE, Extend;
      var a := Address(s, i.base, i.off);
      if !sl.kind.IsStore() {
        BytesOfExtend(sl.kind, s.mem, a);
      }
      StoreOfSameBytes(s.mem, a, i.kind.Width(), X(s, i.data));
    }
  }

  /** A record of a load into x0, which put nothing anywhere. */
  predicate X0Load(sl: Slot) {
    sl.data == 0 && !sl.kind.IsStore() && !sl.kind.IsFp()
  }

  lemma BitcastResults(i: Insn, sl: Slot, len: nat, s: State)
    requires i.Load? && PlainInsn(i) && BitcastVerdict(i, sl).Rewrite? && SlotTrue(sl, s) && !X0Load(sl)
    ensures XResult(BitcastVerdict(i, sl).insn, len, s) == XResult(i, len, s) || i.kind.IsFp()
    ensures FResult(BitcastVerdict(i, sl).insn, s) == FResult(i, s) || !i.kind.IsFp()
    ensures XDest(BitcastVerdict(i, sl).insn) == XDest(i) && FDest(BitcastVerdict(i, sl).insn) == FDest(i)
  {
    hide Low, LoadLE, Sext, Box;
    var a := Address(s, i.base, i.off);
    var v := StoredReg(sl.kind, s, sl.data);
    var bytes := LoadLE(s.mem, a, sl.Width());
    LowWidths(v);
    LoadBound8(s.mem, a);
    SextOfLow(v, W32);
    BoxOfLow(bytes);
    BoxOfLow(v);
  }

  /** The all-ones memory under zero registers: what a load into x0 hid. */
  ghost function OnesState(): State {
    State(0, seq(32, i => 0), seq(32, i => 0), map a: Word | Gap(a, a) == 0 :: 1)
  }

  lemma X0LoadMisleads(i: Insn, sl: Slot)
    requires i.Load? && PlainInsn(i) && BitcastVerdict(i, sl).Rewrite? && X0Load(sl)
    ensures !SlotLicenses(sl, i, BitcastVerdict(i, sl).insn)
  {
    var s, r := OnesState(), BitcastVerdict(i, sl).insn;
    var a := Address(s, i.base, i.off);
    LoadBound4(s.mem, a);
    LoadBound8(s.mem, a);
    assert LoadLE(s.mem, a, i.kind.Width()) >= 1;
    assert FResult(r, s) != FResult(i, s) by {
      hide LoadLE;
    }
    assert SlotTrue(sl, s) && Mapped(s.mem);
    assert Effect(r, 4, s).f[i.rd] == FResult(r, s) && Effect(i, 4, s).f[i.rd] == FResult(i, s);
  }

  /** The bit-cast is right wherever the record is true unless that record is of a
      load into x0. */
  lemma BitcastRight(i: Insn, sl: Slot)
    requires i.Load? && PlainInsn(i) && BitcastVerdict(i, sl).Rewrite?
    ensures SlotLicenses(sl, i, BitcastVerdict(i, sl).insn) <==> !X0Load(sl)
  {
    var r := BitcastVerdict(i, sl).insn;
    if X0Load(sl) {
      X0LoadMisleads(i, sl);
    } else {
      forall n: nat, s | SlotTrue(sl, s)
        ensures Effect(r, n, s) == Effect(i, n, s)
      {
        hide LoadLE, SlotTrue, XResult, FResult;
        BitcastResults(i, sl, n, s);
      }
    }
  }

  // ---- constants and computations ----

  /** The lowest register from `r` on that `f` accepts. */
  function FirstReg(f: Reg -> bool, r: nat): (found: Option<Reg>)
    requires r <= 32
    ensures found.Some? ==> r <= found.value && f(found.value) && forall q: Reg :: r <= q < found.value ==> !f(q)
    ensures found.None? ==> forall q: Reg :: r <= q ==> !f(q)
    decreases 32 - r
  {
    if r == 32 then None else if f(r) then Some(r) else FirstReg(f, r + 1)
  }

  function ConstRemat(t: Table, i: Insn, len: nat): Option<Insn> {
    match DecodeConst(i)
    case None => None
    case Some((rd, k)) =>
      if len != 4 || -32 <= k <= 31 || rd == 2 || rd == 3 || rd == 4 then None
      else
        match FirstReg((r: Reg) => r != rd && r in t.consts && t.consts[r] == k, 1)
        case None => None
        case Some(r) => Some(Move(rd, r))
  }

  function CompRemat(t: Table, i: Insn, len: nat): Option<Insn> {
    match CompKey(i)
    case None => None
    case Some(key) =>
      var rd := XDest(i);
      if rd == 2 || rd == 3 || rd == 4 then None
      else if rd in t.comps && t.comps[rd] == key then Some(Nop)
      else if len != 4 then None
      else
        match FirstReg((r: Reg) => r != rd && r in t.comps && t.comps[r] == key, 1)
        case None => None
        case Some(r) => Some(Move(rd, r))
  }

  lemma MoveEffect(rd: Reg, rs: Reg, i: Insn, len: nat, s: State)
    requires rd != 0 && XDest(i) == rd && FDest(i) == 32 && MemResult(i, s) == s.mem && !i.Then?
    requires X(s, rs) == XResult(i, len, s)
    ensures Effect(Move(rd, rs), len, s) == Effect(i, len, s)
  {
    hide XResult, FResult;
    MoveResult(rd, rs, len, s);
  }

  lemma ConstRematRight(t: Table, i: Insn, len: nat)
    requires ConstRemat(t, i, len).Some?
    ensures Licensed(t, i, ConstRemat(t, i, len).value)
  {
    var r := ConstRemat(t, i, len).value;
    forall n: nat, s | TableTrue(t, s)
      ensures Effect(r, n, s) == Effect(i, n, s)
    {
      hide SlotsTrue, CompTrue, Effect, Wrap;
      ConstValue(i, n, s);
      MoveEffect(XDest(i), r.rs1, i, n, s);
    }
  }

  lemma ConstValue(i: Insn, len: nat, s: State)
    requires DecodeConst(i).Some?
    ensures XResult(i, len, s) == Wrap(DecodeConst(i).value.1) && XDest(i) == DecodeConst(i).value.0
    ensures FDest(i) == 32 && MemResult(i, s) == s.mem && !i.Then?
  {
  }

  lemma CompRematRight(t: Table, i: Insn, len: nat)
    requires CompRemat(t, i, len).Some?
    ensures Licensed(t, i, CompRemat(t, i, len).value)
  {
    var r := CompRemat(t, i, len).value;
    forall n: nat, s | TableTrue(t, s)
      ensures Effect(r, n, s) == Effect(i, n, s)
    {
      hide SlotsTrue, Effect, AluVal;
      if r == Nop {
        DeleteEffect(i, n, s);
      } else {
        MoveEffect(XDest(i), r.rs1, i, n, s);
      }
    }
  }

  lemma DeleteEffect(i: Insn, len: nat, s: State)
    requires XDest(i) != 0 && FDest(i) == 32 && MemResult(i, s) == s.mem && !i.Then?
    requires X(s, XDest(i)) == XResult(i, len, s)
    ensures Effect(Nop, len, s) == Effect(i, len, s)
  {
    hide XResult, FResult;
    assert s.x[XDest(i) := s.x[XDest(i)]] == s.x;
  }

  // ---- the checks ----

  predicate IntLoad(i: Insn) {
    i.Load? && !i.kind.IsStore() && !i.kind.IsFp() && i.rd != 0
  }

  function RedundantReload(t: Table, i: Insn): Option<Insn> {
    if IntLoad(i) then Decide(t.slots, sl => ReloadVerdict(i, sl)) else None
  }

  /** Stands down where a load of the same kind is held: that is the reload. */
  function StoreToLoad(t: Table, i: Insn, len: nat, zba: bool, zbb: bool): Option<Insn> {
    if !IntLoad(i) || (exists sl :: sl in t.slots && sl.held && sl.Names(i.base, i.off, i.kind)) then None
    else Decide(t.slots, sl => ForwardVerdict(i, len, zba, zbb, sl))
  }

  function RedundantLoad(t: Table, i: Insn): Option<Insn> {
    if IntLoad(i) then Decide(t.slots, sl => StillHeldVerdict(i, sl)) else None
  }

  /** An unread store to the bytes `i` stores to. */
  predicate Overwrites(i: Insn, sl: Slot) {
    i.Store? && sl.unread && sl.base == i.base && sl.disp == i.off && sl.Width() == i.kind.Width()
  }

  /** Stands down where the dead-store check fires on the same instruction. */
  function SilentStore(t: Table, i: Insn, entry: bool): Option<Insn> {
    if !i.Store? || !i.kind.IsStore() || i.kind.IsFp() || (i.base != 2 && i.base != 8) then None
    else if !entry && (exists sl :: sl in t.slots && Overwrites(i, sl)) then None
    else Decide(t.slots, sl => SilentVerdict(i, sl))
  }

  function BitcastThroughFrame(t: Table, i: Insn, len: nat): Option<Insn> {
    if len == 4 && i.Load? && !i.kind.IsStore() then Decide(t.slots, sl => BitcastVerdict(i, sl)) else None
  }

  lemma ReloadLicensed(t: Table, i: Insn)
    requires RedundantReload(t, i).Some?
    ensures Licensed(t, i, RedundantReload(t, i).value)
  {
    hide Licensed, SlotLicenses;
    forall sl | sl in t.slots && ReloadVerdict(i, sl).Rewrite?
      ensures SlotLicenses(sl, i, ReloadVerdict(i, sl).insn)
    {
      ReloadRight(i, sl);
    }
    DecideLicensed(t, sl => ReloadVerdict(i, sl), i);
  }

  lemma ForwardLicensed(t: Table, i: Insn, len: nat, zba: bool, zbb: bool)
    requires StoreToLoad(t, i, len, zba, zbb).Some?
    ensures Licensed(t, i, StoreToLoad(t, i, len, zba, zbb).value)
  {
    hide Licensed, SlotLicenses, ForwardForm;
    forall sl | sl in t.slots && ForwardVerdict(i, len, zba, zbb, sl).Rewrite?
      ensures SlotLicenses(sl, i, ForwardVerdict(i, len, zba, zbb, sl).insn)
    {
      ForwardRight(i, len, zba, zbb, sl);
    }
    DecideLicensed(t, sl => ForwardVerdict(i, len, zba, zbb, sl), i);
  }

  lemma StillHeldLicensed(t: Table, i: Insn)
    requires RedundantLoad(t, i).Some?
    ensures Licensed(t, i, RedundantLoad(t, i).value)
  {
    hide Licensed, SlotLicenses;
    forall sl | sl in t.slots && StillHeldVerdict(i, sl).Rewrite?
      ensures SlotLicenses(sl, i, StillHeldVerdict(i, sl).insn)
    {
      StillHeldRight(i, sl);
    }
    DecideLicensed(t, sl => StillHeldVerdict(i, sl), i);
  }

  lemma SilentLicensed(t: Table, i: Insn, entry: bool)
    requires SilentStore(t, i, entry).Some?
    ensures Licensed(t, i, SilentStore(t, i, entry).value)
  {
    hide Licensed, SlotLicenses;
    forall sl | sl in t.slots && SilentVerdict(i, sl).Rewrite?
      ensures SlotLicenses(sl, i, SilentVerdict(i, sl).insn)
    {
      SilentRight(i, sl);
    }
    DecideLicensed(t, sl => SilentVerdict(i, sl), i);
  }

  /** No record a bit cast would be read off is of a load into x0. */
  predicate SoundCasts(t: Table, i: Insn) {
    i.Load? ==> forall sl :: sl in t.slots && BitcastVerdict(i, sl).Rewrite? ==> !X0Load(sl)
  }

  lemma BitcastLicensed(t: Table, i: Insn, len: nat)
    requires PlainInsn(i) && BitcastThroughFrame(t, i, len).Some? && SoundCasts(t, i)
    ensures Licensed(t, i, BitcastThroughFrame(t, i, len).value)
  {
    hide Licensed, SlotLicenses, BitcastForm;
    forall sl | sl in t.slots && BitcastVerdict(i, sl).Rewrite?
      ensures SlotLicenses(sl, i, BitcastVerdict(i, sl).insn)
    {
      BitcastRight(i, sl);
    }
    DecideLicensed(t, sl => BitcastVerdict(i, sl), i);
  }

  datatype Extensions = Extensions(zba: bool, zbb: bool)

  datatype Check = Reload | Forward | SameLoad | Silent | ConstAgain | CompAgain | Bitcast

  /** What check `c` rewrites the instruction to, if anything. */
  function Rewriting(c: Check, t: Table, i: Insn, len: nat, entry: bool, ext: Extensions): Option<Insn> {
    match c
    case Reload => RedundantReload(t, i)
    case Forward => StoreToLoad(t, i, len, ext.zba, ext.zbb)
    case SameLoad => RedundantLoad(t, i)
    case Silent => SilentStore(t, i, entry)
    case ConstAgain => ConstRemat(t, i, len)
    case CompAgain => CompRemat(t, i, len)
    case Bitcast => BitcastThroughFrame(t, i, len)
  }

  /** Every rewrite the table licenses leaves the state the instruction it
      replaces would have left, wherever the table is true. */
  lemma RewritingRight(c: Check, t: Table, i: Insn, len: nat, entry: bool, ext: Extensions)
    requires PlainInsn(i) && Rewriting(c, t, i, len, entry, ext).Some?
    requires c == Bitcast ==> SoundCasts(t, i)
    ensures Licensed(t, i, Rewriting(c, t, i, len, entry, ext).value)
  {
    hide Licensed, RedundantReload, StoreToLoad, RedundantLoad, SilentStore, ConstRemat, CompRemat, BitcastThroughFrame;
    match c {
      case Reload => ReloadLicensed(t, i);
      case Forward => ForwardLicensed(t, i, len, ext.zba, ext.zbb);
      case SameLoad => StillHeldLicensed(t, i);
      case Silent => SilentLicensed(t, i, entry);
      case ConstAgain => ConstRematRight(t, i, len);
      case CompAgain => CompRematRight(t, i, len);
      case Bitcast => BitcastLicensed(t, i, len);
    }
  }

  /** Neither the instruction nor what replaces it moves control. */
  lemma RewritingStraight(c: Check, t: Table, i: Insn, len: nat, entry: bool, ext: Extensions)
    requires Rewriting(c, t, i, len, entry, ext).Some?
    ensures !IsTransfer(i) && !i.Then?
    ensures var r := Rewriting(c, t, i, len, entry, ext).value; !IsTransfer(r) && !r.Then?
  {
    hide Decide, CompNames;
    match c {
      case ConstAgain =>
      case CompAgain =>
      case _ =>
        DecideStraight(c, t, i, len, ext);
    }
  }

  /** One instruction, moving no control. */
  predicate IsPlain(i: Insn) {
    IsStraight(i) && !i.Then?
  }

  lemma DecideStraight(c: Check, t: Table, i: Insn, len: nat, ext: Extensions)
    requires i.Load? || i.Store?
    ensures i.Load? && Decide(t.slots, sl => ReloadVerdict(i, sl)).Some? ==>
              IsPlain(Decide(t.slots, sl => ReloadVerdict(i, sl)).value)
    ensures i.Load? && Decide(t.slots, sl => ForwardVerdict(i, len, ext.zba, ext.zbb, sl)).Some? ==>
              IsPlain(Decide(t.slots, sl => ForwardVerdict(i, len, ext.zba, ext.zbb, sl)).value)
    ensures i.Load? && Decide(t.slots, sl => StillHeldVerdict(i, sl)).Some? ==>
              IsPlain(Decide(t.slots, sl => StillHeldVerdict(i, sl)).value)
    ensures i.Store? && Decide(t.slots, sl => SilentVerdict(i, sl)).Some? ==>
              IsPlain(Decide(t.slots, sl => SilentVerdict(i, sl)).value)
    ensures i.Load? && Decide(t.slots, sl => BitcastVerdict(i, sl)).Some? ==>
              IsPlain(Decide(t.slots, sl => BitcastVerdict(i, sl)).value)
  {
    hide Decide;
    if i.Load? {
      if Decide(t.slots, sl => ReloadVerdict(i, sl)).Some? {
        var k := DecideFound(t.slots, sl => ReloadVerdict(i, sl));
      }
      if Decide(t.slots, sl => ForwardVerdict(i, len, ext.zba, ext.zbb, sl)).Some? {
        var k := DecideFound(t.slots, sl => ForwardVerdict(i, len, ext.zba, ext.zbb, sl));
      }
      if Decide(t.slots, sl => StillHeldVerdict(i, sl)).Some? {
        var k := DecideFound(t.slots, sl => StillHeldVerdict(i, sl));
      }
      if Decide(t.slots, sl => BitcastVerdict(i, sl)).Some? {
        var k := DecideFound(t.slots, sl => BitcastVerdict(i, sl));
      }
    } else if Decide(t.slots, sl => SilentVerdict(i, sl)).Some? {
      var k := DecideFound(t.slots, sl => SilentVerdict(i, sl));
    }
  }

}
