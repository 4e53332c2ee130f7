/** Exactly when the checks on the windowed table report, in terms of the code before: the
    access, constant or computation that still stands. */
module WindowFindings {
  import opened Words
  import opened Wrappers
  import opened Machine
  import opened Window
  import opened Sweep
  import opened WindowChecks
  import opened WindowExact
  import opened DeadStore

  /** The line to `a` has room for a record of all its places. */
  predicate Roomy(p: Program, a: Word) {
    |Places(p, a)| <= 24
  }

  // ---- from slots to accesses ----

  /** The slot is as the access at its address recorded it. */
  predicate From(p: Program, sl: Slot) {
    sl.addr in p.code && Matches(sl, p.code[sl.addr].insn) && PlainInsn(p.code[sl.addr].insn)
  }

  /** A record held is of an access that stands, and every one that does has its own. */
  lemma HeldSlots(p: Program, a: Word)
    requires WellFormed(p) && Roomy(p, a)
    ensures var s := WindowAt(p, a).slots;
            && Unique(s)
            && (forall k :: 0 <= k < |s| && s[k].held ==> Stands(p, s[k].addr, a) && From(p, s[k]))
            && (forall q :: Stands(p, q, a) ==> HasHeld(s, p, q))
  {
    hide WellFormed, WindowAt, Places, Recording, Spares, Matches, HasHeld, HasUnread, Waits, Room, PlainInsn;
    SlotsExact(p, a);
    forall q | Stands(p, q, a) ensures HasHeld(WindowAt(p, a).slots, p, q) { RoomAlong(p, q, a); }
    forall q | q in p.code ensures PlainInsn(p.code[q].insn) { Placed(p, q); }
  }

  lemma UnreadSlots(p: Program, a: Word)
    requires WellFormed(p) && Roomy(p, a)
    ensures var s := WindowAt(p, a).slots;
            && (forall k :: 0 <= k < |s| && s[k].unread ==> Waits(p, s[k].addr, a) && From(p, s[k]))
            && (forall q :: Waits(p, q, a) ==> HasUnread(s, p, q))
  {
    hide WellFormed, WindowAt, Places, Recording, Passes, Matches, HasHeld, HasUnread, Stands, Room, PlainInsn;
    SlotsExact(p, a);
    forall q | Waits(p, q, a) ensures HasUnread(WindowAt(p, a).slots, p, q) { RoomAlong(p, q, a); }
    forall q | q in p.code ensures PlainInsn(p.code[q].insn) { Placed(p, q); }
  }

  /** Where only one slot decides, it does. */
  lemma {:induction false} OneDecides(s: seq<Slot>, f: Slot -> Verdict, k: nat)
    requires k < |s| && forall j :: 0 <= j < |s| && j != k ==> f(s[j]).Skip?
    ensures Decide(s, f) == match f(s[k]) case Rewrite(i) => Some(i) case _ => None
  {
    if k > 0 {
      OneDecides(s[1..], f, k - 1);
    } else {
      NoneDecides(s[1..], f);
    }
  }

  lemma {:induction false} NoneDecides(s: seq<Slot>, f: Slot -> Verdict)
    requires forall j :: 0 <= j < |s| ==> f(s[j]).Skip?
    ensures Decide(s, f) == None
  {
    if s != [] { NoneDecides(s[1..], f); }
  }

  /** Where none refuses, any that rewrites does. */
  lemma {:induction false} AnyDecides(s: seq<Slot>, f: Slot -> Verdict)
    requires forall j :: 0 <= j < |s| ==> !f(s[j]).Refuse?
    ensures Decide(s, f).Some? <==> exists j :: 0 <= j < |s| && f(s[j]).Rewrite?
  {
    if s != [] {
      if f(s[0]).Skip? { AnyDecides(s[1..], f); }
    }
  }

  // ---- reloads ----

  /** A load of an integer register from memory. */
  predicate Loads(i: Insn) {
    i.Load? && !i.kind.IsFp() && i.rd != 0
  }

  ghost predicate ReloadOf(p: Program, a: Word, q: Word, ins: Insn)
    requires a in p.code && Loads(p.code[a].insn)
  {
    var i := p.code[a].insn;
    && Stands(p, q, a)
    && var j := p.code[q].insn;
       j.Load? && SamePlace(i, j) && j.rd != 0 && j.rd != i.rd && ins == Move(i.rd, j.rd)
  }

  /** A load is reported as a move exactly where an earlier load of the same place into
      another register stands. */
  lemma ReloadsExactly(p: Program, a: Word, ins: Insn)
    requires WellFormed(p) && Roomy(p, a) && a in p.code
    ensures RedundantReload(WindowAt(p, a), p.code[a].insn) == Some(ins) <==>
            Loads(p.code[a].insn) && exists q :: ReloadOf(p, a, q, ins)
  {
    hide WellFormed, WindowAt, Places, Recording, Spares, Line, Decide;
    Placed(p, a);
    HeldSlots(p, a);
    var i, s := p.code[a].insn, WindowAt(p, a).slots;
    if Loads(i) {
      if k: nat :| k < |s| && s[k].held && s[k].Names(i.base, i.off, i.kind) {
        OneDecides(s, sl => ReloadVerdict(i, sl), k);
        var q := s[k].addr;
        assert ReloadVerdict(i, s[k]) == Rewrite(ins) ==> ReloadOf(p, a, q, ins);
      } else {
        NoneDecides(s, sl => ReloadVerdict(i, sl));
      }
      forall q | ReloadOf(p, a, q, ins) ensures RedundantReload(WindowAt(p, a), i) == Some(ins) {
        assert HasHeld(s, p, q);
      }
    }
  }

  // ---- loads of what was stored ----

  ghost predicate ForwardOf(p: Program, a: Word, ext: Extensions, q: Word, ins: Insn)
    requires a in p.code && Loads(p.code[a].insn)
  {
    var i := p.code[a].insn;
    && Stands(p, q, a)
    && var j := p.code[q].insn;
       && j.Store? && j.base == i.base && j.off == i.off && j.data != 0 && j.data != i.rd
       && ForwardForm(j.kind, i.kind, ext.zba, ext.zbb, i.rd, j.data) == Some(ins)
       && (p.code[a].len == 2 ==> ins == Move(i.rd, j.data))
  }

  /** A load of the same place stands, which is the reload to make. */
  ghost predicate LoadedBefore(p: Program, a: Word)
    requires a in p.code && Loads(p.code[a].insn)
  {
    exists q :: LoadStands(p, a, q)
  }

  ghost predicate LoadStands(p: Program, a: Word, q: Word)
    requires a in p.code && Loads(p.code[a].insn)
  {
    Stands(p, q, a) && p.code[q].insn.Load? && SamePlace(p.code[a].insn, p.code[q].insn)
  }

  /** What stands is spared by all that comes later. */
  lemma LaterSpared(p: Program, a: Word, q: Word, r: Word)
    requires Stands(p, q, a) && r in p.code && r < a
    ensures q < r ==> Spares(p.code[r].insn, p.code[q].insn)
  {
    hide Spares, Line, Recording;
  }

  /** Only one store to a place stands. */
  lemma OneStore(p: Program, a: Word, q: Word, r: Word)
    requires WellFormed(p) && Stands(p, q, a) && Stands(p, r, a) && p.code[q].insn.Store? && p.code[r].insn.Store?
    requires p.code[q].insn.base == p.code[r].insn.base && p.code[q].insn.off == p.code[r].insn.off
    ensures q == r
  {
    hide WellFormed, Writes, FWrites;
    LineUp(p, q, a);
    LineUp(p, r, a);
    LaterSpared(p, a, q, r);
    LaterSpared(p, a, r, q);
  }

  lemma OneStoreSlot(p: Program, a: Word, j: nat, k: nat)
    requires WellFormed(p) && Roomy(p, a)
    requires var s := WindowAt(p, a).slots;
             && j < |s| && k < |s| && s[j].held && s[k].held && s[j].kind.IsStore() && s[k].kind.IsStore()
             && s[j].base == s[k].base && s[j].disp == s[k].disp
    ensures j == k
  {
    hide WellFormed, WindowAt, Places, Stands;
    HeldSlots(p, a);
    var s := WindowAt(p, a).slots;
    OneStore(p, a, s[j].addr, s[k].addr);
  }

  predicate StoreThere(i: Insn, sl: Slot)
    requires i.Load?
  {
    sl.held && sl.kind.IsStore() && sl.base == i.base && sl.disp == i.off
  }

  /** The slot of the store there decides. */
  lemma StoreDecides(p: Program, a: Word, ext: Extensions, k: nat)
    requires WellFormed(p) && Roomy(p, a) && a in p.code && p.code[a].insn.Load?
    requires k < |WindowAt(p, a).slots| && StoreThere(p.code[a].insn, WindowAt(p, a).slots[k])
    ensures var i, s, len := p.code[a].insn, WindowAt(p, a).slots, p.code[a].len;
            Decide(s, sl => ForwardVerdict(i, len, ext.zba, ext.zbb, sl)) ==
            match ForwardVerdict(i, len, ext.zba, ext.zbb, s[k]) case Rewrite(ins) => Some(ins) case _ => None
  {
    hide WellFormed, WindowAt, Places, Decide, ForwardForm;
    var i, s, len := p.code[a].insn, WindowAt(p, a).slots, p.code[a].len;
    forall j: nat | j < |s| && j != k ensures ForwardVerdict(i, len, ext.zba, ext.zbb, s[j]).Skip? {
      if StoreThere(i, s[j]) { OneStoreSlot(p, a, j, k); }
    }
    OneDecides(s, sl => ForwardVerdict(i, len, ext.zba, ext.zbb, sl), k);
  }

  lemma ForwardSlot(p: Program, a: Word, ext: Extensions, ins: Insn, k: nat)
    requires WellFormed(p) && Roomy(p, a) && a in p.code && Loads(p.code[a].insn)
    requires k < |WindowAt(p, a).slots| && StoreThere(p.code[a].insn, WindowAt(p, a).slots[k])
    ensures var i, sl := p.code[a].insn, WindowAt(p, a).slots[k];
            ForwardVerdict(i, p.code[a].len, ext.zba, ext.zbb, sl) == Rewrite(ins) <==>
              ForwardOf(p, a, ext, sl.addr, ins)
  {
    hide WellFormed, WindowAt, Places, ForwardForm, Stands, HasHeld;
    HeldSlots(p, a);
  }

  lemma ForwardHasSlot(p: Program, a: Word, ext: Extensions, q: Word, ins: Insn) returns (k: nat)
    requires WellFormed(p) && Roomy(p, a) && a in p.code && Loads(p.code[a].insn) && ForwardOf(p, a, ext, q, ins)
    ensures var s := WindowAt(p, a).slots; k < |s| && StoreThere(p.code[a].insn, s[k]) && s[k].addr == q
  {
    hide WellFormed, WindowAt, Places, ForwardForm, Stands;
    HeldSlots(p, a);
    var s := WindowAt(p, a).slots;
    assert HasHeld(s, p, q) by { assert Stands(p, q, a); }
    k :| k < |s| && s[k].held && s[k].addr == q && Matches(s[k], p.code[q].insn);
    Placed(p, q);
  }

  /** A load is reported as an extension of what was stored exactly where no load of the
      same place stands, and a store there does that has such a form. */
  lemma ForwardsExactly(p: Program, a: Word, ext: Extensions, ins: Insn)
    requires WellFormed(p) && Roomy(p, a) && a in p.code
    ensures StoreToLoad(WindowAt(p, a), p.code[a].insn, p.code[a].len, ext.zba, ext.zbb) == Some(ins) <==>
            Loads(p.code[a].insn) && !LoadedBefore(p, a) && exists q :: ForwardOf(p, a, ext, q, ins)
  {
    hide WellFormed, WindowAt, Roomy, LoadedBefore, ForwardOf, Decide;
    Placed(p, a);
    var i, s, len := p.code[a].insn, WindowAt(p, a).slots, p.code[a].len;
    if Loads(i) {
      LoadedIs(p, a);
      if q :| ForwardOf(p, a, ext, q, ins) {
        var k := ForwardHasSlot(p, a, ext, q, ins);
        StoreDecides(p, a, ext, k);
        ForwardSlot(p, a, ext, ins, k);
      } else if k: nat :| k < |s| && StoreThere(i, s[k]) {
        StoreDecides(p, a, ext, k);
        ForwardSlot(p, a, ext, ins, k);
      } else {
        NoneDecides(s, sl => ForwardVerdict(i, len, ext.zba, ext.zbb, sl));
      }
    }
  }

  lemma LoadedIs(p: Program, a: Word)
    requires WellFormed(p) && Roomy(p, a) && a in p.code && Loads(p.code[a].insn)
    ensures var i := p.code[a].insn;
            LoadedBefore(p, a) <==>
            exists sl :: sl in WindowAt(p, a).slots && sl.held && sl.Names(i.base, i.off, i.kind)
  {
    hide WellFormed, WindowAt, Places, Stands;
    Placed(p, a);
    HeldSlots(p, a);
    var i, s := p.code[a].insn, WindowAt(p, a).slots;
    if q :| LoadStands(p, a, q) {
      assert HasHeld(s, p, q);
      var k :| 0 <= k < |s| && s[k].held && s[k].addr == q && Matches(s[k], p.code[q].insn);
      assert s[k] in s;
    }
    if sl :| sl in s && sl.held && sl.Names(i.base, i.off, i.kind) {
      var k :| 0 <= k < |s| && s[k] == sl;
      assert LoadStands(p, a, s[k].addr);
    }
  }

  /** The forms there are: of the width stored, the extension at hand. */
  lemma FormsExactly(st: MemKind, k: MemKind, ext: Extensions, rd: Reg, rs: Reg)
    ensures ForwardForm(st, k, ext.zba, ext.zbb, rd, rs).Some? <==>
            && st.IsStore() && !st.IsFp() && !k.IsStore() && !k.IsFp() && st.Width() == k.Width()
            && (k == LWU ==> ext.zba) && (k == LH || k == LHU || k == LB ==> ext.zbb)
  {
  }

  // ---- loads and stores that do nothing ----

  ghost predicate SameLoadOf(p: Program, a: Word, q: Word)
    requires a in p.code && Loads(p.code[a].insn)
  {
    var i := p.code[a].insn;
    && Stands(p, q, a)
    && var j := p.code[q].insn;
       && j.base == i.base && j.off == i.off && DataOf(j) == i.rd
          && (j.kind == i.kind || (j.kind == SD && i.kind == LD))
  }

  /** A load is reported as doing nothing exactly where an access of the place stands whose
      register is its own. */
  lemma SameLoadsExactly(p: Program, a: Word)
    requires WellFormed(p) && Roomy(p, a) && a in p.code
    ensures RedundantLoad(WindowAt(p, a), p.code[a].insn).Some? <==>
            Loads(p.code[a].insn) && exists q :: SameLoadOf(p, a, q)
  {
    hide WellFormed, WindowAt, Places, Stands, Decide;
    Placed(p, a);
    HeldSlots(p, a);
    var i, s := p.code[a].insn, WindowAt(p, a).slots;
    if Loads(i) {
      AnyDecides(s, sl => StillHeldVerdict(i, sl));
      if q :| SameLoadOf(p, a, q) {
        assert HasHeld(s, p, q);
        var k :| 0 <= k < |s| && s[k].held && s[k].addr == q && Matches(s[k], p.code[q].insn);
        assert StillHeldVerdict(i, s[k]).Rewrite?;
      }
      if k: nat :| k < |s| && StillHeldVerdict(i, s[k]).Rewrite? {
        assert SameLoadOf(p, a, s[k].addr);
      }
    }
  }

  ghost predicate SilentOf(p: Program, a: Word, q: Word)
    requires a in p.code && p.code[a].insn.Store?
  {
    var i := p.code[a].insn;
    && Stands(p, q, a)
    && var j := p.code[q].insn;
       && !j.kind.IsFp() && DataOf(j) == i.data && j.base == i.base && j.off == i.off
       && j.kind.Width() == i.kind.Width() && !(i.data == 0 && j.Load?)
  }

  ghost predicate DeadOf(p: Program, a: Word, q: Word)
    requires a in p.code && p.code[a].insn.Store?
  {
    var i := p.code[a].insn;
    && Waits(p, q, a)
    && var j := p.code[q].insn; j.base == i.base && j.off == i.off && j.kind.Width() == i.kind.Width()
  }

  predicate StoresToFrame(i: Insn) {
    i.Store? && (i.base == 2 || i.base == 8)
  }

  lemma SlotDead(p: Program, a: Word, k: nat)
    requires WellFormed(p) && Roomy(p, a) && a in p.code && p.code[a].insn.Store?
    requires k < |WindowAt(p, a).slots| && Overwrites(p.code[a].insn, WindowAt(p, a).slots[k])
    ensures DeadOf(p, a, WindowAt(p, a).slots[k].addr)
  {
    hide WellFormed, WindowAt, Places, Waits;
    UnreadSlots(p, a);
    assert From(p, WindowAt(p, a).slots[k]);
  }

  lemma OverwritesIs(p: Program, a: Word)
    requires WellFormed(p) && Roomy(p, a) && a in p.code && p.code[a].insn.Store?
    ensures (exists sl :: sl in WindowAt(p, a).slots && Overwrites(p.code[a].insn, sl)) <==> exists q :: DeadOf(p, a, q)
  {
    hide WellFormed, WindowAt, Places, Waits;
    UnreadSlots(p, a);
    var i, s := p.code[a].insn, WindowAt(p, a).slots;
    if q :| DeadOf(p, a, q) {
      assert HasUnread(s, p, q);
      var k :| 0 <= k < |s| && s[k].unread && s[k].addr == q && Matches(s[k], p.code[q].insn);
      assert s[k] in s && Overwrites(i, s[k]);
    }
    if sl :| sl in s && Overwrites(i, sl) {
      var k :| 0 <= k < |s| && s[k] == sl;
      SlotDead(p, a, k);
    }
  }

  lemma SilentSlots(p: Program, a: Word)
    requires WellFormed(p) && Roomy(p, a) && a in p.code && p.code[a].insn.Store?
    ensures var i, s := p.code[a].insn, WindowAt(p, a).slots;
            (exists k :: 0 <= k < |s| && SilentVerdict(i, s[k]).Rewrite?) <==> exists q :: SilentOf(p, a, q)
  {
    hide WellFormed, WindowAt, Places, Stands;
    HeldSlots(p, a);
    var i, s := p.code[a].insn, WindowAt(p, a).slots;
    if q :| SilentOf(p, a, q) {
      assert HasHeld(s, p, q);
      var k :| 0 <= k < |s| && s[k].held && s[k].addr == q && Matches(s[k], p.code[q].insn);
      Placed(p, q);
      assert SilentVerdict(i, s[k]).Rewrite?;
    }
    if k: nat :| k < |s| && SilentVerdict(i, s[k]).Rewrite? {
      assert SilentOf(p, a, s[k].addr);
    }
  }

  /** A store to the frame is reported as doing nothing exactly where an access of those
      bytes stands whose register it stores, and no store of them is dead before it. */
  lemma SilentExactly(p: Program, a: Word)
    requires WellFormed(p) && Roomy(p, a) && a in p.code
    ensures SilentStore(WindowAt(p, a), p.code[a].insn, IsTarget(p, a)).Some? <==>
            && StoresToFrame(p.code[a].insn) && !p.code[a].insn.kind.IsFp()
            && (IsTarget(p, a) || !exists q :: DeadOf(p, a, q)) && exists q :: SilentOf(p, a, q)
  {
    hide WellFormed, WindowAt, Roomy, SilentOf, DeadOf, Decide, IsTarget, Overwrites;
    Placed(p, a);
    var i, s := p.code[a].insn, WindowAt(p, a).slots;
    if StoresToFrame(i) {
      OverwritesIs(p, a);
      SilentSlots(p, a);
      AnyDecides(s, sl => SilentVerdict(i, sl));
    }
  }

  lemma LaterPassed(p: Program, a: Word, q: Word, r: Word)
    requires Waits(p, q, a) && r in p.code && r < a
    ensures q < r ==> WindowExact.Passes(p.code[r].insn, p.code[q].insn)
  {
    hide WindowExact.Passes, Line;
  }

  /** Only one store of the bytes waits. */
  lemma OneDead(p: Program, a: Word, q: Word, r: Word)
    requires WellFormed(p) && a in p.code && p.code[a].insn.Store? && DeadOf(p, a, q) && DeadOf(p, a, r)
    ensures q == r
  {
    hide WellFormed, Writes;
    LineUp(p, q, a);
    LineUp(p, r, a);
    LaterPassed(p, a, q, r);
    LaterPassed(p, a, r, q);
  }

  /** A store is reported dead at the next exactly where it waits to be read there, stores
      those bytes, and nothing else comes in. */
  lemma DeadExactly(p: Program, a: Word, q: Word)
    requires WellFormed(p) && Roomy(p, a) && a in p.code
    ensures DeadStore.DeadStore(WindowAt(p, a), p.code[a].insn, IsTarget(p, a)) == Some(q) <==>
            StoresToFrame(p.code[a].insn) && !IsTarget(p, a) && DeadOf(p, a, q)
  {
    hide WellFormed, WindowAt, Places, Waits, IsTarget, FirstOverwritten;
    Placed(p, a);
    UnreadSlots(p, a);
    var i, s := p.code[a].insn, WindowAt(p, a).slots;
    if StoresToFrame(i) {
      FirstIsThere(s, i);
      if FirstOverwritten(s, i).Some? {
        var k := FoundOverwritten(s, i);
        SlotDead(p, a, k);
        if DeadOf(p, a, q) { OneDead(p, a, q, s[k].addr); }
      }
      if DeadOf(p, a, q) {
        assert HasUnread(s, p, q);
        var k :| 0 <= k < |s| && s[k].unread && s[k].addr == q && Matches(s[k], p.code[q].insn);
        assert s[k] in s && Overwrites(i, s[k]);
      }
    }
  }

  lemma {:induction false} FirstIsThere(s: seq<Slot>, i: Insn)
    ensures FirstOverwritten(s, i).Some? <==> exists sl :: sl in s && Overwrites(i, sl)
  {
    if s != [] {
      FirstIsThere(s[1..], i);
      assert forall sl :: sl in s <==> sl == s[0] || sl in s[1..];
    }
  }

  // ---- the same value again ----

  ghost predicate CastOf(p: Program, a: Word, q: Word)
    requires a in p.code && p.code[a].insn.Load?
  {
    var i := p.code[a].insn;
    && Stands(p, q, a)
    && var j := p.code[q].insn; j.base == i.base && j.off == i.off && BitcastForm(j.kind, i.kind, i.rd, DataOf(j)).Some?
  }

  /** A four-byte load is reported as a bit cast exactly where an access of the place by
      the other register file stands. */
  lemma CastsExactly(p: Program, a: Word)
    requires WellFormed(p) && Roomy(p, a) && a in p.code
    ensures BitcastThroughFrame(WindowAt(p, a), p.code[a].insn, p.code[a].len).Some? <==>
            p.code[a].len == 4 && p.code[a].insn.Load? && exists q :: CastOf(p, a, q)
  {
    hide WellFormed, WindowAt, Places, Stands, Decide, BitcastForm;
    Placed(p, a);
    HeldSlots(p, a);
    var i, s := p.code[a].insn, WindowAt(p, a).slots;
    if i.Load? {
      AnyDecides(s, sl => BitcastVerdict(i, sl));
      if q :| CastOf(p, a, q) {
        assert HasHeld(s, p, q);
        var k :| 0 <= k < |s| && s[k].held && s[k].addr == q && Matches(s[k], p.code[q].insn);
        assert BitcastVerdict(i, s[k]).Rewrite?;
      }
      if k: nat :| k < |s| && BitcastVerdict(i, s[k]).Rewrite? {
        assert CastOf(p, a, s[k].addr);
      }
    }
  }

  /** The casts there are: between the files, of one width, sign-extended. */
  lemma CastFormsExactly(held: MemKind, k: MemKind, dst: Reg, src: Reg)
    ensures BitcastForm(held, k, dst, src).Some? <==>
            held.IsFp() != k.IsFp() && held.Width() == k.Width() && !k.IsStore() && k != LWU && held != LWU
  {
  }

  /** No register is moved into that a compressed form could not, nor the ABI's own. */
  predicate Plain(rd: Reg) {
    rd != 0 && rd != 2 && rd != 3 && rd != 4
  }

  ghost predicate ConstAgainFrom(p: Program, a: Word, r: Reg, rd: Reg, k: int) {
    && a in p.code && Puts(p.code[a].insn, rd, k) && Plain(rd) && p.code[a].len == 4 && !(-32 <= k <= 31)
    && r != 0 && r != rd && ConstStands(p, r, k, a)
  }

  /** A constant is reported as a move exactly where another register holds it. */
  lemma ConstsAgainExactly(p: Program, a: Word)
    requires WellFormed(p) && a in p.code
    ensures ConstRemat(WindowAt(p, a), p.code[a].insn, p.code[a].len).Some? <==>
            exists r: Reg, rd: Reg, k: int :: ConstAgainFrom(p, a, r, rd, k)
  {
    hide WellFormed, WindowAt, ConstStands, FirstReg, DecodeConst, Puts;
    var i, t := p.code[a].insn, WindowAt(p, a);
    forall rd: Reg, k: int ensures DecodeConst(i) == Some((rd, k)) <==> Puts(i, rd, k) { PutsIs(i, rd, k); }
    forall r: Reg, k: int ensures (r in t.consts && t.consts[r] == k) <==> ConstStands(p, r, k, a) {
      ConstsExact(p, a, r, k);
    }
    if DecodeConst(i).Some? {
      var (rd, k) := DecodeConst(i).value;
      ConstDest(i, rd, k);
      if ConstRemat(t, i, p.code[a].len).Some? {
        var r := FirstReg((r: Reg) => r != rd && r in t.consts && t.consts[r] == k, 1).value;
        assert ConstAgainFrom(p, a, r, rd, k);
      }
      forall r: Reg, rd': Reg, k': int | ConstAgainFrom(p, a, r, rd', k')
        ensures ConstRemat(t, i, p.code[a].len).Some?
      {
        assert rd' == rd && k' == k;
        var f := (r: Reg) => r != rd && r in t.consts && t.consts[r] == k;
        assert f(r) && FirstReg(f, 1).Some?;
      }
    }
  }

  lemma ConstDest(i: Insn, rd: Reg, k: int)
    requires DecodeConst(i) == Some((rd, k))
    ensures rd != 0
  {
  }

  ghost predicate CompAgainFrom(p: Program, a: Word, r: Reg, rd: Reg, key: Comp) {
    && a in p.code && Computes(p.code[a].insn, rd, key) && Plain(rd)
    && CompStands(p, r, key, a) && (r == rd || (r != 0 && p.code[a].len == 4))
  }

  /** A computation is reported exactly where a register holds it: its own, or another and
      the instruction is of four bytes. */
  lemma CompsAgainExactly(p: Program, a: Word)
    requires WellFormed(p) && a in p.code
    ensures CompRemat(WindowAt(p, a), p.code[a].insn, p.code[a].len).Some? <==>
            exists r: Reg, rd: Reg, key: Comp :: CompAgainFrom(p, a, r, rd, key)
    ensures forall rd: Reg, key: Comp :: Computes(p.code[a].insn, rd, key) && Plain(rd) ==>
              (CompRemat(WindowAt(p, a), p.code[a].insn, p.code[a].len) == Some(Nop) <==> CompStands(p, rd, key, a))
  {
    hide WellFormed, WindowAt, CompStands, FirstReg, CompKey, Computes;
    var i, t := p.code[a].insn, WindowAt(p, a);
    forall rd: Reg, key: Comp ensures CompKey(i) == Some(key) && XDest(i) == rd <==> Computes(i, rd, key) {
      ComputesIs(i, rd, key);
    }
    forall r: Reg, key: Comp ensures (r in t.comps && t.comps[r] == key) <==> CompStands(p, r, key, a) {
      CompsExact(p, a, r, key);
    }
    if CompKey(i).Some? {
      var key, rd := CompKey(i).value, XDest(i);
      CompDest(i);
      if CompRemat(t, i, p.code[a].len).Some? {
        if rd in t.comps && t.comps[rd] == key {
          assert CompAgainFrom(p, a, rd, rd, key);
        } else {
          var r := FirstReg((r: Reg) => r != rd && r in t.comps && t.comps[r] == key, 1).value;
          assert CompAgainFrom(p, a, r, rd, key);
        }
      }
      forall r: Reg, rd': Reg, key': Comp | CompAgainFrom(p, a, r, rd', key')
        ensures CompRemat(t, i, p.code[a].len).Some?
      {
        assert rd' == rd && key' == key;
        var f := (r: Reg) => r != rd && r in t.comps && t.comps[r] == key;
        assert r != rd ==> f(r) && FirstReg(f, 1).Some?;
      }
    }
  }

  lemma CompDest(i: Insn)
    requires CompKey(i).Some?
    ensures XDest(i) != 0
  {
  }
}
