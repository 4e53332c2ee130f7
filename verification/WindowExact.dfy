/** Exactly which records the table holds: those of the accesses, constants and
    computations since which nothing has come in, and nothing has disturbed them. */
module WindowExact {
  import opened Words
  import opened Wrappers
  import opened Machine
  import opened MemoryFacts
  import opened Window
  import opened Sweep

  // ---- what leaves a record standing ----

  /** An access that leaves a record: any but a load that writes its own base. */
  predicate Recording(i: Insn) {
    i.Store? || (i.Load? && i.base !in Writes(i))
  }

  predicate Access(i: Insn) {
    i.Store? || i.Load?
  }

  function DataOf(i: Insn): Reg
    requires Access(i)
  {
    if i.Store? then i.data else i.rd
  }

  predicate SamePlace(i: Insn, j: Insn)
    requires Access(i) && Access(j)
  {
    i.base == j.base && i.off == j.off && i.kind == j.kind
  }

  predicate Overlap(i: Insn, j: Insn)
    requires Access(i) && Access(j)
  {
    RangesOverlap(j.off, j.kind.Width(), i.off, i.kind.Width())
  }

  predicate TakesData(i: Insn, j: Insn)
    requires Access(j)
  {
    if j.kind.IsFp() then DataOf(j) in FWrites(i) else DataOf(j) in Writes(i)
  }

  /** `i` writes neither register of the access `j` nor, for all that is known, its bytes,
      and takes no record of the same place. */
  predicate Spares(i: Insn, j: Insn)
    requires Access(j)
  {
    && j.base !in Writes(i) && !TakesData(i, j)
    && (i.Store? ==> i.base == j.base && !Overlap(i, j))
    && !(Recording(i) && SamePlace(i, j))
  }

  /** `i` may not read what `j` stored nor stores just there, keeps its base, and is no
      branch. */
  predicate Passes(i: Insn, j: Insn)
    requires j.Store?
  {
    && j.base !in Writes(i) && !i.Branch?
    && (i.Load? ==> i.base == j.base && !Overlap(i, j))
    && (i.Store? ==> !(i.base == j.base && i.off == j.off && i.kind.Width() == j.kind.Width()))
  }

  // ---- along a line ----

  /** Control comes to `a` from `b` before it alone. */
  predicate Falls(p: Program, b: Word, a: Word) {
    Prev(p, a) == Some(b) && b in p.code && !IsTarget(p, a) && Readable(p, b) && !EndsRegion(p.code[b].insn)
  }

  /** And from `q` on, nothing coming in on the way. */
  predicate Line(p: Program, q: Word, a: Word)
    decreases a
  {
    match Prev(p, a)
    case None => false
    case Some(b) => Falls(p, b, a) && (b == q || Line(p, q, b))
  }

  /** The access at `q` stands undisturbed at `a`. */
  ghost predicate Stands(p: Program, q: Word, a: Word) {
    && Line(p, q, a) && q in p.code && Recording(p.code[q].insn)
    && forall c :: c in p.code && q < c < a ==> Spares(p.code[c].insn, p.code[q].insn)
  }

  /** The store to the frame at `q` waits to be read at `a`. */
  ghost predicate Waits(p: Program, q: Word, a: Word) {
    && Line(p, q, a) && q in p.code && p.code[q].insn.Store? && (p.code[q].insn.base == 2 || p.code[q].insn.base == 8)
    && forall c :: c in p.code && q < c < a ==> Passes(p.code[c].insn, p.code[q].insn)
  }

  lemma {:induction false} LineUp(p: Program, q: Word, a: Word)
    requires Line(p, q, a)
    ensures q < a && q in p.code
    decreases a
  {
    hide Falls;
    var b := Prev(p, a).value;
    if b != q { LineUp(p, q, b); }
  }

  /** What stands between `q` and `a`: what does between `q` and `b`, and `b`. */
  lemma BetweenOn(p: Program, b: Word, a: Word, c: Word)
    requires WellFormed(p) && Prev(p, a) == Some(b) && b in p.code && c in p.code
    ensures b < a && (c < a <==> c <= b)
  {
    Apart(p, b, c);
  }

  lemma StandsOn(p: Program, q: Word, b: Word, a: Word)
    requires WellFormed(p) && Falls(p, b, a) && q in p.code
    ensures Stands(p, q, a) <==>
            if q == b then Recording(p.code[q].insn) else Stands(p, q, b) && Spares(p.code[b].insn, p.code[q].insn)
    ensures Waits(p, q, a) <==>
            if q == b then p.code[q].insn.Store? && (p.code[q].insn.base == 2 || p.code[q].insn.base == 8)
            else Waits(p, q, b) && Passes(p.code[b].insn, p.code[q].insn)
  {
    hide WellFormed, Falls, Spares, Passes, Recording, Prev, IsTarget;
    FallsFrom(p, b, a);
    forall c | c in p.code ensures b < a && (c < a <==> c <= b) { BetweenOn(p, b, a, c); }
    if Line(p, q, b) { LineUp(p, q, b); }
    LineOn(p, q, b, a);
  }

  lemma FallsFrom(p: Program, b: Word, a: Word)
    requires Falls(p, b, a)
    ensures Prev(p, a) == Some(b) && b in p.code
  {
  }

  lemma LineOn(p: Program, q: Word, b: Word, a: Word)
    requires Falls(p, b, a)
    ensures Line(p, q, a) <==> q == b || Line(p, q, b)
  {
  }

  // ---- the places ----

  type Place = (Reg, int, MemKind)

  function PlaceOf(i: Insn): Place
    requires Access(i)
  {
    (i.base, i.off, i.kind)
  }

  function Joined(places: set<Place>, i: Insn): set<Place> {
    if Recording(i) then places + {PlaceOf(i)} else places
  }

  /** The places with a record taken of them since the line to `a` began. */
  function Places(p: Program, a: Word): set<Place>
    decreases a
  {
    match Prev(p, a)
    case None => {}
    case Some(b) => if Falls(p, b, a) then Joined(Places(p, b), p.code[b].insn) else {}
  }

  /** There is room for the record of the access at `q`. */
  predicate Room(p: Program, q: Word)
    requires q in p.code
  {
    |Joined(Places(p, q), p.code[q].insn)| <= 24
  }

  // ---- the slots ----

  predicate Matches(sl: Slot, j: Insn) {
    Access(j) && sl.base == j.base && sl.disp == j.off && sl.kind == j.kind && sl.data == DataOf(j)
  }

  predicate Unique(s: seq<Slot>) {
    forall j, k :: 0 <= j < k < |s| ==> !s[j].Names(s[k].base, s[k].disp, s[k].kind)
  }

  predicate Named(s: seq<Slot>, pl: Place) {
    exists k :: 0 <= k < |s| && s[k].Names(pl.0, pl.1, pl.2)
  }

  /** What a slot says it was recorded from. */
  ghost predicate SlotIs(p: Program, sl: Slot, a: Word) {
    && (sl.held ==> Stands(p, sl.addr, a) && Matches(sl, p.code[sl.addr].insn))
    && (sl.unread ==> Waits(p, sl.addr, a) && Matches(sl, p.code[sl.addr].insn))
  }

  ghost predicate HasHeld(s: seq<Slot>, p: Program, q: Word)
    requires q in p.code
  {
    exists k :: 0 <= k < |s| && s[k].held && s[k].addr == q && Matches(s[k], p.code[q].insn)
  }

  ghost predicate HasUnread(s: seq<Slot>, p: Program, q: Word)
    requires q in p.code
  {
    exists k :: 0 <= k < |s| && s[k].unread && s[k].addr == q && Matches(s[k], p.code[q].insn)
  }

  ghost predicate Complete(s: seq<Slot>, p: Program, a: Word) {
    && (forall q :: Stands(p, q, a) && Room(p, q) ==> HasHeld(s, p, q))
    && (forall q :: Waits(p, q, a) && Room(p, q) ==> HasUnread(s, p, q))
  }

  ghost predicate Counted(s: seq<Slot>, places: set<Place>) {
    && Unique(s) && |s| <= |places| && |s| <= SLOTS
    && (|places| <= 24 ==> forall pl :: pl in places ==> Named(s, pl))
  }

  ghost predicate Exact(s: seq<Slot>, p: Program, a: Word) {
    && Counted(s, Places(p, a)) && Complete(s, p, a) && forall k :: 0 <= k < |s| ==> SlotIs(p, s[k], a)
  }

  /** The access takes the slot for its own record. */
  predicate Renews(i: Insn, sl: Slot) {
    Recording(i) && sl.Names(i.base, i.off, i.kind)
  }

  lemma SurvivesIs(i: Insn, sl: Slot, j: Insn)
    requires PlainInsn(i) && !EndsRegion(i) && Matches(sl, j)
    ensures var r := Survives(i, sl);
            && Matches(r, j) && r.addr == sl.addr
            && (!(Recording(i) && SamePlace(i, j)) ==> (r.held <==> sl.held && Spares(i, j)))
            && (j.Store? ==> (r.unread <==> sl.unread && Passes(i, j)))
  {
    hide Writes, FWrites, RangesOverlap;
  }

  /** The slots after the instruction at `b`: what survives of them, and the new record in
      the place of the old. */
  lemma RecordedAre(s: seq<Slot>, i: Insn, b: Word)
    requires PlainInsn(i)
    ensures var kept := Map(sl => Survives(i, sl), s);
            var r := Recorded(kept, i, b);
            && |s| <= |r| <= |s| + 1
            && (!Recording(i) ==> r == kept)
            && (Recording(i) ==>
                  var n := SlotFor(kept, i.base, i.off, i.kind);
                  && (forall k :: 0 <= k < |s| && k != n ==> r[k] == kept[k])
                  && (n < |s| || |s| < SLOTS ==>
                        n < |r| && r[n].held && r[n].addr == b && Matches(r[n], i)
                        && (r[n].unread <==> i.Store? && (i.base == 2 || i.base == 8)))
                  && (|r| > |s| ==> n == |s|))
  {
    hide Survives, Writes;
  }

  lemma SurvivesNames(i: Insn, sl: Slot)
    ensures var r := Survives(i, sl);
            r.base == sl.base && r.disp == sl.disp && r.kind == sl.kind && r.data == sl.data && r.addr == sl.addr
            && (r.held ==> sl.held) && (r.unread ==> sl.unread)
  {
    hide Writes, FWrites, RangesOverlap;
  }

  lemma KeptNames(s: seq<Slot>, i: Insn)
    ensures var kept := Map(sl => Survives(i, sl), s);
            |kept| == |s| && forall k :: 0 <= k < |s| ==>
              kept[k].base == s[k].base && kept[k].disp == s[k].disp && kept[k].kind == s[k].kind
  {
    hide Survives;
    forall k | 0 <= k < |s| ensures
      Survives(i, s[k]).base == s[k].base && Survives(i, s[k]).disp == s[k].disp && Survives(i, s[k]).kind == s[k].kind
    {
      SurvivesNames(i, s[k]);
    }
  }

  lemma KeptCounted(s: seq<Slot>, places: set<Place>, i: Insn)
    requires Counted(s, places)
    ensures Counted(Map(sl => Survives(i, sl), s), places)
  {
    hide Survives;
    var kept := Map(sl => Survives(i, sl), s);
    KeptNames(s, i);
    forall pl | Named(s, pl) ensures Named(kept, pl) {
      var k :| 0 <= k < |s| && s[k].Names(pl.0, pl.1, pl.2);
      assert kept[k].Names(pl.0, pl.1, pl.2);
    }
  }

  lemma PutCounted(s: seq<Slot>, places: set<Place>, n: nat, sl: Slot)
    requires Counted(s, places) && n == SlotFor(s, sl.base, sl.disp, sl.kind)
    ensures Counted(Put(s, n, sl), places + {(sl.base, sl.disp, sl.kind)})
  {
    hide SlotFor;
    var pl: Place := (sl.base, sl.disp, sl.kind);
    var r, more := Put(s, n, sl), places + {pl};
    if n < |r| { assert r[n].Names(pl.0, pl.1, pl.2); }
    forall q | q != pl && Named(s, q) ensures Named(r, q) {
      var k :| 0 <= k < |s| && s[k].Names(q.0, q.1, q.2);
      assert k != n && r[k].Names(q.0, q.1, q.2);
    }
    if n == |s| && |places| <= 24 {
      assert !Named(s, pl);
      assert pl !in places;
      assert |more| == |places| + 1;
    } else {
      assert places <= more;
      SubsetSize(places, more);
    }
  }

  lemma SubsetSize<T>(a: set<T>, b: set<T>)
    requires a <= b
    ensures |a| <= |b|
  {
    assert b == a + (b - a);
  }

  lemma CountedOn(s: seq<Slot>, places: set<Place>, i: Insn, b: Word)
    requires PlainInsn(i) && Counted(s, places)
    ensures Counted(Recorded(Map(sl => Survives(i, sl), s), i, b), Joined(places, i))
  {
    hide Survives, Counted, Writes, SlotFor, Put;
    KeptCounted(s, places, i);
    var kept := Map(sl => Survives(i, sl), s);
    if i.Store? {
      PutCounted(kept, places, SlotFor(kept, i.base, i.off, i.kind),
                 Slot(true, i.base == 2 || i.base == 8, i.base, i.off, i.kind, i.data, b));
    } else if Recording(i) {
      PutCounted(kept, places, SlotFor(kept, i.base, i.off, i.kind), Slot(true, false, i.base, i.off, i.kind, i.rd, b));
    }
  }

  /** The step, for the slots there were. */
  lemma SlotsOn(s: seq<Slot>, p: Program, b: Word, a: Word)
    requires WellFormed(p) && Falls(p, b, a) && Exact(s, p, b)
    ensures var i := p.code[b].insn;
            forall k :: 0 <= k < |s| && !Renews(i, s[k]) ==> SlotIs(p, Survives(i, s[k]), a)
  {
    hide WellFormed, Falls, Survives, Stands, Waits, Spares, Passes, Renews, PlainInsn;
    FallsFrom(p, b, a);
    Placed(p, b);
    var i := p.code[b].insn;
    assert !EndsRegion(i) by { FallsPlain(p, b, a); }
    forall k | 0 <= k < |s| && !Renews(i, s[k]) ensures SlotIs(p, Survives(i, s[k]), a) {
      SurvivesNames(i, s[k]);
      if s[k].held || s[k].unread { SlotOn(p, b, a, s[k]); }
    }
  }

  lemma FallsPlain(p: Program, b: Word, a: Word)
    requires Falls(p, b, a)
    ensures !EndsRegion(p.code[b].insn)
  {
  }

  lemma SlotOn(p: Program, b: Word, a: Word, sl: Slot)
    requires WellFormed(p) && Falls(p, b, a) && SlotIs(p, sl, b) && (sl.held || sl.unread)
    requires PlainInsn(p.code[b].insn) && !EndsRegion(p.code[b].insn)
    requires !Renews(p.code[b].insn, sl)
    ensures SlotIs(p, Survives(p.code[b].insn, sl), a)
  {
    hide WellFormed, Falls, Survives, Spares, Passes, Line, PlainInsn;
    FallsFrom(p, b, a);
    var i, q := p.code[b].insn, sl.addr;
    assert q in p.code && Matches(sl, p.code[q].insn);
    StandsBefore(p, q, b);
    SurvivesNames(i, sl);
    SurvivesIs(i, sl, p.code[q].insn);
    StandsOn(p, q, b, a);
  }

  lemma StandsBefore(p: Program, q: Word, b: Word)
    requires Stands(p, q, b) || Waits(p, q, b)
    ensures q < b
  {
    hide Spares, Passes, Recording;
    LineUp(p, q, b);
  }

  /** And the step for what stands: the new record, or a slot that is none of its. */
  lemma HeldOn(s: seq<Slot>, r: seq<Slot>, p: Program, b: Word, a: Word, q: Word)
    requires WellFormed(p) && Falls(p, b, a) && Exact(s, p, b) && b in p.code && PlainInsn(p.code[b].insn)
    requires r == Recorded(Map(sl => Survives(p.code[b].insn, sl), s), p.code[b].insn, b)
    requires Stands(p, q, a) && Room(p, q)
    ensures HasHeld(r, p, q)
  {
    hide WellFormed, Falls, Survives, Spares, Passes, Recorded, PlainInsn, Line, Room, Counted;
    var i := p.code[b].insn;
    var kept := Map(sl => Survives(i, sl), s);
    assert !EndsRegion(i) by { FallsPlain(p, b, a); }
    RecordedAre(s, i, b);
    KeptNames(s, i);
    StandsOn(p, q, b, a);
    if q == b {
      RoomFor(s, p, b);
      var n := SlotFor(kept, i.base, i.off, i.kind);
      assert r[n].held && r[n].addr == q && Matches(r[n], i);
    } else {
      assert HasHeld(s, p, q);
      var j := p.code[q].insn;
      var k :| 0 <= k < |s| && s[k].held && s[k].addr == q && Matches(s[k], j);
      SparesElsewhere(i, j);
      SurvivesIs(i, s[k], j);
      assert r[k] == kept[k] && kept[k].held;
    }
  }

  lemma UnreadOn(s: seq<Slot>, r: seq<Slot>, p: Program, b: Word, a: Word, q: Word)
    requires WellFormed(p) && Falls(p, b, a) && Exact(s, p, b) && b in p.code && PlainInsn(p.code[b].insn)
    requires r == Recorded(Map(sl => Survives(p.code[b].insn, sl), s), p.code[b].insn, b)
    requires Waits(p, q, a) && Room(p, q)
    ensures HasUnread(r, p, q)
  {
    hide WellFormed, Falls, Survives, Spares, Passes, Recorded, Line, Room, Counted;
    var i := p.code[b].insn;
    var kept := Map(sl => Survives(i, sl), s);
    assert !EndsRegion(i) by { FallsPlain(p, b, a); }
    RecordedAre(s, i, b);
    KeptNames(s, i);
    StandsOn(p, q, b, a);
    if q == b {
      RoomFor(s, p, b);
      var n := SlotFor(kept, i.base, i.off, i.kind);
      assert r[n].unread && r[n].addr == q && Matches(r[n], i);
    } else {
      assert HasUnread(s, p, q);
      var j := p.code[q].insn;
      var k :| 0 <= k < |s| && s[k].unread && s[k].addr == q && Matches(s[k], j);
      Placed(p, q);
      PassesElsewhere(i, j);
      SurvivesIs(i, s[k], j);
      assert r[k] == kept[k] && kept[k].unread;
    }
  }

  lemma SparesElsewhere(i: Insn, j: Insn)
    requires Access(j) && Spares(i, j)
    ensures !(Recording(i) && SamePlace(i, j))
  {
  }

  /** What neither reads nor stores there takes no record of the same place. */
  lemma PassesElsewhere(i: Insn, j: Insn)
    requires PlainInsn(i) && PlainInsn(j) && j.Store? && Passes(i, j)
    ensures !(Recording(i) && SamePlace(i, j))
  {
    hide Writes, RangesOverlap;
  }

  lemma RoomFor(s: seq<Slot>, p: Program, b: Word)
    requires b in p.code && Counted(s, Places(p, b)) && Room(p, b) && Recording(p.code[b].insn)
    ensures var i := p.code[b].insn;
            SlotFor(Map(sl => Survives(i, sl), s), i.base, i.off, i.kind) < |s| || |s| < SLOTS
  {
    hide Survives, Writes, Places;
    var i := p.code[b].insn;
    var kept := Map(sl => Survives(i, sl), s);
    KeptNames(s, i);
    var places := Places(p, b);
    SubsetSize(places, places + {PlaceOf(i)});
    if PlaceOf(i) in places {
      assert Named(s, PlaceOf(i));
      var k :| 0 <= k < |s| && s[k].Names(i.base, i.off, i.kind);
      assert kept[k].Names(i.base, i.off, i.kind);
    } else {
      assert |places + {PlaceOf(i)}| == |places| + 1;
    }
  }

  lemma NewIs(sl: Slot, p: Program, b: Word, a: Word)
    requires WellFormed(p) && Falls(p, b, a) && b in p.code && Recording(p.code[b].insn)
    requires sl.addr == b && Matches(sl, p.code[b].insn)
    requires sl.unread ==> p.code[b].insn.Store? && (p.code[b].insn.base == 2 || p.code[b].insn.base == 8)
    ensures SlotIs(p, sl, a)
  {
    hide WellFormed, Falls, Spares, Passes, Recording, Line, Stands, Waits;
    StandsOn(p, b, b, a);
  }

  lemma CompleteOn(s: seq<Slot>, r: seq<Slot>, p: Program, b: Word, a: Word)
    requires WellFormed(p) && Falls(p, b, a) && Exact(s, p, b) && b in p.code && PlainInsn(p.code[b].insn)
    requires r == Recorded(Map(sl => Survives(p.code[b].insn, sl), s), p.code[b].insn, b)
    ensures Complete(r, p, a)
  {
    hide WellFormed, Falls, Exact, Survives, Spares, Passes, Recorded, PlainInsn, Line, Room, HasHeld, HasUnread;
    forall q | Stands(p, q, a) && Room(p, q) ensures HasHeld(r, p, q) { HeldOn(s, r, p, b, a, q); }
    forall q | Waits(p, q, a) && Room(p, q) ensures HasUnread(r, p, q) { UnreadOn(s, r, p, b, a, q); }
  }

  /** One instruction of the line. */
  lemma ExactOn(s: seq<Slot>, p: Program, b: Word, a: Word)
    requires WellFormed(p) && Falls(p, b, a) && Exact(s, p, b) && b in p.code
    ensures Exact(Recorded(Map(sl => Survives(p.code[b].insn, sl), s), p.code[b].insn, b), p, a)
  {
    hide WellFormed, Falls, Survives, Stands, Waits, Spares, Passes, Recorded, PlainInsn, HasHeld, HasUnread, Room,
         SlotIs,
         Matches, Writes;
    Placed(p, b);
    var i := p.code[b].insn;
    var kept := Map(sl => Survives(i, sl), s);
    var r := Recorded(kept, i, b);
    CompleteOn(s, r, p, b, a);
    assert Counted(r, Places(p, a)) by {
      CountedOn(s, Places(p, b), i, b);
      PlacesOn(p, b, a);
    }
    SlotsOn(s, p, b, a);
    RecordedAre(s, i, b);
    KeptNames(s, i);
    forall k | 0 <= k < |r| ensures SlotIs(p, r[k], a) {
      if Recording(i) && k == SlotFor(kept, i.base, i.off, i.kind) {
        NewIs(r[k], p, b, a);
      } else {
        NotRenewed(s, i, k);
      }
    }
  }

  lemma PlacesOn(p: Program, b: Word, a: Word)
    requires Falls(p, b, a)
    ensures b in p.code && Places(p, a) == Joined(Places(p, b), p.code[b].insn)
  {
  }

  lemma NotRenewed(s: seq<Slot>, i: Insn, k: nat)
    requires k < |s| && Unique(s)
    requires Recording(i) ==> k != SlotFor(Map(sl => Survives(i, sl), s), i.base, i.off, i.kind)
    ensures !Renews(i, s[k])
  {
    hide Survives, Writes;
    KeptNames(s, i);
    var kept := Map(sl => Survives(i, sl), s);
    if Recording(i) {
      var n := SlotFor(kept, i.base, i.off, i.kind);
      assert s[k].Names(i.base, i.off, i.kind) ==> kept[k].Names(i.base, i.off, i.kind);
      assert n < |s| ==> kept[n].Names(i.base, i.off, i.kind);
    }
  }

  /** The table's slots are exactly the records that stand or wait, while there is room. */
  lemma {:induction false} SlotsExact(p: Program, a: Word)
    requires WellFormed(p)
    ensures Exact(WindowAt(p, a).slots, p, a)
    decreases a
  {
    hide WellFormed, Exact, Recorded, Survives, IsTarget, Places, Stands, Waits;
    if Prev(p, a).Some? && Falls(p, Prev(p, a).value, a) {
      var b := Prev(p, a).value;
      SlotsExact(p, b);
      ExactOn(WindowAt(p, b).slots, p, b, a);
    } else {
      NothingStands(p, a);
    }
  }

  lemma NothingStands(p: Program, a: Word)
    requires Prev(p, a).Some? ==> !Falls(p, Prev(p, a).value, a)
    ensures WindowAt(p, a) == Empty && Exact([], p, a)
  {
    hide IsTarget, Spares, Passes, Recording;
  }

  // ---- constants and computations ----

  /** `li r,k` or `lui r,k`. */
  predicate Puts(i: Insn, r: Reg, k: int) {
    r != 0 && (i == Alu(Add, r, 0, K(k)) || i == Lui(r, k))
  }

  /** An operation on registers or an immediate into `r`, neither a move nor an `li`. */
  predicate Computes(i: Insn, r: Reg, key: Comp) {
    && i == Alu(key.op, r, key.rs1, key.src) && r != 0
    && !(key.op == Add && (key.src == K(0) || key.rs1 == 0))
  }

  lemma PutsIs(i: Insn, r: Reg, k: int)
    ensures DecodeConst(i) == Some((r, k)) <==> Puts(i, r, k)
  {
  }

  lemma ComputesIs(i: Insn, r: Reg, key: Comp)
    ensures CompKey(i) == Some(key) && XDest(i) == r <==> Computes(i, r, key)
  {
  }

  /** `q` puts `k` into `r`, and nothing between writes `r`. */
  ghost predicate ConstFrom(p: Program, q: Word, r: Reg, k: int, a: Word) {
    && Line(p, q, a) && q in p.code && Puts(p.code[q].insn, r, k)
    && forall c :: c in p.code && q < c < a ==> r !in Writes(p.code[c].insn)
  }

  ghost predicate ConstStands(p: Program, r: Reg, k: int, a: Word) {
    exists q :: ConstFrom(p, q, r, k, a)
  }

  /** `q` computes `key` into `r`, which is none of its sources, and nothing between writes
      `r` or a source. */
  ghost predicate CompFrom(p: Program, q: Word, r: Reg, key: Comp, a: Word) {
    && Line(p, q, a) && q in p.code && Computes(p.code[q].insn, r, key)
    && key.rs1 != r && key.src != R(r)
    && forall c :: c in p.code && q < c < a ==> r !in Writes(p.code[c].insn) && !CompNames(key, Writes(p.code[c].insn))
  }

  ghost predicate CompStands(p: Program, r: Reg, key: Comp, a: Word) {
    exists q :: CompFrom(p, q, r, key, a)
  }

  lemma ConstFromOn(p: Program, q: Word, r: Reg, k: int, b: Word, a: Word)
    requires WellFormed(p) && Falls(p, b, a) && b in p.code
    ensures ConstFrom(p, q, r, k, a) <==>
            if q == b then Puts(p.code[b].insn, r, k)
            else ConstFrom(p, q, r, k, b) && r !in Writes(p.code[b].insn)
  {
    hide WellFormed, Falls, Writes, Puts, Prev;
    FallsFrom(p, b, a);
    forall c | c in p.code ensures b < a && (c < a <==> c <= b) { BetweenOn(p, b, a, c); }
    if Line(p, q, b) { LineUp(p, q, b); }
    LineOn(p, q, b, a);
  }

  lemma CompFromOn(p: Program, q: Word, r: Reg, key: Comp, b: Word, a: Word)
    requires WellFormed(p) && Falls(p, b, a) && b in p.code
    ensures var i := p.code[b].insn;
            CompFrom(p, q, r, key, a) <==>
            if q == b then Computes(i, r, key) && key.rs1 != r && key.src != R(r)
            else CompFrom(p, q, r, key, b) && r !in Writes(i) && !CompNames(key, Writes(i))
  {
    hide WellFormed, Falls, Writes, Computes, CompNames, Prev;
    FallsFrom(p, b, a);
    forall c | c in p.code ensures b < a && (c < a <==> c <= b) { BetweenOn(p, b, a, c); }
    if Line(p, q, b) { LineUp(p, q, b); }
    LineOn(p, q, b, a);
  }

  lemma ConstOn(p: Program, r: Reg, k: int, b: Word, a: Word)
    requires WellFormed(p) && Falls(p, b, a) && b in p.code
    ensures ConstStands(p, r, k, a) <==>
            Puts(p.code[b].insn, r, k) || (ConstStands(p, r, k, b) && r !in Writes(p.code[b].insn))
  {
    hide WellFormed, Falls, Writes, ConstFrom, Puts;
    ConstFromOn(p, b, r, k, b, a);
    var w := Writes(p.code[b].insn);
    forall q ensures q != b ==> (ConstFrom(p, q, r, k, a) <==> ConstFrom(p, q, r, k, b) && r !in w) {
      ConstFromOn(p, q, r, k, b, a);
    }
    assert !ConstFrom(p, b, r, k, b) by { ConstNotHere(p, b, r, k); }
  }

  lemma ConstNotHere(p: Program, b: Word, r: Reg, k: int)
    ensures !ConstFrom(p, b, r, k, b)
  {
    hide Writes, Puts;
    if Line(p, b, b) { LineUp(p, b, b); }
  }

  lemma CompNotHere(p: Program, b: Word, r: Reg, key: Comp)
    ensures !CompFrom(p, b, r, key, b)
  {
    hide Writes, Computes, CompNames;
    if Line(p, b, b) { LineUp(p, b, b); }
  }

  lemma CompOn(p: Program, r: Reg, key: Comp, b: Word, a: Word)
    requires WellFormed(p) && Falls(p, b, a) && b in p.code
    ensures var i := p.code[b].insn;
            CompStands(p, r, key, a) <==>
            || (Computes(i, r, key) && key.rs1 != r && key.src != R(r))
            || (CompStands(p, r, key, b) && r !in Writes(i) && !CompNames(key, Writes(i)))
  {
    hide WellFormed, Falls, Writes, CompFrom, Computes, CompNames;
    var i := p.code[b].insn;
    CompFromOn(p, b, r, key, b, a);
    forall q
      ensures q != b ==> (CompFrom(p, q, r, key, a) <==>
                          CompFrom(p, q, r, key, b) && r !in Writes(i) && !CompNames(key, Writes(i)))
    {
      CompFromOn(p, q, r, key, b, a);
    }
    assert !CompFrom(p, b, r, key, b) by { CompNotHere(p, b, r, key); }
  }

  lemma ConstsAre(c: map<Reg, int>, i: Insn, r: Reg, k: int)
    ensures (r in ConstsAfter(c, i) && ConstsAfter(c, i)[r] == k) <==>
            Puts(i, r, k) || (r in c && c[r] == k && r !in Writes(i))
  {
    PutsIs(i, r, k);
  }

  lemma CompsAre(c: map<Reg, Comp>, i: Insn, r: Reg, key: Comp)
    ensures (r in CompsAfter(c, i) && CompsAfter(c, i)[r] == key) <==>
            || (Computes(i, r, key) && key.rs1 != r && key.src != R(r))
            || (r in c && c[r] == key && r !in Writes(i) && !CompNames(key, Writes(i)))
  {
    ComputesIs(i, r, key);
    hide CompNames;
  }

  /** The table's constants are exactly those still in their registers, */
  lemma {:induction false} ConstsExact(p: Program, a: Word, r: Reg, k: int)
    requires WellFormed(p)
    ensures (r in WindowAt(p, a).consts && WindowAt(p, a).consts[r] == k) <==> ConstStands(p, r, k, a)
    decreases a
  {
    hide WellFormed, ConstStands, IsTarget, ConstsAfter, CompsAfter, Recorded, Survives, Puts, Writes;
    if Prev(p, a).Some? && Falls(p, Prev(p, a).value, a) {
      var b := Prev(p, a).value;
      ConstsExact(p, b, r, k);
      ConstOn(p, r, k, b, a);
      ConstsAre(WindowAt(p, b).consts, p.code[b].insn, r, k);
    } else {
      NothingMade(p, a);
    }
  }

  lemma NothingMade(p: Program, a: Word)
    requires Prev(p, a).Some? ==> !Falls(p, Prev(p, a).value, a)
    ensures WindowAt(p, a) == Empty
    ensures forall r: Reg, k: int :: !ConstStands(p, r, k, a)
    ensures forall r: Reg, key: Comp :: !CompStands(p, r, key, a)
  {
    hide IsTarget, Writes, Puts, Computes, CompNames;
  }

  /** and its computations those whose sources are too. */
  lemma {:induction false} CompsExact(p: Program, a: Word, r: Reg, key: Comp)
    requires WellFormed(p)
    ensures (r in WindowAt(p, a).comps && WindowAt(p, a).comps[r] == key) <==> CompStands(p, r, key, a)
    decreases a
  {
    hide WellFormed, CompStands, IsTarget, ConstsAfter, CompsAfter, Recorded, Survives, Computes, Writes;
    if Prev(p, a).Some? && Falls(p, Prev(p, a).value, a) {
      var b := Prev(p, a).value;
      CompsExact(p, b, r, key);
      CompOn(p, r, key, b, a);
      CompsAre(WindowAt(p, b).comps, p.code[b].insn, r, key);
    } else {
      NothingMade(p, a);
    }
  }

  // ---- room ----

  /** The places on the way are among those at the end. */
  lemma {:induction false} PlacesGrow(p: Program, q: Word, a: Word)
    requires Line(p, q, a) && q in p.code
    ensures Joined(Places(p, q), p.code[q].insn) <= Places(p, a)
    decreases a
  {
    hide Falls, Recording;
    var b := Prev(p, a).value;
    PlacesOn(p, b, a);
    if b != q { PlacesGrow(p, q, b); }
  }

  /** While the line has at most 24 places there is room for all of them. */
  lemma RoomAlong(p: Program, q: Word, a: Word)
    requires Line(p, q, a) && |Places(p, a)| <= 24
    ensures q in p.code && Room(p, q)
  {
    hide Falls, Recording, Places;
    LineUp(p, q, a);
    PlacesGrow(p, q, a);
    SubsetSize(Joined(Places(p, q), p.code[q].insn), Places(p, a));
  }
}
