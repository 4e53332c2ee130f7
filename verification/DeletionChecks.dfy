/** The checks that delete a definition: dead definitions, a copy its only reader
    can do without, a zero loaded for stores, a constant or mask loaded for
    immediate operands. Each walks ahead of the cursor and asks the liveness walk
    about what comes after. */
module DeletionChecks {
  import opened Words
  import opened Wrappers
  import opened Machine
  import opened Window
  import opened Sweep
  import opened Liveness
  import opened Deletion
  import opened Encoding
  import opened ImmediateForms
  import opened Li

  const COPY_WALK: nat := 32
  const ZSTORE_WALK: nat := 16
  const CONST_WALK: nat := 16

  /** The program with the instructions of `e` put in place of its own. */
  function Apply(p: Program, e: map<Word, Insn>): Program {
    p.(code := map c | c in p.code :: if c in e then p.code[c].(insn := e[c]) else p.code[c])
  }

  function Edit(p: Program, e: map<Word, Insn>, c: Word): Insn
    requires c in p.code
  {
    if c in e then e[c] else p.code[c].insn
  }

  /** One instruction of the line. */
  ghost predicate Carried(p: Program, e: map<Word, Insn>, c: Word, r: Reg, defs: Defs)
    requires c in p.code
  {
    && !IsTarget(p, c) && c in defs && c + p.code[c].len in defs
    && Carries(p.code[c].insn, Edit(p, e, c), r, defs[c], defs[c + p.code[c].len], false)
  }

  /** The straight line walked from the definition at `a` up to `at`, where the
      register holds what `defs` says. */
  ghost predicate Line(p: Program, e: map<Word, Insn>, a: Word, at: Word, r: Reg, defs: Defs) {
    && r != 0 && a in p.code && a + p.code[a].len <= at
    && a + p.code[a].len in defs && Defines(p.code[a].insn, r, defs[a + p.code[a].len])
    && a in e && e[a] == Nop && at in defs
    && (forall c :: c in e ==> c in p.code && a <= c < at)
    && Contiguous(p, a, at)
    && (forall c :: c in p.code && a < c < at ==> Carried(p, e, c, r, defs))
  }

  lemma ContiguousGrows(p: Program, a: Word, at: Word)
    requires WellFormed(p) && a in p.code && a < at && Contiguous(p, a, at) && at in p.code
    ensures Contiguous(p, a, at + p.code[at].len) && at + p.code[at].len < W64
    ensures forall c :: c in p.code && a <= c < at + p.code[at].len ==> c == at || (c < at && c + p.code[c].len <= at)
    ensures p.code[at].len > 0
  {
    hide WellFormed, Wrap;
    Placed(p, at);
    forall c | c in p.code && a <= c < at + p.code[at].len
      ensures c == at || (c < at && c + p.code[c].len <= at)
    {
      Apart(p, at, c);
    }
    WrapOfWord(at);
  }

  lemma LineStarts(p: Program, a: Word, r: Reg, def: Def)
    requires WellFormed(p) && a in p.code && r != 0 && Defines(p.code[a].insn, r, def)
    ensures a + p.code[a].len < W64 && Line(p, map[a := Nop], a, a + p.code[a].len, r, map[a + p.code[a].len := def])
  {
    hide Defines, Carries, IsTarget, WellFormed;
    Placed(p, a);
    forall c | c in p.code && a < c < a + p.code[a].len ensures false { Apart(p, a, c); }
  }

  function PutEdit(p: Program, e: map<Word, Insn>, at: Word, j: Insn): map<Word, Insn>
    requires at in p.code
  {
    if j == p.code[at].insn then e else e[at := j]
  }

  lemma CarriedStays(p: Program, e: map<Word, Insn>, e': map<Word, Insn>, c: Word, r: Reg, defs: Defs, defs': Defs)
    requires c in p.code && Carried(p, e, c, r, defs) && Edit(p, e', c) == Edit(p, e, c)
    requires defs.Keys <= defs'.Keys && defs'[c] == defs[c] && defs'[c + p.code[c].len] == defs[c + p.code[c].len]
    ensures Carried(p, e', c, r, defs')
  {
  }

  lemma LineGrows(p: Program, e: map<Word, Insn>, a: Word, at: Word, r: Reg, defs: Defs, j: Insn, next: Def)
    requires WellFormed(p) && Line(p, e, a, at, r, defs) && at in p.code && !IsTarget(p, at)
    requires Carries(p.code[at].insn, j, r, defs[at], next, false)
    ensures at + p.code[at].len < W64
    ensures Line(p, PutEdit(p, e, at, j), a, at + p.code[at].len, r, defs[at + p.code[at].len := next])
  {
    hide Defines, Carries, IsTarget, WellFormed;
    var n, e' := at + p.code[at].len, PutEdit(p, e, at, j);
    var defs' := defs[n := next];
    Placed(p, a);
    ContiguousGrows(p, a, at);
    hide Contiguous;
    assert Carried(p, e', at, r, defs');
    forall c | c in p.code && a < c < n && c != at
      ensures Carried(p, e', c, r, defs')
    {
      CarriedStays(p, e, e', c, r, defs, defs');
    }
  }

  /** The line closed by one last instruction is an edit of the program. */
  lemma LineCloses(p: Program, e: map<Word, Insn>, a: Word, at: Word, r: Reg, defs: Defs, j: Insn)
    requires WellFormed(p) && Line(p, e, a, at, r, defs) && at in p.code && !IsTarget(p, at)
    requires Carries(p.code[at].insn, j, r, defs[at], Anything, true)
    ensures at + p.code[at].len < W64
    ensures Edits(p, Apply(p, PutEdit(p, e, at, j)), a, at + p.code[at].len, r, defs - {at + p.code[at].len})
  {
    hide Defines, EditAt, Carries, IsTarget, WellFormed, Wrap, Apply;
    var n, e' := at + p.code[at].len, PutEdit(p, e, at, j);
    var q, defs' := Apply(p, e'), defs - {n};
    Placed(p, a);
    ContiguousGrows(p, a, at);
    ApplyShape(p, e', a, n);
    hide Contiguous;
    forall c | c in p.code && a < c < n
      ensures EditAt(p, c, q.code[c].insn, n, r, defs')
    {
      CloseAt(p, e, a, at, r, defs, j, c);
    }
    assert DefAt(defs', a + p.code[a].len, n) == defs[a + p.code[a].len];
  }

  lemma ApplyShape(p: Program, e: map<Word, Insn>, a: Word, n: int)
    requires forall c :: c in e ==> a <= c < n
    ensures SameElsewhere(p, Apply(p, e), a, n)
    ensures forall c :: c in p.code ==> Apply(p, e).code[c].insn == Edit(p, e, c)
  {
  }

  lemma CloseAt(p: Program, e: map<Word, Insn>, a: Word, at: Word, r: Reg, defs: Defs, j: Insn, c: Word)
    requires Line(p, e, a, at, r, defs) && at in p.code && !IsTarget(p, at) && p.code[at].len > 0
    requires Carries(p.code[at].insn, j, r, defs[at], Anything, true) && at + p.code[at].len < W64
    requires c in p.code && a < c && (c == at || (c < at && c + p.code[c].len <= at))
    ensures var n, e' := at + p.code[at].len, PutEdit(p, e, at, j);
            EditAt(p, c, Edit(p, e', c), n, r, defs - {n})
  {
    hide Defines, Carries, IsTarget, Contiguous;
    if c != at {
      assert Carried(p, e, c, r, defs);
    }
  }

  /** A definition with no line after it. */
  lemma JustDefinition(p: Program, a: Word, r: Reg)
    requires WellFormed(p) && a in p.code && r != 0 && Defines(p.code[a].insn, r, Anything)
    ensures Edits(p, Apply(p, map[a := Nop]), a, Wrap(a + p.code[a].len), r, map[])
    ensures Wrap(a + p.code[a].len) == a + p.code[a].len
  {
    hide Defines, Carries, IsTarget, WellFormed;
    Placed(p, a);
    forall c | c in p.code && a <= c < a + p.code[a].len ensures c == a { Apart(p, a, c); }
  }

  // ---- instructions that carry the register along ----

  lemma CarriesLast(i: Insn, j: Insn, r: Reg, def: Def, next: Def)
    requires Carries(i, j, r, def, next, false) && r !in Writes(i)
    ensures Carries(i, j, r, def, Anything, true)
  {
    hide Effect, Holds;
  }

  /** `j` does what `i` does while `r` holds its value, and does not look at `r`. */
  lemma CarriesIf(i: Insn, j: Insn, r: Reg, def: Def, last: bool)
    requires !IsTransfer(i) && !IsTransfer(j) && r !in Reads(j) && Writes(j) == Writes(i)
    requires !last ==> r !in Writes(i)
    requires forall len: nat, s: State :: Holds(def, r, s) ==> Effect(j, len, s) == Effect(i, len, s)
    requires !last ==> forall len: nat, s: State :: Holds(def, r, s) ==> Holds(def, r, Effect(i, len, s))
    ensures Carries(i, j, r, def, if last then Anything else def, last)
  {
    hide Effect, Reads, Writes, Holds;
    forall len: nat, s: State, v: Word | Holds(def, r, s)
      ensures Effect(j, len, SetX(s, r, v)) ==
              (if r in Writes(i) then Effect(i, len, s) else SetX(Effect(i, len, s), r, v))
      ensures last || Holds(def, r, Effect(i, len, s))
    {
      EffectIgnores(j, len, s, r, v);
    }
  }

  lemma HoldsAfter(i: Insn, r: Reg, def: Def, len: nat, s: State)
    requires Holds(def, r, s) && r !in Writes(i) && (def.Copy? ==> def.rs !in Writes(i))
    ensures Holds(def, r, Effect(i, len, s))
  {
    hide Effect, Writes;
    EffectKeeps(i, len, s, r);
    if def.Copy? {
      EffectKeeps(i, len, s, def.rs);
    }
  }

  lemma CarriesSame(i: Insn, r: Reg, def: Def)
    requires !IsTransfer(i) && r !in Reads(i) && r !in Writes(i) && (def.Copy? ==> def.rs !in Writes(i))
    ensures Carries(i, i, r, def, def, false)
  {
    hide Effect, Reads, Writes, Holds;
    forall len: nat, s: State | Holds(def, r, s)
      ensures Holds(def, r, Effect(i, len, s))
    {
      HoldsAfter(i, r, def, len, s);
    }
    CarriesIf(i, i, r, def, false);
  }

  /** A store of `r`, which holds zero, through another base stores x0. */
  lemma CarriesZeroStore(i: Insn, r: Reg)
    requires i.Store? && i.kind.IsStore() && !i.kind.IsFp() && i.data == r && i.base != r && r != 0
    ensures Carries(i, i.(data := 0), r, Const(0), Const(0), false) && r !in Writes(i)
  {
    var j := i.(data := 0);
    forall len: nat, s: State | Holds(Const(0), r, s)
      ensures Effect(j, len, s) == Effect(i, len, s)
      ensures Holds(Const(0), r, Effect(i, len, s))
    {
      hide StoreLE;
      HoldsAfter(i, r, Const(0), len, s);
    }
    CarriesIf(i, j, r, Const(0), false);
  }

  predicate Is64(k: int) {
    -0x8000_0000_0000_0000 <= k < 0x8000_0000_0000_0000
  }

  lemma CarriesImm(i: Insn, r: Reg, k: int, zba: bool, zbb: bool)
    requires ImmForm(i, r, k, zba, zbb).Some? && Is64(k) && r != 0
    ensures var last := i.rd == r;
            Carries(i, ImmForm(i, r, k, zba, zbb).value, r, Const(k), if last then Anything else Const(k), last)
    ensures Writes(i) == {i.rd}
  {
    hide Effect, Reads, Writes, Wrap;
    var j := ImmForm(i, r, k, zba, zbb).value;
    ImmFormShape(i, r, k, zba, zbb);
    forall len: nat, s: State | Holds(Const(k), r, s)
      ensures Effect(j, len, s) == Effect(i, len, s)
      ensures i.rd != r ==> Holds(Const(k), r, Effect(i, len, s))
    {
      ImmFormRight(i, r, k, zba, zbb, len, s);
      if i.rd != r {
        HoldsAfter(i, r, Const(k), len, s);
      }
    }
    hide ImmForm;
    CarriesIf(i, j, r, Const(k), i.rd == r);
  }

  // ---- readers renamed ----

  function Renamed(q: Reg, r: Reg, rs: Reg): Reg {
    if q == r then rs else q
  }

  /** Every source field that names `r` names `rs` instead. */
  function Rename(i: Insn, r: Reg, rs: Reg): Insn {
    match i
    case Alu(op, rd, rs1, src) =>
      Alu(op, rd, Renamed(rs1, r, rs), match src case R(q) => R(Renamed(q, r, rs)) case K(k) => K(k))
    case Load(k, rd, base, off) => Load(k, rd, Renamed(base, r, rs), off)
    case Store(k, data, base, off) =>
      Store(k, if k.IsFp() then data else Renamed(data, r, rs), Renamed(base, r, rs), off)
    case FmvDX(fd, q) => FmvDX(fd, Renamed(q, r, rs))
    case FmvWX(fd, q) => FmvWX(fd, Renamed(q, r, rs))
    case _ => i
  }

  lemma RenameRight(i: Insn, r: Reg, rs: Reg, len: nat, s: State)
    requires X(s, r) == X(s, rs) && !i.Then?
    ensures Effect(Rename(i, r, rs), len, s) == Effect(i, len, s)
  {
    hide AluVal, LoadLE, StoreLE, Extend, X;
    assert forall q: Reg :: X(s, Renamed(q, r, rs)) == X(s, q);
    var j := Rename(i, r, rs);
    assert XResult(j, len, s) == XResult(i, len, s);
    assert FResult(j, s) == FResult(i, s) && MemResult(j, s) == MemResult(i, s);
  }

  lemma RenameShape(i: Insn, r: Reg, rs: Reg)
    requires !i.Then? && !IsTransfer(i) && r != rs && r != 0
    ensures var j := Rename(i, r, rs); r !in Reads(j) && Writes(j) == Writes(i) && !IsTransfer(j)
  {
  }

  lemma CarriesRenamed(i: Insn, r: Reg, rs: Reg)
    requires !i.Then? && !IsTransfer(i) && r != rs && r != 0
    ensures Carries(i, Rename(i, r, rs), r, Copy(rs), Anything, true)
  {
    hide Effect, Reads, Writes, Rename, X;
    var j := Rename(i, r, rs);
    forall len: nat, s: State | Holds(Copy(rs), r, s)
      ensures Effect(j, len, s) == Effect(i, len, s)
    {
      RenameRight(i, r, rs, len, s);
    }
    RenameShape(i, r, rs);
    CarriesIf(i, j, r, Copy(rs), true);
  }

  /** A step of the chain that builds a constant, deleted with it. */
  lemma CarriesStep(i: Insn, r: Reg, k: int, next: int)
    requires IsStep(i, r) && Wrap(next) == StepValue(i, Wrap(k))
    ensures Carries(i, Nop, r, Const(k), Const(next), false)
  {
    hide AluVal, Wrap, Effect;
    forall len: nat, s: State | Holds(Const(k), r, s)
      ensures Effect(i, len, s) == SetX(s, r, Wrap(next))
      ensures Holds(Const(next), r, Effect(i, len, s))
    {
      StepEffect(i, r, len, s);
    }
    assert IsStraight(i) && IsStraight(Nop);
    assert forall len: nat, s: State :: Holds(Const(k), r, s) ==> Holds(Const(next), r, Effect(i, len, s));
    forall len: nat, s: State, v: Word | Holds(Const(k), r, s)
      ensures Effect(Nop, len, SetX(s, r, v)) == SetX(Effect(i, len, s), r, v)
    {
      NopEffect(len, SetX(s, r, v));
    }
  }

  lemma DefinesPure(i: Insn, r: Reg)
    requires (i.Alu? || i.Lui? || i.Auipc?) && r != 0 && XDest(i) == r
    ensures Defines(i, r, Anything)
  {
    hide AluVal, Wrap;
  }

  lemma DefinesConst(i: Insn, r: Reg, k: int)
    requires DecodeConst(i) == Some((r, k))
    ensures r != 0 && Defines(i, r, Const(k))
  {
    hide AluVal;
    forall len: nat, s: State
      ensures Effect(i, len, s) == SetX(s, r, X(Effect(i, len, s), r)) && Holds(Const(k), r, Effect(i, len, s))
    {
      ConstResult(i, len, s);
    }
  }

  function DecodeMv(d: Decoded): Option<(Reg, Reg)> {
    match d.insn
    case Alu(Add, rd, rs, K(0)) => if d.len == 4 && rd != 0 && rs != 0 then Some((rd, rs)) else None
    case Alu(Add, rd, 0, R(rs)) => if d.len == 2 && rd != 0 && rs != 0 then Some((rd, rs)) else None
    case _ => None
  }

  lemma DefinesCopy(d: Decoded, rd: Reg, rs: Reg)
    requires DecodeMv(d) == Some((rd, rs)) && rd != rs
    ensures rd != 0 && Defines(d.insn, rd, Copy(rs))
  {
    forall len: nat, s: State
      ensures Effect(d.insn, len, s) == SetX(s, rd, X(Effect(d.insn, len, s), rd))
              && Holds(Copy(rs), rd, Effect(d.insn, len, s))
    {
      hide Sext, BitWord, Pow2;
    }
  }

  // ---- the checks ----

  /** What a check would do: the instructions to put in place, up to `end`. */
  datatype Outcome = Keep | Delete(edits: map<Word, Insn>, end: Word)

  /** The edit can be made from `a`, of the definition of `r`. */
  ghost predicate Deletable(p: Program, q: Program, a: Word, end: Word, r: Reg) {
    exists defs: Defs :: Deletes(p, q, a, end, r, defs)
  }

  ghost predicate Editable(p: Program, q: Program, a: Word, end: Word, r: Reg) {
    exists defs: Defs :: Edits(p, q, a, end, r, defs)
  }

  lemma DeadDeletes(p: Program, q: Program, a: Word, end: Word, r: Reg)
    requires Editable(p, q, a, end, r) && DeadAt(p, end, r)
    ensures Deletable(p, q, a, end, r)
  {
    hide Edits, DeadAt;
    var defs: Defs :| Edits(p, q, a, end, r, defs);
    assert Deletes(p, q, a, end, r, defs);
  }

  predicate HeldByConvention(r: Reg) {
    r == 2 || r == 3 || r == 4
  }

  /** A definition nothing reads. */
  method CheckDeadDef(p: Program, a: Word) returns (o: Outcome)
    requires WellFormed(p) && a in p.code
    ensures var i, r, n := p.code[a].insn, XDest(p.code[a].insn), Wrap(a + p.code[a].len);
            o == if Readable(p, a) && (i.Alu? || i.Lui? || i.Auipc?) && r != 0 && !HeldByConvention(r)
              && WalkAnswer(p, n, r) == Dead
                 then Delete(map[a := Nop], n) else Keep
    ensures o.Delete? && ZeroSafe(p, o.end, XDest(p.code[a].insn)) ==>
              Deletable(p, Apply(p, o.edits), a, o.end, XDest(p.code[a].insn))
  {
    hide WalkClosed, Deletable, Editable, Edits, Defines, WellFormed, Apply, DeadAt, WalkAnswer, ZeroSafe;
    var d := p.code[a];
    var r := XDest(d.insn);
    if !Readable(p, a) || !(d.insn.Alu? || d.insn.Lui? || d.insn.Auipc?) || r == 0 || HeldByConvention(r) {
      return Keep;
    }
    DefinesPure(d.insn, r);
    JustDefinition(p, a, r);
    EditableBy(p, Apply(p, map[a := Nop]), a, Wrap(a + d.len), r, map[]);
    var answer := Walk(p, Wrap(a + d.len), r);
    if answer != Dead { return Keep; }
    o := Delete(map[a := Nop], Wrap(a + d.len));
    if ZeroSafe(p, o.end, r) {
      AnsweredIsDead(p, o.end, r);
      DeadDeletes(p, Apply(p, o.edits), a, o.end, r);
    }
  }

  lemma EditableBy(p: Program, q: Program, a: Word, end: Word, r: Reg, defs: Defs)
    requires Edits(p, q, a, end, r, defs)
    ensures Editable(p, q, a, end, r)
  {
    hide Edits;
  }

  lemma WrittenDeletes(p: Program, q: Program, a: Word, at: Word, end: Word, r: Reg, defs: Defs)
    requires Edits(p, q, a, end, r, defs) && at in p.code && a < at < end && at + p.code[at].len == end
    requires r in Writes(p.code[at].insn)
    ensures Deletable(p, q, a, end, r)
  {
    hide Edits, DeadAt, Writes;
    assert Deletes(p, q, a, end, r, defs);
  }

  lemma Named(p: Program, at: Word, r: Reg)
    requires WellFormed(p) && at in p.code && r !in p.code[at].names
    ensures r !in Reads(p.code[at].insn) && r !in Writes(p.code[at].insn)
  {
    assert WellPlaced(p, at, p.code[at]);
  }

  /** A walk that stops at `i` cannot see past it. */
  predicate StopsWalk(i: Insn) {
    IsTransfer(i)
  }

  /** The walk looks at nothing from here on. */
  predicate LineEndsAt(p: Program, at: Word, budget: nat) {
    budget == 0 || at !in p.code || IsTarget(p, at) || !Readable(p, at)
  }

  function Following(p: Program, at: Word): Word
    requires at in p.code
  {
    Wrap(at + p.code[at].len)
  }

  // ---- a copy's reader ----

  /** The reader, from `at` on, and what becomes of it. */
  function CopyFrom(p: Program, a: Word, rd: Reg, rs: Reg, at: Word, budget: nat): Outcome
    decreases budget
  {
    if LineEndsAt(p, at, budget) then Keep
    else
      var i, end := p.code[at].insn, Following(p, at);
      if rd in Reads(i) then
        if StopsWalk(i) || (rd !in Writes(i) && WalkAnswer(p, end, rd) != Dead) then Keep
        else Delete(PutEdit(p, map[a := Nop], at, Rename(i, rd, rs)), end)
      else if rd in Writes(i) || rs in Writes(i) || StopsWalk(i) then Keep
      else CopyFrom(p, a, rd, rs, end, budget - 1)
  }

  function CopyOutcome(p: Program, a: Word): Outcome
    requires a in p.code
  {
    var mv := DecodeMv(p.code[a]);
    if !Readable(p, a) || mv == None || mv.value.0 == mv.value.1 || HeldByConvention(mv.value.0) then Keep
    else CopyFrom(p, a, mv.value.0, mv.value.1, Following(p, a), COPY_WALK)
  }

  lemma ReaderRenamed(p: Program, a: Word, rd: Reg, rs: Reg, at: Word, defs: Defs)
    requires WellFormed(p) && rd != rs && at in p.code && !IsTarget(p, at)
    requires a < at && Line(p, map[a := Nop], a, at, rd, defs) && at in defs && defs[at] == Copy(rs)
    requires !StopsWalk(p.code[at].insn)
    requires rd in Writes(p.code[at].insn) || (WalkAnswer(p, Following(p, at), rd) == Dead
                                               && ZeroSafe(p, Following(p, at), rd))
    ensures Deletable(p, Apply(p, PutEdit(p, map[a := Nop], at, Rename(p.code[at].insn, rd, rs))), a,
                      Following(p, at), rd)
  {
    hide WalkClosed, Deletable, Editable, Edits, Defines, WellFormed, Apply, DeadAt, Line, Carries, IsTarget, Reads,
         Writes, Rename,
      WalkAnswer, ZeroSafe;
    var i := p.code[at].insn;
    var end: Word := Following(p, at);
    Placed(p, at);
    WrapOfWord(at + p.code[at].len);
    LineHas(p, map[a := Nop], a, at, rd, defs);
    CarriesRenamed(i, rd, rs);
    LineCloses(p, map[a := Nop], a, at, rd, defs, Rename(i, rd, rs));
    var q := Apply(p, PutEdit(p, map[a := Nop], at, Rename(i, rd, rs)));
    EditableBy(p, q, a, end, rd, defs - {end as int});
    if rd in Writes(i) {
      WrittenDeletes(p, q, a, at, end, rd, defs - {end as int});
    } else {
      WalkAnswers(p, end, rd);
      AnsweredIsDead(p, end, rd);
      DeadDeletes(p, q, a, end, rd);
    }
  }

  lemma {:induction false} CopyFromSound(p: Program, a: Word, rd: Reg, rs: Reg, at: Word, budget: nat, defs: Defs)
    requires WellFormed(p) && rd != rs
    requires a < at && Line(p, map[a := Nop], a, at, rd, defs) && at in defs && defs[at] == Copy(rs)
    ensures var o := CopyFrom(p, a, rd, rs, at, budget); o.Delete? && ZeroSafe(p, o.end, rd) ==>
            Deletable(p, Apply(p, o.edits), a, o.end, rd)
    decreases budget
  {
    hide Deletable, WellFormed, Apply, Line, Carries, IsTarget, Reads, Writes, Rename, WalkAnswer, ZeroSafe, StopsWalk;
    if !LineEndsAt(p, at, budget) {
      var i := p.code[at].insn;
      Placed(p, at);
      WrapOfWord(at + p.code[at].len);
      if rd in Reads(i) {
        if !StopsWalk(i) && (rd in Writes(i) || WalkAnswer(p, Following(p, at), rd) == Dead)
            && ZeroSafe(p, Following(p, at), rd) {
          ReaderRenamed(p, a, rd, rs, at, defs);
        }
      } else if rd !in Writes(i) && rs !in Writes(i) && !StopsWalk(i) {
        PastOne(p, map[a := Nop], a, at, rd, defs, Copy(rs));
        CopyFromSound(p, a, rd, rs, Following(p, at), budget - 1, defs[Following(p, at) as int := Copy(rs)]);
      }
    }
  }

  /** One instruction that neither reads nor writes what is held. */
  lemma PastOne(p: Program, e: map<Word, Insn>, a: Word, at: Word, r: Reg, defs: Defs, def: Def)
    requires WellFormed(p) && Line(p, e, a, at, r, defs) && at in p.code && !IsTarget(p, at) && at in defs
             && defs[at] == def
    requires r !in Reads(p.code[at].insn) && r !in Writes(p.code[at].insn) && !StopsWalk(p.code[at].insn)
    requires def.Copy? ==> def.rs !in Writes(p.code[at].insn)
    ensures at < Following(p, at) && Line(p, e, a, Following(p, at), r, defs[Following(p, at) as int := def])
  {
    hide WellFormed, Line, Carries, IsTarget, Reads, Writes;
    Placed(p, at);
    WrapOfWord(at + p.code[at].len);
    LineHas(p, e, a, at, r, defs);
    CarriesSame(p.code[at].insn, r, def);
    LineGrows(p, e, a, at, r, defs, p.code[at].insn, def);
  }

  lemma CopyIsSound(p: Program, a: Word)
    requires WellFormed(p) && a in p.code && CopyOutcome(p, a).Delete?
    requires ZeroSafe(p, CopyOutcome(p, a).end, XDest(p.code[a].insn))
    ensures Deletable(p, Apply(p, CopyOutcome(p, a).edits), a, CopyOutcome(p, a).end, XDest(p.code[a].insn))
  {
    hide Deletable, Line, Carries, Defines, IsTarget, CopyFrom, Apply, WellFormed, ZeroSafe;
    var (rd, rs) := DecodeMv(p.code[a]).value;
    DefinesCopy(p.code[a], rd, rs);
    LineStarts(p, a, rd, Copy(rs));
    Placed(p, a);
    WrapOfWord(a + p.code[a].len);
    CopyFromSound(p, a, rd, rs, Following(p, a), COPY_WALK, map[Following(p, a) as int := Copy(rs)]);
  }

  /** A copy whose only reader can name the source. */
  method CheckCopyForReader(p: Program, a: Word) returns (o: Outcome)
    requires WellFormed(p) && a in p.code
    ensures o == CopyOutcome(p, a)
    ensures o.Delete? && ZeroSafe(p, o.end, XDest(p.code[a].insn)) ==>
              Deletable(p, Apply(p, o.edits), a, o.end, XDest(p.code[a].insn))
  {
    hide WellFormed, Apply, IsTarget, Reads, Writes, Rename, WalkAnswer, ZeroSafe, Deletable, PutEdit;
    if CopyOutcome(p, a).Delete? && ZeroSafe(p, CopyOutcome(p, a).end, XDest(p.code[a].insn)) { CopyIsSound(p, a); }
    var mv := DecodeMv(p.code[a]);
    if !Readable(p, a) || mv == None || mv.value.0 == mv.value.1 || HeldByConvention(mv.value.0) { return Keep; }
    var (rd, rs) := mv.value;
    var at: Word := Following(p, a);
    var budget: nat := COPY_WALK;
    while !LineEndsAt(p, at, budget)
      invariant CopyFrom(p, a, rd, rs, at, budget) == CopyOutcome(p, a)
      decreases budget
    {
      var i := p.code[at].insn;
      if rd in Reads(i) {
        if StopsWalk(i) { return Keep; }
        if rd !in Writes(i) {
          var answer := Walk(p, Following(p, at), rd);
          if answer != Dead { return Keep; }
        }
        return Delete(PutEdit(p, map[a := Nop], at, Rename(i, rd, rs)), Following(p, at));
      }
      if rd in Writes(i) || rs in Writes(i) || StopsWalk(i) { return Keep; }
      at, budget := Following(p, at), budget - 1;
    }
    return Keep;
  }

  // ---- uses rewritten one after another ----

  /** How many uses were rewritten, how, where the last of them ends and whether it
      overwrote the register. */
  datatype Uses = Uses(n: nat, edits: map<Word, Insn>, end: Word, dead: bool, sums: Sums)

  /** The bytes of the definition and the uses before, of the uses after, and how many
      instructions have been walked and were spanned by the last use. */
  datatype Sums = Sums(before: nat, after: nat, seen: nat, span: nat)

  /** What stands at `at` becomes `j`, of `bytes` bytes. */
  function OneUse(p: Program, at: Word, u: Uses, j: Insn, dead: bool, bytes: nat): Uses
    requires at in p.code
  {
    Uses(u.n + 1, PutEdit(p, u.edits, at, j), Following(p, at), dead,
         Sums(u.sums.before + p.code[at].len, u.sums.after + bytes, u.sums.seen + 1, u.sums.seen + 1))
  }

  function Passing(u: Uses): Uses {
    u.(sums := u.sums.(seen := u.sums.seen + 1))
  }

  /** No use yet of what `bytes` bytes of `len` instructions build. */
  function NoUse(edits: map<Word, Insn>, at: Word, bytes: nat, len: nat): Uses {
    Uses(0, edits, at, false, Sums(bytes, 0, len, len))
  }

  /** What the uses so far are worth. */
  ghost predicate UsesRight(p: Program, a: Word, r: Reg, u: Uses) {
    u.n > 0 ==> Editable(p, Apply(p, u.edits), a, u.end, r) && (u.dead ==> Deletable(p, Apply(p, u.edits), a, u.end, r))
  }

  lemma PassingRight(p: Program, a: Word, r: Reg, u: Uses)
    requires UsesRight(p, a, r, u)
    ensures UsesRight(p, a, r, Passing(u))
  {
  }

  /** The deletion goes ahead if there were uses, it saves bytes and nothing reads `r`
      after them. */
  function Settled(p: Program, r: Reg, u: Uses): Outcome {
    if u.n == 0 || u.sums.after >= u.sums.before || (!u.dead && WalkAnswer(p, u.end, r) != Dead) then Keep
        else Delete(u.edits, u.end)
  }

  lemma SettledSound(p: Program, a: Word, r: Reg, u: Uses)
    requires WellFormed(p) && UsesRight(p, a, r, u) && Settled(p, r, u).Delete? && ZeroSafe(p, u.end, r)
    ensures Deletable(p, Apply(p, u.edits), a, u.end, r)
  {
    hide WellFormed, ZeroSafe, Editable, Deletable, WalkClosed, WalkAnswer, Apply, DeadAt;
    if !u.dead {
      WalkAnswers(p, u.end, r);
      AnsweredIsDead(p, u.end, r);
      DeadDeletes(p, Apply(p, u.edits), a, u.end, r);
    }
  }

  method Settle(p: Program, r: Reg, u: Uses) returns (o: Outcome)
    requires WellFormed(p)
    ensures o == Settled(p, r, u)
  {
    hide WellFormed, WalkAnswer, WalkClosed;
    if u.n == 0 || u.sums.after >= u.sums.before { return Keep; }
    if !u.dead {
      var answer := Walk(p, u.end, r);
      if answer != Dead { return Keep; }
    }
    return Delete(u.edits, u.end);
  }

  /** One use rewritten to `j`, the register kept. */
  lemma UseKept(p: Program, a: Word, at: Word, r: Reg, u: Uses, j: Insn, k: int, defs: Defs)
    requires WellFormed(p) && Line(p, u.edits, a, at, r, defs) && at in p.code && !IsTarget(p, at) && at in defs
             && defs[at] == Const(k)
    requires Carries(p.code[at].insn, j, r, Const(k), Const(k), false)
             && Carries(p.code[at].insn, j, r, Const(k), Anything, true)
    ensures var n := Following(p, at);
            at < n && Line(p, PutEdit(p, u.edits, at, j), a, n, r, defs[n as int := Const(k)])
            && (forall bytes: nat :: UsesRight(p, a, r, OneUse(p, at, u, j, false, bytes)))
  {
    hide WellFormed, Line, Carries, IsTarget, Apply, Edits, PutEdit;
    Placed(p, at);
    WrapOfWord(at + p.code[at].len);
    var n := Following(p, at);
    LineCloses(p, u.edits, a, at, r, defs, j);
    EditableBy(p, Apply(p, PutEdit(p, u.edits, at, j)), a, n, r, defs - {n as int});
    hide Editable;
    LineGrows(p, u.edits, a, at, r, defs, j, Const(k));
  }

  /** One use rewritten that overwrites it. */
  lemma UseEnds(p: Program, a: Word, at: Word, r: Reg, u: Uses, j: Insn, k: int, defs: Defs)
    requires WellFormed(p) && Line(p, u.edits, a, at, r, defs) && at in p.code && !IsTarget(p, at) && at in defs
             && defs[at] == Const(k)
    requires a < at && Carries(p.code[at].insn, j, r, Const(k), Anything, true) && r in Writes(p.code[at].insn)
    ensures forall bytes: nat :: UsesRight(p, a, r, OneUse(p, at, u, j, true, bytes))
  {
    hide WellFormed, Line, Carries, IsTarget, Apply, Edits, PutEdit, Writes;
    Placed(p, at);
    WrapOfWord(at + p.code[at].len);
    var n := Following(p, at);
    LineCloses(p, u.edits, a, at, r, defs, j);
    EditableBy(p, Apply(p, PutEdit(p, u.edits, at, j)), a, n, r, defs - {n as int});
    WrittenDeletes(p, Apply(p, PutEdit(p, u.edits, at, j)), a, at, n, r, defs - {n as int});
  }

  // ---- a zero's stores ----

  function NamesZero(i: Insn): Insn
    requires i.Store?
  {
    i.(data := 0)
  }

  predicate StoresIt(i: Insn, rt: Reg) {
    i.Store? && i.kind.IsStore() && !i.kind.IsFp() && i.data == rt && i.base != rt
  }

  /** The stores of `rt` from `at` on that can name x0. */
  function ZeroStores(p: Program, rt: Reg, zcb: bool, at: Word, u: Uses, budget: nat): Uses
    decreases budget
  {
    if LineEndsAt(p, at, budget) then u
    else
      var i, n := p.code[at].insn, Following(p, at);
      if StoresIt(i, rt) then
        ZeroStores(p, rt, zcb, n, OneUse(p, at, u, NamesZero(i), false, ZeroStoreBytes(i, p.code[at].len, zcb)),
                   budget - 1)
      else if rt in p.code[at].names || StopsWalk(i) then u
      else ZeroStores(p, rt, zcb, n, Passing(u), budget - 1)
  }

  function ZeroOutcome(p: Program, a: Word, zcb: bool): Outcome
    requires a in p.code
  {
    var c, n := DecodeConst(p.code[a].insn), Following(p, a);
    if !Readable(p, a) || c == None || c.value.1 != 0 || HeldByConvention(c.value.0) then Keep
    else Settled(p, c.value.0, ZeroStores(p, c.value.0, zcb, n, NoUse(map[a := Nop], n, p.code[a].len, 1), ZSTORE_WALK))
  }

  lemma {:induction false} ZeroStoresSound(p: Program, a: Word, rt: Reg, zcb: bool, at: Word, u: Uses, budget: nat,
                                           defs: Defs)
    requires WellFormed(p) && a < at && Line(p, u.edits, a, at, rt, defs) && at in defs && defs[at] == Const(0)
    requires UsesRight(p, a, rt, u)
    ensures UsesRight(p, a, rt, ZeroStores(p, rt, zcb, at, u, budget))
    decreases budget
  {
    hide WellFormed, Line, Carries, IsTarget, UsesRight, StopsWalk, NamesZero, Reads, Writes;
    if !LineEndsAt(p, at, budget) {
      var i := p.code[at].insn;
      LineHas(p, u.edits, a, at, rt, defs);
      Placed(p, at);
      WrapOfWord(at + p.code[at].len);
      var n := Following(p, at);
      if StoresIt(i, rt) {
        ZeroCarries(i, rt);
        UseKept(p, a, at, rt, u, NamesZero(i), 0, defs);
        ZeroStoresSound(p, a, rt, zcb, n, OneUse(p, at, u, NamesZero(i), false,
                                                 ZeroStoreBytes(i, p.code[at].len, zcb)), budget - 1,
                        defs[n as int := Const(0)]);
      } else if rt !in p.code[at].names && !StopsWalk(i) {
        Named(p, at, rt);
        PastOne(p, u.edits, a, at, rt, defs, Const(0));
        PassingRight(p, a, rt, u);
        ZeroStoresSound(p, a, rt, zcb, n, Passing(u), budget - 1, defs[n as int := Const(0)]);
      }
    }
  }

  lemma ZeroCarries(i: Insn, rt: Reg)
    requires StoresIt(i, rt) && rt != 0
    ensures Carries(i, NamesZero(i), rt, Const(0), Const(0), false)
            && Carries(i, NamesZero(i), rt, Const(0), Anything, true)
  {
    hide Carries;
    CarriesZeroStore(i, rt);
    CarriesLast(i, NamesZero(i), rt, Const(0), Const(0));
  }

  lemma ZeroIsSound(p: Program, a: Word, zcb: bool)
    requires WellFormed(p) && a in p.code && ZeroOutcome(p, a, zcb).Delete?
    requires ZeroSafe(p, ZeroOutcome(p, a, zcb).end, XDest(p.code[a].insn))
    ensures Deletable(p, Apply(p, ZeroOutcome(p, a, zcb).edits), a, ZeroOutcome(p, a, zcb).end, XDest(p.code[a].insn))
  {
    hide Deletable, Editable, Line, Carries, Defines, IsTarget, ZeroStores, Apply, WellFormed, ZeroSafe;
    var rt := DecodeConst(p.code[a].insn).value.0;
    DefinesConst(p.code[a].insn, rt, 0);
    LineStarts(p, a, rt, Const(0));
    Placed(p, a);
    var n := Following(p, a);
    WrapOfWord(a + p.code[a].len);
    var u := NoUse(map[a := Nop], n, p.code[a].len, 1);
    ZeroStoresSound(p, a, rt, zcb, n, u, ZSTORE_WALK, map[n as int := Const(0)]);
    SettledSound(p, a, rt, ZeroStores(p, rt, zcb, n, u, ZSTORE_WALK));
  }

  /** A zero whose stores can all name x0. */
  method CheckZeroForStore(p: Program, a: Word, zcb: bool) returns (o: Outcome)
    requires WellFormed(p) && a in p.code
    ensures o == ZeroOutcome(p, a, zcb)
    ensures o.Delete? && ZeroSafe(p, o.end, XDest(p.code[a].insn)) ==>
              Deletable(p, Apply(p, o.edits), a, o.end, XDest(p.code[a].insn))
  {
    hide WellFormed, Apply, IsTarget, ZeroSafe, Deletable, PutEdit, Settled, StopsWalk;
    if ZeroOutcome(p, a, zcb).Delete? && ZeroSafe(p, ZeroOutcome(p, a, zcb).end, XDest(p.code[a].insn)) {
      ZeroIsSound(p, a, zcb);
    }
    if !Readable(p, a) { return Keep; }
    var c := DecodeConst(p.code[a].insn);
    if c == None || c.value.1 != 0 || HeldByConvention(c.value.0) { return Keep; }
    var rt, at := c.value.0, Following(p, a);
    var u := NoUse(map[a := Nop], at, p.code[a].len, 1);
    ghost var u0 := u;
    var budget: nat := ZSTORE_WALK;
    while !LineEndsAt(p, at, budget)
      invariant ZeroStores(p, rt, zcb, at, u, budget) == ZeroStores(p, rt, zcb, Following(p, a), u0, ZSTORE_WALK)
      decreases budget
    {
      var i, n := p.code[at].insn, Following(p, at);
      if StoresIt(i, rt) {
        u := OneUse(p, at, u, NamesZero(i), false, ZeroStoreBytes(i, p.code[at].len, zcb));
      } else if rt in p.code[at].names || StopsWalk(i) {
        break;
      } else {
        u := Passing(u);
      }
      at, budget := n, budget - 1;
    }
    o := Settle(p, rt, u);
  }

  // ---- a constant's uses ----

  /** The operations from `at` on that read `r`, which holds `k`, and take it as an
      immediate: the mask forms when `masks`, the others when not. */
  function ConstUses(p: Program, r: Reg, k: int, masks: bool, zba: bool, zbb: bool, at: Word, u: Uses,
                     budget: nat): Uses
    decreases budget
  {
    if LineEndsAt(p, at, budget) then u
    else
      var i, n := p.code[at].insn, Following(p, at);
      var f := ImmForm(i, r, k, zba, zbb);
      if f.Some? && IsMaskForm(f.value) == masks then
        var more := OneUse(p, at, u, f.value, i.rd == r, ImmBytes(f.value, p.code[at].len));
        if i.rd == r then more else ConstUses(p, r, k, masks, zba, zbb, n, more, budget - 1)
      else if r in p.code[at].names || StopsWalk(i) then u
      else ConstUses(p, r, k, masks, zba, zbb, n, Passing(u), budget - 1)
  }

  lemma {:induction false} ConstUsesSound(p: Program, a: Word, r: Reg, k: int, masks: bool, zba: bool, zbb: bool,
                                          at: Word, u: Uses,
                                          budget: nat, defs: Defs)
    requires WellFormed(p) && a < at && Line(p, u.edits, a, at, r, defs) && at in defs && defs[at] == Const(k)
             && Is64(k)
    requires UsesRight(p, a, r, u)
    ensures UsesRight(p, a, r, ConstUses(p, r, k, masks, zba, zbb, at, u, budget))
    decreases budget
  {
    hide WellFormed, Line, Carries, IsTarget, UsesRight, StopsWalk, ImmForm, IsMaskForm, Reads, Writes;
    if !LineEndsAt(p, at, budget) {
      var i := p.code[at].insn;
      LineHas(p, u.edits, a, at, r, defs);
      Placed(p, at);
      WrapOfWord(at + p.code[at].len);
      var n, f := Following(p, at), ImmForm(i, r, k, zba, zbb);
      if f.Some? && IsMaskForm(f.value) == masks {
        ImmCarries(i, r, k, zba, zbb);
        if i.rd == r {
          UseEnds(p, a, at, r, u, f.value, k, defs);
        } else {
          UseKept(p, a, at, r, u, f.value, k, defs);
          ConstUsesSound(p, a, r, k, masks, zba, zbb, n,
                         OneUse(p, at, u, f.value, false, ImmBytes(f.value, p.code[at].len)), budget - 1,
                         defs[n as int := Const(k)]);
        }
      } else if r !in p.code[at].names && !StopsWalk(i) {
        Named(p, at, r);
        PastOne(p, u.edits, a, at, r, defs, Const(k));
        PassingRight(p, a, r, u);
        ConstUsesSound(p, a, r, k, masks, zba, zbb, n, Passing(u), budget - 1, defs[n as int := Const(k)]);
      }
    }
  }

  lemma ImmCarries(i: Insn, r: Reg, k: int, zba: bool, zbb: bool)
    requires ImmForm(i, r, k, zba, zbb).Some? && r != 0 && Is64(k)
    ensures i.Alu?
    ensures var j := ImmForm(i, r, k, zba, zbb).value;
            && Carries(i, j, r, Const(k), Anything, true) && (i.rd == r ==> r in Writes(i))
            && (i.rd != r ==> Carries(i, j, r, Const(k), Const(k), false))
  {
    ImmFormShape(i, r, k, zba, zbb);
    assert i.Alu?;
    hide Carries, ImmForm, Reads, Writes;
    CarriesImm(i, r, k, zba, zbb);
    if i.rd != r {
      CarriesLast(i, ImmForm(i, r, k, zba, zbb).value, r, Const(k), Const(k));
    }
  }

  /** Turns every operation that reads `r`, which holds `k`, into its immediate
      form until something else might name it. A use that writes `r` ends the walk
      with it dead. */
  method ConstUseWalk(p: Program, r: Reg, k: int, masks: bool, zba: bool, zbb: bool, at0: Word,
                      u0: Uses) returns (u: Uses)
    ensures u == ConstUses(p, r, k, masks, zba, zbb, at0, u0, CONST_WALK)
  {
    hide IsTarget, ImmForm, IsMaskForm, PutEdit, StopsWalk;
    var at: Word := at0;
    var budget: nat := CONST_WALK;
    u := u0;
    while !LineEndsAt(p, at, budget)
      invariant ConstUses(p, r, k, masks, zba, zbb, at, u, budget) ==
                ConstUses(p, r, k, masks, zba, zbb, at0, u0, CONST_WALK)
      decreases budget
    {
      var i, n := p.code[at].insn, Following(p, at);
      var f := ImmForm(i, r, k, zba, zbb);
      if f.Some? && IsMaskForm(f.value) == masks {
        u := OneUse(p, at, u, f.value, i.rd == r, ImmBytes(f.value, p.code[at].len));
        if i.rd == r { return; }
      } else if r in p.code[at].names || StopsWalk(i) {
        break;
      } else {
        u := Passing(u);
      }
      at, budget := n, budget - 1;
    }
  }

  lemma LineHas(p: Program, e: map<Word, Insn>, a: Word, at: Word, r: Reg, defs: Defs)
    requires Line(p, e, a, at, r, defs)
    ensures at in defs && r != 0
  {
    hide Defines, Carried, Contiguous;
  }

  function ConstOutcome(p: Program, a: Word, zba: bool, zbb: bool): Outcome
    requires a in p.code
  {
    var c, n := DecodeConst(p.code[a].insn), Following(p, a);
    if !Readable(p, a) || c == None || HeldByConvention(c.value.0) then Keep
    else
      var (rc, k) := c.value;
      Settled(p, rc, ConstUses(p, rc, k, false, zba, zbb, n, NoUse(map[a := Nop], n, p.code[a].len, 1), CONST_WALK))
  }

  lemma ConstIsSound(p: Program, a: Word, zba: bool, zbb: bool)
    requires WellFormed(p) && a in p.code && ConstOutcome(p, a, zba, zbb).Delete?
    requires ZeroSafe(p, ConstOutcome(p, a, zba, zbb).end, XDest(p.code[a].insn))
    ensures var o := ConstOutcome(p, a, zba, zbb); Deletable(p, Apply(p, o.edits), a, o.end, XDest(p.code[a].insn))
  {
    hide Deletable, Editable, Line, Carries, Defines, IsTarget, ConstUses, Apply, WellFormed, ZeroSafe;
    var (rc, k) := DecodeConst(p.code[a].insn).value;
    Placed(p, a);
    DefinesConst(p.code[a].insn, rc, k);
    LineStarts(p, a, rc, Const(k));
    var n := Following(p, a);
    WrapOfWord(a + p.code[a].len);
    var u := NoUse(map[a := Nop], n, p.code[a].len, 1);
    ConstUsesSound(p, a, rc, k, false, zba, zbb, n, u, CONST_WALK, map[n as int := Const(k)]);
    SettledSound(p, a, rc, ConstUses(p, rc, k, false, zba, zbb, n, u, CONST_WALK));
  }

  /** A constant every reader can take as an immediate. */
  method CheckConstForImm(p: Program, a: Word, zba: bool, zbb: bool) returns (o: Outcome)
    requires WellFormed(p) && a in p.code
    ensures o == ConstOutcome(p, a, zba, zbb)
    ensures o.Delete? && ZeroSafe(p, o.end, XDest(p.code[a].insn)) ==>
              Deletable(p, Apply(p, o.edits), a, o.end, XDest(p.code[a].insn))
  {
    hide WellFormed, Apply, ZeroSafe, Deletable, Settled, ConstUses;
    if ConstOutcome(p, a, zba, zbb).Delete? && ZeroSafe(p, ConstOutcome(p, a, zba, zbb).end, XDest(p.code[a].insn)) {
      ConstIsSound(p, a, zba, zbb);
    }
    if !Readable(p, a) { return Keep; }
    var c := DecodeConst(p.code[a].insn);
    if c == None || HeldByConvention(c.value.0) { return Keep; }
    var n := Following(p, a);
    var u := ConstUseWalk(p, c.value.0, c.value.1, false, zba, zbb, n, NoUse(map[a := Nop], n, p.code[a].len, 1));
    o := Settle(p, c.value.0, u);
  }

  // ---- a mask's uses ----

  /** A chain that builds a constant: where it stands, its instructions deleted, what
      it has built, in how many and in how many bytes. */
  datatype Built = Built(at: Word, edits: map<Word, Insn>, k: int, len: nat, bytes: nat)

  /** The chain followed to its last step. */
  function BuildOn(p: Program, rc: Reg, b: Built): Built
    requires WellFormed(p)
    decreases W64 - b.at
  {
    if b.at !in p.code || !Readable(p, b.at) || !IsStep(p.code[b.at].insn, rc) || IsTarget(p, b.at) then b
    else
      NextLater(p, b.at);
      BuildOn(p, rc, OneStep(p, b))
  }

  function OneStep(p: Program, b: Built): Built
    requires b.at in p.code
  {
    Built(Following(p, b.at), PutEdit(p, b.edits, b.at, Nop), Signed(StepValue(p.code[b.at].insn, Wrap(b.k))),
          b.len + 1,
          b.bytes + p.code[b.at].len)
  }

  lemma NextLater(p: Program, at: Word)
    requires WellFormed(p) && at in p.code
    ensures at < Following(p, at)
  {
    hide WellFormed;
    Placed(p, at);
    WrapOfWord(at + p.code[at].len);
  }

  ghost predicate BuiltRight(p: Program, a: Word, rc: Reg, b: Built, defs: Defs) {
    a < b.at && Line(p, b.edits, a, b.at, rc, defs) && b.at in defs && defs[b.at] == Const(b.k) && Is64(b.k)
  }

  lemma {:induction false} BuildSound(p: Program, a: Word, rc: Reg, b: Built, defs: Defs) returns (defs': Defs)
    requires WellFormed(p) && BuiltRight(p, a, rc, b, defs)
    ensures BuiltRight(p, a, rc, BuildOn(p, rc, b), defs')
    decreases W64 - b.at
  {
    hide WellFormed, IsTarget, Line, Carries, StepValue, IsStep, Readable;
    defs' := defs;
    if b.at in p.code && Readable(p, b.at) && IsStep(p.code[b.at].insn, rc) && !IsTarget(p, b.at) {
      var i, n := p.code[b.at].insn, Following(p, b.at);
      NextLater(p, b.at);
      LineHas(p, b.edits, a, b.at, rc, defs);
      var v: Word := StepValue(i, Wrap(b.k));
      SignedWrap(v);
      assert PlainInsn(i) by { Placed(p, b.at); }
      CarriesStep(i, rc, b.k, Signed(v));
      LineGrows(p, b.edits, a, b.at, rc, defs, Nop, Const(Signed(v)));
      WrapOfWord(b.at + p.code[b.at].len);
      defs' := BuildSound(p, a, rc, OneStep(p, b), defs[n as int := Const(Signed(v))]);
    }
  }

  function MaskOutcome(p: Program, a: Word, zba: bool, zbb: bool): Outcome
    requires WellFormed(p) && a in p.code
  {
    var c, n := DecodeConst(p.code[a].insn), Following(p, a);
    if !Readable(p, a) || c == None || HeldByConvention(c.value.0) then Keep
    else
      var rc, b := c.value.0, BuildOn(p, c.value.0, Built(n, map[a := Nop], c.value.1, 1, p.code[a].len));
      if b.len < 2 || b.k < 2048 || !IsMask(Wrap(b.k)) then Keep
      else Settled(p, rc, ConstUses(p, rc, b.k, true, zba, zbb, b.at, NoUse(b.edits, b.at, b.bytes, b.len), CONST_WALK))
  }

  lemma MaskIsSound(p: Program, a: Word, zba: bool, zbb: bool)
    requires WellFormed(p) && a in p.code && MaskOutcome(p, a, zba, zbb).Delete?
    requires ZeroSafe(p, MaskOutcome(p, a, zba, zbb).end, XDest(p.code[a].insn))
    ensures var o := MaskOutcome(p, a, zba, zbb); Deletable(p, Apply(p, o.edits), a, o.end, XDest(p.code[a].insn))
  {
    hide Deletable, Editable, Line, Carries, Defines, IsTarget, ConstUses, BuildOn, Apply, WellFormed, ZeroSafe, IsMask;
    var (rc, k) := DecodeConst(p.code[a].insn).value;
    Placed(p, a);
    DefinesConst(p.code[a].insn, rc, k);
    LineStarts(p, a, rc, Const(k));
    var n := Following(p, a);
    WrapOfWord(a + p.code[a].len);
    var b := BuildOn(p, rc, Built(n, map[a := Nop], k, 1, p.code[a].len));
    var defs := BuildSound(p, a, rc, Built(n, map[a := Nop], k, 1, p.code[a].len), map[n as int := Const(k)]);
    var u := NoUse(b.edits, b.at, b.bytes, b.len);
    ConstUsesSound(p, a, rc, b.k, true, zba, zbb, b.at, u, CONST_WALK, defs);
    SettledSound(p, a, rc, ConstUses(p, rc, b.k, true, zba, zbb, b.at, u, CONST_WALK));
  }

  /** A mask built for `and`s that a zero extension or a pair of shifts can do. */
  method CheckMaskForZext(p: Program, a: Word, zba: bool, zbb: bool) returns (o: Outcome)
    requires WellFormed(p) && a in p.code
    ensures o == MaskOutcome(p, a, zba, zbb)
    ensures o.Delete? && ZeroSafe(p, o.end, XDest(p.code[a].insn)) ==>
              Deletable(p, Apply(p, o.edits), a, o.end, XDest(p.code[a].insn))
  {
    hide WellFormed, Apply, ZeroSafe, Deletable, Settled, ConstUses, IsTarget, IsStep, OneStep, IsMask;
    if MaskOutcome(p, a, zba, zbb).Delete? && ZeroSafe(p, MaskOutcome(p, a, zba, zbb).end, XDest(p.code[a].insn)) {
      MaskIsSound(p, a, zba, zbb);
    }
    if !Readable(p, a) { return Keep; }
    var c := DecodeConst(p.code[a].insn);
    if c == None || HeldByConvention(c.value.0) { return Keep; }
    var rc, b := c.value.0, Built(Following(p, a), map[a := Nop], c.value.1, 1, p.code[a].len);
    ghost var b0 := b;
    while b.at in p.code && Readable(p, b.at) && IsStep(p.code[b.at].insn, rc) && !IsTarget(p, b.at)
      invariant BuildOn(p, rc, b) == BuildOn(p, rc, b0)
      decreases W64 - b.at
    {
      NextLater(p, b.at);
      Steps(p, b);
      b := OneStep(p, b);
    }
    if b.len < 2 || b.k < 2048 || !IsMask(Wrap(b.k)) { return Keep; }
    var u := ConstUseWalk(p, rc, b.k, true, zba, zbb, b.at, NoUse(b.edits, b.at, b.bytes, b.len));
    o := Settle(p, rc, u);
  }

  lemma Steps(p: Program, b: Built)
    requires b.at in p.code
    ensures OneStep(p, b).at == Following(p, b.at)
  {
    hide StepValue;
  }

  /** What every one of these deletions promises, over whole runs. */
  lemma DeletableIsInvisible(p: Program, q: Program, a: Word, end: Word, r: Reg, s: State, n: nat)
    requires WellFormed(p) && Deletable(p, q, a, end, r) && NoLandingInside(p, a, end) && !(a < s.pc < end)
    ensures var t, u := Run(p, s, n), Run(q, s, n);
            u == SetX(t, r, X(u, r)) && (u == t || DeadAt(p, t.pc, r) || a < t.pc < end)
  {
    hide Deletes, Holds, DeadAt;
    var defs: Defs :| Deletes(p, q, a, end, r, defs);
    DeletionIsInvisible(p, q, a, end, r, defs, s, n);
  }
}
