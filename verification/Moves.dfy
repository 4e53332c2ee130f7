/** Exactly which moves of one half of a pair to the other leave the same state:
    what an `auipc` computes shows where it stands. */
module Moves {
  import opened Words
  import opened Machine
  import opened Fusion
  import opened Reorder

  function Bytes(code: seq<Coded>): nat {
    if code == [] then 0 else code[0].len + Bytes(code[1..])
  }

  // ---- what becomes of a register ----

  /** The register is written before anything reads it: what it held is lost. */
  predicate Shielded(code: seq<Coded>, r: Reg) {
    r == 0 || (code != [] && r !in Reads(code[0].insn) && (r in Writes(code[0].insn) || Shielded(code[1..], r)))
  }

  predicate AddsTo(i: Insn, r: Reg) {
    i.Alu? && i.op == Add && i.rd == r && i.rs1 == r && i.src.K?
  }

  /** Nothing writes the register but to add a constant to it. */
  predicate Kept(code: seq<Coded>, r: Reg) {
    code == [] || ((r in Writes(code[0].insn) ==> AddsTo(code[0].insn, r)) && Kept(code[1..], r))
  }

  function Added(code: seq<Coded>, r: Reg): int {
    if code == [] then 0 else (if AddsTo(code[0].insn, r) then code[0].insn.src.k else 0) + Added(code[1..], r)
  }

  lemma {:induction false} ShieldedIgnores(code: seq<Coded>, r: Reg, s: State, v: Word)
    requires Shielded(code, r)
    ensures Through(code, SetX(s, r, v)) == Through(code, s)
  {
    hide Effect, Reads, Writes;
    if r != 0 {
      EffectIgnores(code[0].insn, code[0].len, s, r, v);
      if r !in Writes(code[0].insn) {
        ShieldedIgnores(code[1..], r, One(code[0], s), v);
      }
    }
  }

  lemma WrapAdd(a: int, k: int)
    ensures Wrap(Wrap(a) + k) == Wrap(a + k)
  {
  }

  lemma Nudged(a: int, k: int)
    requires 0 < k < W64
    ensures Wrap(a + k) != Wrap(a)
  {
  }

  lemma {:induction false} KeptValue(code: seq<Coded>, r: Reg, s: State)
    requires Kept(code, r) && r != 0
    ensures X(Through(code, s), r) == Wrap(X(s, r) + Added(code, r))
  {
    hide One, Writes, AddsTo;
    if code == [] {
      WrapOfWord(X(s, r));
    } else {
      KeptValue(code[1..], r, One(code[0], s));
      KeptOne(code[0], r, s);
      AddedFirst(code, r);
      hide Through, Added, X, Kept;
      WrapAdd(X(s, r) + Added([code[0]], r), Added(code[1..], r));
    }
  }

  lemma AddedFirst(code: seq<Coded>, r: Reg)
    requires code != []
    ensures Added(code, r) == Added([code[0]], r) + Added(code[1..], r)
  {
    assert [code[0]][1..] == [];
  }

  lemma KeptOne(d: Coded, r: Reg, s: State)
    requires (r in Writes(d.insn) ==> AddsTo(d.insn, r)) && r != 0
    ensures X(One(d, s), r) == Wrap(X(s, r) + Added([d], r))
  {
    hide Effect;
    assert [d][1..] == [];
    if AddsTo(d.insn, r) {
      assert PureDef(d.insn);
      PureEffect(d.insn, d.len, s);
      WrapAdd(d.insn.src.k, X(s, r));
    } else {
      EffectKeeps(d.insn, d.len, s, r);
      WrapOfWord(X(s, r));
    }
  }

  lemma {:induction false} PcAfter(code: seq<Coded>, s: State)
    ensures Through(code, s).pc == Wrap(s.pc + Bytes(code))
  {
    if code == [] {
      WrapOfWord(s.pc);
    } else {
      PcAfter(code[1..], One(code[0], s));
      WrapAdd(s.pc + code[0].len, Bytes(code[1..]));
    }
  }

  lemma ThreeWraps(a: int, i: int, k: int, u: Word, v: Word, w: Word)
    requires u == Wrap(a) && v == Wrap(u + i) && w == Wrap(v + k)
    ensures w == Wrap(a + i + k)
  {
    WrapAdd(a, i);
    WrapAdd(a + i, k);
  }

  lemma Formed(d: Coded, s: State)
    requires d.insn.Auipc? && d.insn.rd != 0
    ensures X(One(d, s), d.insn.rd) == Wrap(s.pc + d.insn.imm)
  {
  }

  /** Where an address is formed and kept, it shows how many bytes came before. */
  lemma LeavesAddress(a: seq<Coded>, d: Coded, c: seq<Coded>, s: State)
    requires d.insn.Auipc? && d.insn.rd != 0 && Kept(c, d.insn.rd)
    ensures X(Through(a + [d] + c, s), d.insn.rd) == Wrap(s.pc + Bytes(a) + d.insn.imm + Added(c, d.insn.rd))
  {
    hide *;
    var r, t := d.insn.rd, Through(a, s);
    var u := One(d, t);
    PcAfter(a, s);
    AfterOne(a, d, c, s);
    Formed(d, t);
    KeptValue(c, r, u);
    ThreeWraps(s.pc + Bytes(a), d.insn.imm, Added(c, r), t.pc, X(u, r), X(Through(c, u), r));
  }

  lemma {:induction false} BytesAppend(a: seq<Coded>, b: seq<Coded>)
    ensures Bytes(a + b) == Bytes(a) + Bytes(b)
  {
    if a == [] {
      assert a + b == b;
    } else {
      assert (a + b)[1..] == a[1..] + b;
      BytesAppend(a[1..], b);
    }
  }

  /** With the same code after it but for something that leaves its register alone, the
      address is another wherever the code before it has grown. */
  lemma AddressMoves(a: seq<Coded>, a': seq<Coded>, d: Coded, c: seq<Coded>, c': seq<Coded>, s: State)
    requires d.insn.Auipc? && d.insn.rd != 0 && Kept(c, d.insn.rd) && Kept(c', d.insn.rd)
    requires Added(c, d.insn.rd) == Added(c', d.insn.rd) && 0 < Bytes(a) - Bytes(a') < W64
    ensures X(Through(a + [d] + c, s), d.insn.rd) != X(Through(a' + [d] + c', s), d.insn.rd)
  {
    hide Kept, Added, Bytes, Through;
    LeavesAddress(a, d, c, s);
    LeavesAddress(a', d, c', s);
    Nudged(s.pc + Bytes(a') + d.insn.imm + Added(c, d.insn.rd), Bytes(a) - Bytes(a'));
  }

  /** Something that does not name the register can be put in anywhere. */
  lemma {:induction false} Inserted(a: seq<Coded>, x: Coded, b: seq<Coded>, r: Reg)
    requires r !in Writes(x.insn) && r != 0
    ensures Kept(a + [x] + b, r) == Kept(a + b, r)
    ensures Added(a + [x] + b, r) == Added(a + b, r)
    ensures r !in Reads(x.insn) ==> Shielded(a + [x] + b, r) == Shielded(a + b, r)
  {
    hide Reads;
    assert !AddsTo(x.insn, r);
    if a == [] {
      assert a + [x] + b == [x] + b && a + b == b && ([x] + b)[1..] == b;
    } else {
      hide Writes, AddsTo;
      Inserted(a[1..], x, b, r);
      assert (a + [x] + b)[1..] == a[1..] + [x] + b && (a + b)[1..] == a[1..] + b;
    }
  }

  // ---- a load through the address ----

  /** An integer register is loaded through `r`. */
  predicate LoadsThrough(i: Insn, r: Reg) {
    i.Load? && !i.kind.IsFp() && !i.kind.IsStore() && i.base == r && i.rd != 0
  }

  predicate NoStores(code: seq<Coded>) {
    forall k :: 0 <= k < |code| ==> !WritesMem(code[k].insn)
  }

  lemma {:induction false} MemoryStays(code: seq<Coded>, s: State)
    requires NoStores(code)
    ensures Through(code, s).mem == s.mem
  {
    hide Effect, WritesMem;
    if code != [] {
      EffectKeeps(code[0].insn, code[0].len, s, 1);
      MemoryStays(code[1..], One(code[0], s));
    }
  }

  lemma LoadedValue(l: Coded, m: Memory, s: State, k: MemKind, q: Reg, r: Reg, off: int)
    requires l.insn == Load(k, q, r, off) && q != 0 && !k.IsStore() && !k.IsFp() && m == s.mem
    ensures X(One(l, s), q) == Extend(k, LoadLE(m, Wrap(X(s, r) + off), k.Width()))
  {
    hide LoadLE, Extend;
  }

  lemma LowByte(k: MemKind, m: Memory, a: Word)
    requires !k.IsFp() && !k.IsStore()
    ensures Extend(k, LoadLE(m, a, k.Width())) % 256 == Byte0(m, a)
  {
    var v := LoadLE(m, a, k.Width());
    assert v == Byte0(m, a) + 256 * LoadLE(m, Next(a), k.Width() - 1);
    LowOf(v, Byte0(m, a), LoadLE(m, Next(a), k.Width() - 1));
    hide LoadLE;
    match k {
      case LB => ByteOfSext(v, 0x100);
      case LH => ByteOfSext(v, 0x1_0000);
      case LW => ByteOfSext(v, W32);
      case _ => ByteOfWrap(v);
    }
  }

  lemma LowOf(v: nat, b: Byte, q: nat)
    requires v == b + 256 * q
    ensures v % 256 == b
  {
    DivModUnique(v, 256, q, b);
  }

  lemma ByteOfWrap(v: nat)
    ensures Wrap(v) % 256 == v % 256
  {
    var q, r := v / W64, v % W64;
    assert v == 256 * (q * 0x100_0000_0000_0000 + r / 256) + r % 256;
    DivModUnique(v, 256, q * 0x100_0000_0000_0000 + r / 256, r % 256);
  }

  lemma ByteOfSext(v: nat, m: int)
    requires m == 0x100 || m == 0x1_0000 || m == W32
    ensures Sext(v, m) % 256 == v % 256
  {
    var q, r := v / m, v % m;
    var n := m / 256;
    assert m == 256 * n && v == 256 * (q * n + r / 256) + r % 256;
    DivModUnique(v, 256, q * n + r / 256, r % 256);
    var c := (W64 - m) / 256;
    assert W64 - m == 256 * c;
    DivModUnique(r + (W64 - m), 256, c + r / 256, r % 256);
  }

  /** What is loaded through an address and kept shows the memory there. */
  lemma LeavesLoaded(a: seq<Coded>, d: Coded, m: seq<Coded>, l: Coded, c: seq<Coded>, s: State,
                     r: Reg, imm: int, k: MemKind, q: Reg, off: int)
    requires d.insn == Auipc(r, imm) && l.insn == Load(k, q, r, off) && r != 0 && q != 0 && !k.IsStore() && !k.IsFp()
    requires NoStores(a) && NoStores(m) && Kept(m, r) && Kept(c, q)
    ensures X(Through(a + [d] + m + [l] + c, s), q) ==
            Wrap(Extend(k, LoadLE(s.mem, Wrap(s.pc + Bytes(a) + imm + Added(m, r) + off), k.Width())) + Added(c, q))
  {
    hide *;
    var before := a + [d] + m;
    var t := Through(before, s);
    LeavesAddress(a, d, m, s);
    NoneStored(a, d, m);
    MemoryStays(before, s);
    LoadedValue(l, s.mem, t, k, q, r, off);
    LoadKept(before, l, c, s, q);
    WrapThen(s.pc + Bytes(a) + imm + Added(m, r), off, X(t, r));
  }

  lemma WrapThen(a: int, k: int, u: Word)
    requires u == Wrap(a)
    ensures Wrap(u + k) == Wrap(a + k)
  {
    WrapAdd(a, k);
  }

  lemma NoneStored(a: seq<Coded>, d: Coded, m: seq<Coded>)
    requires NoStores(a) && NoStores(m) && d.insn.Auipc?
    ensures NoStores(a + [d] + m)
  {
    assert !WritesMem(d.insn);
    hide WritesMem;
  }

  lemma LoadKept(before: seq<Coded>, l: Coded, c: seq<Coded>, s: State, q: Reg)
    requires q != 0 && Kept(c, q)
    ensures X(Through(before + [l] + c, s), q) == Wrap(X(One(l, Through(before, s)), q) + Added(c, q))
  {
    hide *;
    AfterOne(before, l, c, s);
    KeptValue(c, q, One(l, Through(before, s)));
  }

  lemma AfterOne(a: seq<Coded>, l: Coded, c: seq<Coded>, s: State)
    ensures Through(a + [l] + c, s) == Through(c, One(l, Through(a, s)))
  {
    hide One;
    var t := Through(a, s);
    ThroughAppend(a, [l] + c, s);
    assert a + [l] + c == a + ([l] + c);
    assert ([l] + c)[1..] == c && ([l] + c)[0] == l;
    assert Through([l] + c, t) == Through(c, One(l, t));
  }

  /** One byte set, at `at`. */
  ghost function OneSet(at: Word): State {
    State(0, seq(32, i => 0), seq(32, i => 0), map[at := 1])
  }

  /** With the same code around it, the address moved, some memory shows it. */
  lemma LoadMoves(a: seq<Coded>, a': seq<Coded>, d: Coded, m: seq<Coded>, l: Coded, c: seq<Coded>,
                  c': seq<Coded>) returns (s: State)
    requires d.insn.Auipc? && d.insn.rd != 0 && LoadsThrough(l.insn, d.insn.rd)
    requires NoStores(a) && NoStores(a') && NoStores(m) && Kept(m, d.insn.rd) && Kept(c, l.insn.rd)
             && Kept(c', l.insn.rd)
    requires Added(c, l.insn.rd) == Added(c', l.insn.rd) && 0 < Bytes(a) - Bytes(a') < W64
    ensures X(Through(a + [d] + m + [l] + c, s), l.insn.rd) != X(Through(a' + [d] + m + [l] + c', s), l.insn.rd)
  {
    hide Kept, Added, Bytes, Through, LoadLE, Extend, NoStores;
    var l' := l.insn;
    var k: int := d.insn.imm + Added(m, d.insn.rd) + l.insn.off;
    var at, at' := Wrap(0 + Bytes(a) + d.insn.imm + Added(m, d.insn.rd) + l.insn.off),
                   Wrap(0 + Bytes(a') + d.insn.imm + Added(m, d.insn.rd) + l.insn.off);
    s := OneSet(at);
    LeavesLoaded(a, d, m, l, c, s, d.insn.rd, d.insn.imm, l'.kind, l'.rd, l'.off);
    LeavesLoaded(a', d, m, l, c', s, d.insn.rd, d.insn.imm, l'.kind, l'.rd, l'.off);
    Nudged(Bytes(a') + k, Bytes(a) - Bytes(a'));
    LowByte(l.insn.kind, s.mem, at);
    LowByte(l.insn.kind, s.mem, at');
    var v, v' := Extend(l.insn.kind, LoadLE(s.mem, at, l.insn.kind.Width())),
        Extend(l.insn.kind, LoadLE(s.mem, at', l.insn.kind.Width()));
    assert v != v';
    SameSum(v, v', Added(c, l.insn.rd));
  }

  lemma SameSum(v: Word, w: Word, k: int)
    ensures Wrap(v + k) == Wrap(w + k) ==> v == w
  {
  }

  // ---- the instructions passed over ----

  /** None of them is a transfer. */
  predicate InLine(us: seq<Unit>) {
    forall k :: 0 <= k < |us| ==> IsStraight(us[k].insn) && !us[k].insn.Then?
  }

  /** What follows number `k` up to the second half. */
  function After(between: seq<Unit>, k: nat, b: Unit): seq<Coded>
    requires k < |between|
  {
    Plains(between[k + 1..]) + [Plain(b)]
  }

  predicate ShieldedAt(between: seq<Unit>, k: nat, b: Unit)
    requires k < |between|
  {
    between[k].insn.Auipc? ==> Shielded(After(between, k, b), between[k].insn.rd)
  }

  predicate KeptAt(between: seq<Unit>, k: nat, b: Unit)
    requires k < |between|
  {
    between[k].insn.Auipc? && between[k].insn.rd != 0 && Kept(After(between, k, b), between[k].insn.rd)
  }

  /** No address formed on the way is used: each is written over first. */
  predicate AllShielded(between: seq<Unit>, b: Unit) {
    forall k :: 0 <= k < |between| ==> ShieldedAt(between, k, b)
  }

  /** With no store before it, number `n` loads through the address number `k` forms, and
      what it loads is kept. */
  predicate FetchedBy(between: seq<Unit>, k: nat, n: nat, b: Unit)
    requires k < n < |between|
  {
    var d, l := between[k].insn, between[n].insn;
    && d.Auipc? && d.rd != 0 && LoadsThrough(l, d.rd) && NoStores(Plains(between[..n]))
    && Kept(Plains(between[k + 1..n]), d.rd) && Kept(Plains(between[n + 1..]) + [Plain(b)], l.rd)
  }

  predicate FetchedAt(between: seq<Unit>, k: nat, b: Unit)
    requires k < |between|
  {
    exists n :: k < n < |between| && FetchedBy(between, k, n, b)
  }

  /** Each is written over first, or kept, or what is loaded through it is. */
  predicate AllClear(between: seq<Unit>, b: Unit) {
    forall k :: 0 <= k < |between| ==> ShieldedAt(between, k, b) || KeptAt(between, k, b) || FetchedAt(between, k, b)
  }

  /** Any other value in place of an address. */
  function Blank1(u: Unit): Unit {
    if u.insn.Auipc? then u.(insn := Lui(u.insn.rd, 0)) else u
  }

  function Blanked(us: seq<Unit>): (r: seq<Unit>)
    ensures |r| == |us| && forall k :: 0 <= k < |us| ==> r[k] == Blank1(us[k])
  {
    seq(|us|, k requires 0 <= k < |us| => Blank1(us[k]))
  }

  lemma {:induction false} BlankedNames(us: seq<Unit>)
    ensures AllReads(Blanked(us)) == AllReads(us) && AllWrites(Blanked(us)) == AllWrites(us)
    ensures AllPure(Blanked(us)) == AllPure(us)
    ensures InLine(us) ==> NoPc(Blanked(us))
  {
    assert forall k :: 0 <= k < |us| ==> PureDef(Blank1(us[k]).insn) == PureDef(us[k].insn);
    if us != [] {
      BlankedNames(us[1..]);
      assert Blanked(us)[1..] == Blanked(us[1..]);
    }
  }

  lemma PlainsRest(us: seq<Unit>)
    requires us != []
    ensures Plains(us)[1..] == Plains(us[1..])
  {
  }

  /** Where nothing uses the addresses any other values do. */
  lemma {:induction false} BlankedSame(us: seq<Unit>, tail: seq<Coded>, s: State)
    requires forall k :: 0 <= k < |us| && us[k].insn.Auipc? ==> Shielded(Plains(us[k + 1..]) + tail, us[k].insn.rd)
    ensures Through(Plains(Blanked(us)) + tail, s) == Through(Plains(us) + tail, s)
  {
    hide Shielded, Reads, Writes;
    if us == [] {
      assert Plains(Blanked(us)) == Plains(us);
    } else {
      var rest := us[1..];
      var whole, blank := Plains(us) + tail, Plains(Blanked(us)) + tail;
      assert Blanked(us)[1..] == Blanked(rest);
      PlainsRest(us);
      PlainsRest(Blanked(us));
      assert whole[1..] == Plains(rest) + tail && blank[1..] == Plains(Blanked(rest)) + tail;
      assert whole[0] == Plain(us[0]) && blank[0] == Plain(Blank1(us[0]));
      forall k | 0 <= k < |rest| && rest[k].insn.Auipc? ensures Shielded(Plains(rest[k + 1..]) + tail,
          rest[k].insn.rd) {
        assert rest[k] == us[k + 1] && rest[k + 1..] == us[k + 2..];
      }
      BlankedSame(rest, tail, One(blank[0], s));
      if us[0].insn.Auipc? {
        BlankOne(us[0], s);
        var t := One(whole[0], s);
        ShieldedIgnores(Plains(rest) + tail, us[0].insn.rd, t, 0);
      }
    }
  }

  lemma BlankOne(u: Unit, s: State)
    requires u.insn.Auipc?
    ensures One(Plain(Blank1(u)), s) == SetX(One(Plain(u), s), u.insn.rd, 0)
  {
  }

  // ---- exactly when a half may be moved ----

  function AsWritten(x: Unit, between: seq<Unit>, b: Unit): seq<Coded> {
    [Plain(x)] + Plains(between) + [Plain(b)]
  }

  function Sunk(x: Unit, between: seq<Unit>, b: Unit): seq<Coded> {
    Plains(between) + [Plain(x), Plain(b)]
  }

  function Hoisted(x: Unit, between: seq<Unit>, b: Unit): seq<Coded> {
    [Plain(x), Plain(b)] + Plains(between)
  }

  ghost predicate Same(code: seq<Coded>, code': seq<Coded>) {
    forall s :: Through(code, s) == Through(code', s)
  }

  lemma FirstBesides(p: Pair, x: Unit, between: seq<Unit>, b: Unit, k: nat)
    requires Fuses(p, x, b) && MaySplit(p) && MaySink(x, between) && k < |between|
    requires between[k].insn.Auipc? && between[k].insn.rd != 0
    ensures between[k].insn.rd !in Writes(x.insn) && between[k].insn.rd !in Reads(x.insn)
  {
    hide Fuses, FuseDecode, Sources, AllReads, AllWrites;
    FirstHalf(p, x, b);
    AllHold(between, k);
    assert between[k].insn.rd in Writes(between[k].insn);
  }

  lemma SecondBesides(p: Pair, x: Unit, between: seq<Unit>, b: Unit, k: nat)
    requires Fuses(p, x, b) && MaySplit(p) && MayHoist(x, between, b) && k < |between|
    requires between[k].insn.Auipc? && between[k].insn.rd != 0
    ensures between[k].insn.rd !in Writes(b.insn) && between[k].insn.rd !in Reads(b.insn)
    ensures between[k].insn.rd !in Writes(x.insn)
  {
    hide Fuses, FuseDecode, Sources, AllReads, AllWrites;
    FirstHalf(p, x, b);
    SecondHalf(p, x, b);
    AllHold(between, k);
    assert between[k].insn.rd in Writes(between[k].insn);
  }

  lemma SinkShielded(p: Pair, x: Unit, between: seq<Unit>, b: Unit)
    requires Fuses(p, x, b) && MaySplit(p) && MaySink(x, between) && InLine(between) && !x.insn.Auipc?
    requires AllShielded(between, b)
    ensures Same(AsWritten(x, between, b), Sunk(x, between, b))
  {
    hide Fuses, FuseDecode, MaySink, Sources, Through, Shielded, Reads, Writes, PureDef;
    forall s ensures Through(AsWritten(x, between, b), s) == Through(Sunk(x, between, b), s) {
      var blank := Blanked(between);
      BlankedNames(between);
      assert MaySink(x, blank) by { SinkNames(x, between, blank); }
      assert x.Op().op != OpAuipc by { NoAuipc(p, x, b); }
      SinkIsLegal(p, x, blank, b, s);
      var t := Through([Plain(x)], s);
      ThroughAppend([Plain(x)], Plains(between) + [Plain(b)], s);
      ThroughAppend([Plain(x)], Plains(blank) + [Plain(b)], s);
      assert AsWritten(x, between, b) == [Plain(x)] + (Plains(between) + [Plain(b)]);
      assert [Plain(x)] + Plains(blank) + [Plain(b)] == [Plain(x)] + (Plains(blank) + [Plain(b)]);
      forall k | 0 <= k < |between| && between[k].insn.Auipc?
        ensures Shielded(Plains(between[k + 1..]) + [Plain(b)], between[k].insn.rd)
      {
        assert ShieldedAt(between, k, b);
      }
      BlankedSame(between, [Plain(b)], t);
      forall k | 0 <= k < |between| && between[k].insn.Auipc?
        ensures Shielded(Plains(between[k + 1..]) + [Plain(x), Plain(b)], between[k].insn.rd)
      {
        assert ShieldedAt(between, k, b);
        ShieldedSink(p, x, between, b, k);
      }
      BlankedSame(between, [Plain(x), Plain(b)], s);
    }
  }

  lemma ShieldedSink(p: Pair, x: Unit, between: seq<Unit>, b: Unit, k: nat)
    requires Fuses(p, x, b) && MaySplit(p) && MaySink(x, between) && k < |between| && between[k].insn.Auipc?
    ensures Shielded(After(between, k, b), between[k].insn.rd) ==>
              Shielded(Plains(between[k + 1..]) + [Plain(x), Plain(b)], between[k].insn.rd)
    ensures between[k].insn.rd != 0 && Kept(After(between, k, b), between[k].insn.rd) ==>
              var c, c', r := After(between, k, b), Plains(between[k + 1..]) + [Plain(x), Plain(b)], between[k].insn.rd;
              Kept(c', r) && Added(c', r) == Added(c, r)
  {
    hide Fuses, FuseDecode, MaySink, Reads, Writes, Kept, Added;
    if between[k].insn.rd != 0 {
      hide Shielded;
      FirstBesides(p, x, between, b, k);
      var a := Plains(between[k + 1..]);
      Inserted(a, Plain(x), [Plain(b)], between[k].insn.rd);
      assert a + [Plain(x)] + [Plain(b)] == a + [Plain(x), Plain(b)];
    }
  }

  lemma SinkNames(x: Unit, between: seq<Unit>, blank: seq<Unit>)
    requires MaySink(x, between) && AllReads(blank) == AllReads(between) && AllWrites(blank) == AllWrites(between)
    ensures MaySink(x, blank)
  {
    hide AllReads, AllWrites, Sources, FuseDecode;
  }

  lemma HoistNames(x: Unit, between: seq<Unit>, blank: seq<Unit>, b: Unit)
    requires MayHoist(x, between, b) && AllReads(blank) == AllReads(between) && AllWrites(blank) == AllWrites(between)
    requires AllPure(blank) == AllPure(between)
    ensures MayHoist(x, blank, b)
  {
    hide AllReads, AllWrites, Sources, FuseDecode, AllPure;
  }

  lemma NoAuipc(p: Pair, x: Unit, b: Unit)
    requires Fuses(p, x, b) && MaySplit(p)
    ensures x.Op().op == OpAuipc <==> x.insn.Auipc?
  {
    FirstHalf(p, x, b);
  }

  lemma HoistShielded(p: Pair, x: Unit, between: seq<Unit>, b: Unit)
    requires Fuses(p, x, b) && MaySplit(p) && MayHoist(x, between, b) && InLine(between) && AllShielded(between, b)
    ensures Same(AsWritten(x, between, b), Hoisted(x, between, b))
  {
    hide Fuses, FuseDecode, MayHoist, Sources, Through, Shielded, Reads, Writes, PureDef, AllPure;
    forall s ensures Through(AsWritten(x, between, b), s) == Through(Hoisted(x, between, b), s) {
      var blank := Blanked(between);
      BlankedNames(between);
      assert MayHoist(x, blank, b) by { HoistNames(x, between, blank, b); }
      HoistIsLegal(p, x, blank, b, s);
      var t, u := Through([Plain(x)], s), Through([Plain(x), Plain(b)], s);
      ThroughAppend([Plain(x)], Plains(between) + [Plain(b)], s);
      ThroughAppend([Plain(x)], Plains(blank) + [Plain(b)], s);
      ThroughAppend([Plain(x), Plain(b)], Plains(between), s);
      ThroughAppend([Plain(x), Plain(b)], Plains(blank), s);
      assert AsWritten(x, between, b) == [Plain(x)] + (Plains(between) + [Plain(b)]);
      assert [Plain(x)] + Plains(blank) + [Plain(b)] == [Plain(x)] + (Plains(blank) + [Plain(b)]);
      forall k | 0 <= k < |between| && between[k].insn.Auipc?
        ensures Shielded(Plains(between[k + 1..]) + [Plain(b)], between[k].insn.rd)
        ensures Shielded(Plains(between[k + 1..]) + [], between[k].insn.rd)
      {
        assert ShieldedAt(between, k, b);
        BesidesHoist(p, x, between, b, k);
        assert Plains(between[k + 1..]) + [] == Plains(between[k + 1..]);
      }
      BlankedSame(between, [Plain(b)], t);
      BlankedSame(between, [], u);
      assert Plains(between) + [] == Plains(between) && Plains(blank) + [] == Plains(blank);
    }
  }

  lemma BesidesHoist(p: Pair, x: Unit, between: seq<Unit>, b: Unit, k: nat)
    requires Fuses(p, x, b) && MaySplit(p) && MayHoist(x, between, b) && k < |between| && between[k].insn.Auipc?
    ensures Shielded(After(between, k, b), between[k].insn.rd) ==>
            Shielded(Plains(between[k + 1..]), between[k].insn.rd)
    ensures between[k].insn.rd != 0 && Kept(After(between, k, b), between[k].insn.rd) ==>
              var c, c', r := After(between, k, b), Plains(between[k + 1..]), between[k].insn.rd;
              Kept(c', r) && Added(c', r) == Added(c, r)
  {
    hide Fuses, FuseDecode, MayHoist, Reads, Writes, Kept, Added;
    if between[k].insn.rd != 0 {
      hide Shielded;
      SecondBesides(p, x, between, b, k);
      var a := Plains(between[k + 1..]);
      Inserted(a, Plain(b), [], between[k].insn.rd);
      assert a + [Plain(b)] + [] == a + [Plain(b)] && a + [] == a;
    }
  }

  /** The lengths instructions have. */
  predicate Sized(us: seq<Unit>) {
    forall k :: 0 <= k < |us| ==> us[k].len == 2 || us[k].len == 4
  }

  lemma PlainsSplit(us: seq<Unit>, k: nat)
    requires k < |us|
    ensures Plains(us) == Plains(us[..k]) + [Plain(us[k])] + Plains(us[k + 1..])
  {
  }

  /** Passed by the first half, an address that is kept comes out another. */
  lemma SinkMovesAddress(p: Pair, x: Unit, between: seq<Unit>, b: Unit, k: nat, s: State)
    requires Fuses(p, x, b) && MaySplit(p) && MaySink(x, between) && Sized([x])
    requires k < |between| && KeptAt(between, k, b)
    ensures X(Through(AsWritten(x, between, b), s), between[k].insn.rd) != X(Through(Sunk(x, between, b), s),
              between[k].insn.rd)
  {
    hide Fuses, FuseDecode, MaySink, Through, Kept, Added, Shielded;
    ShieldedSink(p, x, between, b, k);
    var a, d, rest := Plains(between[..k]), Plain(between[k]), Plains(between[k + 1..]);
    PlainsSplit(between, k);
    assert Sized([x]) ==> 0 < [x][0].len <= 4;
    BytesAppend([Plain(x)], a);
    OneByte(Plain(x));
    AddressMoves([Plain(x)] + a, a, d, After(between, k, b), rest + [Plain(x), Plain(b)], s);
    assert AsWritten(x, between, b) == [Plain(x)] + a + [d] + After(between, k, b);
    assert Sunk(x, between, b) == a + [d] + (rest + [Plain(x), Plain(b)]);
  }

  lemma OneByte(d: Coded)
    ensures Bytes([d]) == d.len
  {
    assert [d][1..] == [];
  }

  /** Passed by the second half, it does too. */
  lemma HoistMovesAddress(p: Pair, x: Unit, between: seq<Unit>, b: Unit, k: nat, s: State)
    requires Fuses(p, x, b) && MaySplit(p) && MayHoist(x, between, b) && Sized([b])
    requires k < |between| && KeptAt(between, k, b)
    ensures X(Through(AsWritten(x, between, b), s), between[k].insn.rd) != X(Through(Hoisted(x, between, b), s),
              between[k].insn.rd)
  {
    hide Fuses, FuseDecode, MayHoist, Through, Kept, Added, Shielded;
    BesidesHoist(p, x, between, b, k);
    PlainsSplit(between, k);
    assert 0 < [b][0].len <= 4;
    var u, v, d: Coded := Plain(x), Plain(b), Plain(between[k]);
    var a, rest, c := Plains(between[..k]), Plains(between[k + 1..]), After(between, k, b);
    assert Hoisted(x, between, b) == [u, v] + a + [d] + rest;
    assert AsWritten(x, between, b) == [u] + a + [d] + c;
    assert v.len == b.len && d.insn == between[k].insn;
    hide *;
    WithOne(u, a);
    WithOne(v, a);
    WithOne(u, [v] + a);
    assert [u] + ([v] + a) == [u, v] + a;
    AddressMoves([u, v] + a, [u] + a, d, rest, c, s);
  }

  /** What stands around an address and a load through it. */
  lemma PlainsAround(us: seq<Unit>, k: nat, n: nat)
    requires k < n < |us|
    ensures Plains(us) == Plains(us[..k]) + [Plain(us[k])] + Plains(us[k + 1..n]) + [Plain(us[n])] + Plains(us[n + 1..])
    ensures Plains(us[..n]) == Plains(us[..k]) + [Plain(us[k])] + Plains(us[k + 1..n])
  {
  }

  lemma NoStoresIn(a: seq<Coded>, d: Coded, m: seq<Coded>)
    requires NoStores(a + [d] + m)
    ensures NoStores(a) && NoStores(m)
  {
    hide WritesMem;
    var all := a + [d] + m;
    forall j | 0 <= j < |a| ensures !WritesMem(a[j].insn) { assert all[j] == a[j]; }
    forall j | 0 <= j < |m| ensures !WritesMem(m[j].insn) { assert all[|a| + 1 + j] == m[j]; }
  }

  lemma PureStoresNothing(x: Coded, a: seq<Coded>)
    requires !WritesMem(x.insn) && NoStores(a)
    ensures NoStores([x] + a)
  {
    hide WritesMem;
  }

  /** What the load leaves is in a register neither half writes. */
  lemma LoadBesides(us: seq<Unit>, n: nat)
    requires n < |us| && us[n].insn.Load? && !us[n].insn.kind.IsFp() && us[n].insn.rd != 0
    ensures us[n].insn.rd in AllWrites(us) && !AllPure(us)
  {
    hide AllReads, AllWrites, Reads;
    AllHold(us, n);
    assert us[n].insn.rd in Writes(us[n].insn);
    assert !PureDef(us[n].insn);
  }

  lemma SinkAround(x: Unit, between: seq<Unit>, b: Unit, k: nat, n: nat)
    requires k < n < |between|
    ensures var a, d, m := Plains(between[..k]), Plain(between[k]), Plains(between[k + 1..n]);
            var l, post := Plain(between[n]), Plains(between[n + 1..]);
            && AsWritten(x, between, b) == [Plain(x)] + a + [d] + m + [l] + (post + [Plain(b)])
            && Sunk(x, between, b) == a + [d] + m + [l] + (post + [Plain(x), Plain(b)])
            && Hoisted(x, between, b) == [Plain(x), Plain(b)] + a + [d] + m + [l] + post
  {
    PlainsAround(between, k, n);
    hide Plains, Plain;
  }

  lemma FetchedFacts(between: seq<Unit>, k: nat, n: nat, b: Unit)
    requires k < n < |between| && FetchedBy(between, k, n, b)
    ensures var d, l := between[k].insn, between[n].insn;
            && d.Auipc? && d.rd != 0 && LoadsThrough(l, d.rd) && l.rd != 0
            && NoStores(Plains(between[..k])) && NoStores(Plains(between[k + 1..n]))
            && Kept(Plains(between[k + 1..n]), d.rd) && Kept(Plains(between[n + 1..]) + [Plain(b)], l.rd)
            && l.rd in AllWrites(between) && !AllPure(between)
  {
    hide NoStores, Kept;
    LoadBesides(between, n);
    PlainsAround(between, k, n);
    NoStoresIn(Plains(between[..k]), Plain(between[k]), Plains(between[k + 1..n]));
  }

  lemma WithOne(d: Coded, a: seq<Coded>)
    ensures Bytes([d] + a) == d.len + Bytes(a)
  {
    BytesAppend([d], a);
    OneByte(d);
  }

  /** Passed by the first half, what is loaded through an address comes out another from
      some memory. */
  lemma SinkMovesLoad(p: Pair, x: Unit, between: seq<Unit>, b: Unit, k: nat, n: nat) returns (s: State)
    requires Fuses(p, x, b) && MaySplit(p) && MaySink(x, between) && Sized([x])
    requires k < n < |between| && FetchedBy(between, k, n, b)
    ensures Through(AsWritten(x, between, b), s) != Through(Sunk(x, between, b), s)
  {
    FetchedFacts(between, k, n, b);
    assert 0 < [x][0].len <= 4;
    var q := between[n].insn.rd;
    assert !WritesMem(x.insn) && q !in Writes(x.insn) by { FirstHalf(p, x, b); }
    var u, v: Coded := Plain(x), Plain(b);
    var a, m, post := Plains(between[..k]), Plains(between[k + 1..n]), Plains(between[n + 1..]);
    var d, l := Plain(between[k]), Plain(between[n]);
    assert u.insn == x.insn && u.len == x.len && d.insn == between[k].insn && l.insn == between[n].insn;
    hide *;
    SinkAround(x, between, b, k, n);
    PureStoresNothing(u, a);
    Inserted(post, u, [v], q);
    assert post + [u] + [v] == post + [u, v];
    WithOne(u, a);
    s := LoadMoves([u] + a, a, d, m, l, post + [v], post + [u, v]);
  }

  /** With a load between, the halves that may be hoisted store nothing. */
  lemma HalvesPure(p: Pair, x: Unit, between: seq<Unit>, b: Unit, q: Reg)
    requires Fuses(p, x, b) && MaySplit(p) && MayHoist(x, between, b) && q in AllWrites(between) && !AllPure(between)
    ensures !WritesMem(x.insn) && !WritesMem(b.insn) && q !in Writes(b.insn)
  {
    FirstHalf(p, x, b);
    SecondHalf(p, x, b);
    StoreIsStore(p, x, b);
  }

  /** Passed by the second half, it does too. */
  lemma HoistMovesLoad(p: Pair, x: Unit, between: seq<Unit>, b: Unit, k: nat, n: nat) returns (s: State)
    requires Fuses(p, x, b) && MaySplit(p) && MayHoist(x, between, b) && Sized([b])
    requires k < n < |between| && FetchedBy(between, k, n, b)
    ensures Through(AsWritten(x, between, b), s) != Through(Hoisted(x, between, b), s)
  {
    hide Fuses, FuseDecode, MaySplit, MayHoist, Kept, NoStores, Through, Reads, Writes, WritesMem;
    FetchedFacts(between, k, n, b);
    assert 0 < [b][0].len <= 4;
    var q := between[n].insn.rd;
    HalvesPure(p, x, between, b, q);
    var u, v: Coded := Plain(x), Plain(b);
    var a, m, post := Plains(between[..k]), Plains(between[k + 1..n]), Plains(between[n + 1..]);
    var d, l := Plain(between[k]), Plain(between[n]);
    assert u.insn == x.insn && v.insn == b.insn && v.len == b.len && d.insn == between[k].insn
           && l.insn == between[n].insn;
    hide *;
    SinkAround(x, between, b, k, n);
    PureStoresNothing(u, a);
    PureStoresNothing(v, a);
    PureStoresNothing(u, [v] + a);
    assert [u] + ([v] + a) == [u, v] + a;
    Inserted(post, v, [], q);
    assert post + [v] + [] == post + [v] && post + [] == post;
    WithOne(u, a);
    WithOne(v, a);
    WithOne(u, [v] + a);
    s := LoadMoves([u, v] + a, [u] + a, d, m, l, post, post + [v]);
  }

  lemma StoreIsStore(p: Pair, x: Unit, b: Unit)
    requires Fuses(p, x, b) && MaySplit(p)
    ensures WritesMem(b.insn) ==> b.Op().op == OpStore
  {
  }

  /** An `auipc` moved down past something forms another address. */
  lemma SinkingAuipc(p: Pair, x: Unit, between: seq<Unit>, b: Unit, s: State)
    requires Fuses(p, x, b) && MaySplit(p) && MaySink(x, between) && x.insn.Auipc? && 0 < Bytes(Plains(between)) < W64
    ensures X(Through(AsWritten(x, between, b), s), x.insn.rd) != X(Through(Sunk(x, between, b), s), x.insn.rd)
  {
    hide Through, Added, Bytes, Fuses, FuseDecode, Kept, Sources, AllReads, AllWrites, Writes;
    AuipcPair(p, x, b);
    var r := x.insn.rd;
    var mid := Plains(between);
    assert r !in AllNamed(between);
    NeverWritten(between, r);
    KeptThrough(mid, [Plain(b)], r);
    OnlyAdds(Plain(b), r);
    NoBytes();
    AddressMoves(mid, [], Plain(x), [Plain(b)], mid + [Plain(b)], s);
    assert AsWritten(x, between, b) == [] + [Plain(x)] + (mid + [Plain(b)]);
    assert Sunk(x, between, b) == mid + [Plain(x)] + [Plain(b)];
  }

  lemma NoBytes()
    ensures Bytes([]) == 0
  {
  }

  lemma OnlyAdds(d: Coded, r: Reg)
    requires AddsTo(d.insn, r)
    ensures Kept([d], r)
  {
    assert [d][1..] == [];
  }

  lemma AuipcPair(p: Pair, x: Unit, b: Unit)
    requires Fuses(p, x, b) && MaySplit(p) && x.insn.Auipc?
    ensures x.insn.rd != 0 && AddsTo(b.insn, x.insn.rd) && x.Op().rd == x.insn.rd
  {
  }

  lemma NeverWritten(between: seq<Unit>, r: Reg)
    requires r !in AllNamed(between)
    ensures forall k :: 0 <= k < |between| ==> r !in Writes(Plains(between)[k].insn)
  {
    hide AllReads, AllWrites, Writes;
    forall k | 0 <= k < |between| ensures r !in Writes(Plains(between)[k].insn) { AllHold(between, k); }
  }

  lemma {:induction false} KeptThrough(a: seq<Coded>, c: seq<Coded>, r: Reg)
    requires (forall k :: 0 <= k < |a| ==> r !in Writes(a[k].insn)) && r != 0
    ensures Kept(a + c, r) == Kept(c, r) && Added(a + c, r) == Added(c, r)
  {
    if a == [] {
      assert a + c == c;
    } else {
      assert (a + c)[1..] == a[1..] + c;
      assert r !in Writes(a[0].insn);
      KeptThrough(a[1..], c, r);
      hide Kept;
      assert !AddsTo(a[0].insn, r);
    }
  }

  // ---- the exact conditions ----

  lemma SomeState() returns (s: State)
  {
    s := State(0, seq(32, i => 0), seq(32, i => 0), map[]);
  }

  lemma ClearButNot(between: seq<Unit>, b: Unit) returns (k: nat)
    requires AllClear(between, b) && !AllShielded(between, b)
    ensures k < |between| && (KeptAt(between, k, b) || FetchedAt(between, k, b))
  {
    hide ShieldedAt, KeptAt, FetchedAt;
    k :| 0 <= k < |between| && !ShieldedAt(between, k, b);
  }

  lemma SinkShows(p: Pair, x: Unit, between: seq<Unit>, b: Unit)
    requires Fuses(p, x, b) && MaySplit(p) && MaySink(x, between) && Sized([x])
    requires AllClear(between, b) && !AllShielded(between, b)
    ensures !Same(AsWritten(x, between, b), Sunk(x, between, b))
  {
    hide Fuses, FuseDecode, MaySink, Through, AllClear, AllShielded, KeptAt, FetchedBy, AsWritten, Sunk;
    var k := ClearButNot(between, b);
    if KeptAt(between, k, b) {
      var s := SomeState();
      SinkMovesAddress(p, x, between, b, k, s);
    } else {
      var n :| k < n < |between| && FetchedBy(between, k, n, b);
      var s := SinkMovesLoad(p, x, between, b, k, n);
    }
  }

  lemma HoistShows(p: Pair, x: Unit, between: seq<Unit>, b: Unit)
    requires Fuses(p, x, b) && MaySplit(p) && MayHoist(x, between, b) && Sized([b])
    requires AllClear(between, b) && !AllShielded(between, b)
    ensures !Same(AsWritten(x, between, b), Hoisted(x, between, b))
  {
    hide Fuses, FuseDecode, MayHoist, Through, AllClear, AllShielded, KeptAt, FetchedBy, AsWritten, Hoisted;
    var k := ClearButNot(between, b);
    if KeptAt(between, k, b) {
      var s := SomeState();
      HoistMovesAddress(p, x, between, b, k, s);
    } else {
      var n :| k < n < |between| && FetchedBy(between, k, n, b);
      var s := HoistMovesLoad(p, x, between, b, k, n);
    }
  }

  lemma {:induction false} SizedBytes(us: seq<Unit>)
    requires Sized(us)
    ensures |us| <= Bytes(Plains(us)) <= 4 * |us|
  {
    if us != [] {
      PlainsRest(us);
      SizedBytes(us[1..]);
    }
  }

  /** Moving the first half down leaves every state the same exactly when it is no
      `auipc` and every address formed on the way is written over unused. */
  lemma SinkExactly(p: Pair, x: Unit, between: seq<Unit>, b: Unit)
    requires Fuses(p, x, b) && MaySplit(p) && MaySink(x, between) && InLine(between) && AllClear(between, b)
    requires 0 < Bytes(Plains(between)) < W64 && Sized([x])
    ensures Same(AsWritten(x, between, b), Sunk(x, between, b)) <==> !x.insn.Auipc? && AllShielded(between, b)
  {
    hide Fuses, FuseDecode, MaySink, Through, AllClear, AllShielded, InLine, AsWritten, Sunk, Bytes;
    if x.insn.Auipc? {
      var s := SomeState();
      SinkingAuipc(p, x, between, b, s);
    } else if AllShielded(between, b) {
      SinkShielded(p, x, between, b);
    } else {
      SinkShows(p, x, between, b);
    }
  }

  /** Moving the second half up does exactly when the second of these holds. */
  lemma HoistExactly(p: Pair, x: Unit, between: seq<Unit>, b: Unit)
    requires Fuses(p, x, b) && MaySplit(p) && MayHoist(x, between, b) && InLine(between) && AllClear(between, b)
             && Sized([b])
    ensures Same(AsWritten(x, between, b), Hoisted(x, between, b)) <==> AllShielded(between, b)
  {
    hide Fuses, FuseDecode, MayHoist, Through, AllClear, AllShielded, InLine, AsWritten, Hoisted;
    if AllShielded(between, b) {
      HoistShielded(p, x, between, b);
    } else {
      HoistShows(p, x, between, b);
    }
  }

  /** Past nothing that forms an address, all that matters is what is moved. */
  lemma NoneFormed(between: seq<Unit>, b: Unit)
    requires NoPc(between)
    ensures InLine(between) && AllClear(between, b) && AllShielded(between, b)
  {
    hide Shielded, Kept;
    forall k | 0 <= k < |between| ensures IsStraight(between[k].insn) && !between[k].insn.Then?
      && ShieldedAt(between, k, b) {}
  }

  /** There the first half may be moved down exactly if it is no `auipc`, and the second
      up always. */
  lemma PlainExactly(p: Pair, x: Unit, between: seq<Unit>, b: Unit)
    requires Fuses(p, x, b) && MaySplit(p) && NoPc(between)
    requires 0 < Bytes(Plains(between)) < W64 && Sized([x]) && Sized([b])
    ensures MaySink(x, between) ==> (Same(AsWritten(x, between, b), Sunk(x, between, b)) <==> !x.insn.Auipc?)
    ensures MayHoist(x, between, b) ==> Same(AsWritten(x, between, b), Hoisted(x, between, b))
  {
    hide *;
    NoneFormed(between, b);
    if MaySink(x, between) { SinkExactly(p, x, between, b); }
    if MayHoist(x, between, b) { HoistExactly(p, x, between, b); }
  }
}
