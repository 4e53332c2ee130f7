/** The index that names an address: function symbols sorted by address with the
    highest end so far, against a walk of every symbol. */
module Symbols {
  import opened Words
  import opened Wrappers

  datatype Sym = Sym(value: Word, size: Word, isFunc: bool, named: bool, name: nat)

  /** `last` is the last address covered, `reach` the highest `last` here and at
      every entry before, `order` where the tables list it. */
  datatype Entry = Entry(value: Word, last: Word, reach: Word, order: nat, name: nat)

  // ---- the walk of every symbol ----

  /** A size of 0 covers everything from the symbol up; the end wraps as the
      addition does. */
  predicate Covers(s: Sym, addr: Word) {
    s.isFunc && s.named && s.value <= addr && (s.size == 0 || addr < Wrap(s.value + s.size))
  }

  /** The highest-addressed symbol that covers `addr`, the first listed of those at
      one address. */
  ghost predicate Nearest(list: seq<Sym>, addr: Word, k: nat) {
    && k < |list| && Covers(list[k], addr)
    && forall j :: 0 <= j < |list| && Covers(list[j], addr) ==>
         list[j].value < list[k].value || (list[j].value == list[k].value && k <= j)
  }

  ghost predicate NoneCovers(list: seq<Sym>, addr: Word) {
    forall j :: 0 <= j < |list| ==> !Covers(list[j], addr)
  }

  method Linear(list: seq<Sym>, addr: Word) returns (best: Option<nat>)
    ensures match best case Some(k) => Nearest(list, addr, k) case None => NoneCovers(list, addr)
  {
    best := None;
    var i := 0;
    while i < |list|
      invariant i <= |list|
      invariant match best case Some(k) => k < i && Nearest(list[..i], addr, k) case None => NoneCovers(list[..i], addr)
    {
      if Covers(list[i], addr) && (best.None? || list[best.value].value < list[i].value) {
        best := Some(i);
      }
      i := i + 1;
    }
    assert list[..i] == list;
  }

  lemma NearestUnique(list: seq<Sym>, addr: Word, j: nat, k: nat)
    requires Nearest(list, addr, j) && Nearest(list, addr, k)
    ensures j == k
  {
  }

  // ---- what the index holds ----

  /** A size that carries past the top covers nothing and is left out. */
  predicate Keep(s: Sym) {
    s.isFunc && s.named && (s.size == 0 || Wrap(s.value + s.size) >= s.value)
  }

  function EntryOf(s: Sym, order: nat): Entry {
    Entry(s.value, if s.size == 0 then W64 - 1 else Wrap(s.value + s.size - 1), 0, order, s.name)
  }

  /** The positions of the symbols kept. */
  function Kept(list: seq<Sym>): (ks: seq<nat>)
    ensures forall i :: 0 <= i < |ks| ==> ks[i] < |list| && Keep(list[ks[i]])
    ensures forall i, j :: 0 <= i < j < |ks| ==> ks[i] < ks[j]
  {
    if list == [] then []
    else
      var n := |list| - 1;
      if Keep(list[n]) then Kept(list[..n]) + [n] else Kept(list[..n])
  }

  lemma {:induction false} KeptAll(list: seq<Sym>, j: nat)
    requires j < |list| && Keep(list[j])
    ensures j in Kept(list)
  {
    var n := |list| - 1;
    if j < n {
      KeptAll(list[..n], j);
    }
  }

  predicate EntryCovers(e: Entry, addr: Word) {
    e.value <= addr <= e.last
  }

  /** What is kept covers as an inclusive range what it covered; what is not kept
      covered nothing. */
  lemma KeepCovers(s: Sym, order: nat, addr: Word)
    ensures Keep(s) ==> (Covers(s, addr) <==> EntryCovers(EntryOf(s, order), addr))
    ensures !Keep(s) ==> !Covers(s, addr)
  {
  }

  /** `es` are the entries of the list, but for their reach, in some order. */
  ghost predicate Lists(list: seq<Sym>, es: seq<Entry>) {
    && |es| == |Kept(list)|
    && (forall k :: 0 <= k < |es| ==> IsEntry(list, es[k]))
    && (forall o :: 0 <= o < |Kept(list)| ==> HasOrder(es, o))
  }

  ghost predicate IsEntry(list: seq<Sym>, e: Entry) {
    e.order < |Kept(list)| && e.(reach := 0) == EntryOf(list[Kept(list)[e.order]], e.order)
  }

  ghost predicate HasOrder(es: seq<Entry>, o: nat) {
    exists k :: 0 <= k < |es| && es[k].order == o
  }

  predicate Before(x: Entry, y: Entry) {
    x.value < y.value || (x.value == y.value && x.order <= y.order)
  }

  ghost predicate Sorted(es: seq<Entry>) {
    forall j, k :: 0 <= j < k < |es| ==> Before(es[j], es[k])
  }

  /** `reach` is the greatest `last` so far. */
  ghost predicate Reaches(es: seq<Entry>, n: nat)
    requires n <= |es|
  {
    forall k :: 0 <= k < n ==> ReachIs(es, k)
  }

  ghost predicate ReachIs(es: seq<Entry>, k: nat)
    requires k < |es|
  {
    && (forall j :: 0 <= j <= k ==> es[j].last <= es[k].reach)
    && (exists j :: 0 <= j <= k && es[j].last == es[k].reach)
  }

  // ---- which entry answers ----

  ghost predicate Best(es: seq<Entry>, addr: Word, b: nat) {
    && b < |es| && EntryCovers(es[b], addr)
    && forall k :: 0 <= k < |es| && EntryCovers(es[k], addr) ==>
         es[k].value < es[b].value || (es[k].value == es[b].value && es[b].order <= es[k].order)
  }

  ghost predicate NoEntryCovers(es: seq<Entry>, addr: Word) {
    forall k :: 0 <= k < |es| ==> !EntryCovers(es[k], addr)
  }

  lemma EntryAgrees(list: seq<Sym>, e: Entry, addr: Word)
    requires IsEntry(list, e)
    ensures var s := list[Kept(list)[e.order]];
            (EntryCovers(e, addr) <==> Covers(s, addr)) && e.value == s.value && e.name == s.name
  {
    hide Kept;
    KeepCovers(list[Kept(list)[e.order]], e.order, addr);
  }

  lemma FindEntry(list: seq<Sym>, es: seq<Entry>, addr: Word, j: nat) returns (k: nat)
    requires Lists(list, es) && j < |list| && Covers(list[j], addr)
    ensures k < |es| && Kept(list)[es[k].order] == j && EntryCovers(es[k], addr)
  {
    KeepCovers(list[j], 0, addr);
    KeptAll(list, j);
    var o: nat :| o < |Kept(list)| && Kept(list)[o] == j;
    assert HasOrder(es, o);
    k :| 0 <= k < |es| && es[k].order == o;
    EntryAgrees(list, es[k], addr);
  }

  /** The best entry is the nearest symbol. */
  lemma BestIsNearest(list: seq<Sym>, es: seq<Entry>, addr: Word, b: nat)
    requires Lists(list, es) && Best(es, addr, b)
    ensures Nearest(list, addr, Kept(list)[es[b].order])
  {
    hide Kept, EntryCovers, Covers;
    var at := Kept(list)[es[b].order];
    EntryAgrees(list, es[b], addr);
    forall j | 0 <= j < |list| && Covers(list[j], addr)
      ensures list[j].value < list[at].value || (list[j].value == list[at].value && at <= j)
    {
      var k := FindEntry(list, es, addr, j);
      EntryAgrees(list, es[k], addr);
    }
  }

  lemma NoneIsNone(list: seq<Sym>, es: seq<Entry>, addr: Word)
    requires Lists(list, es) && NoEntryCovers(es, addr)
    ensures NoneCovers(list, addr)
  {
    hide Kept, EntryCovers, Covers, Lists;
    forall j | 0 <= j < |list| ensures !Covers(list[j], addr) {
      if Covers(list[j], addr) {
        var k := FindEntry(list, es, addr, j);
        assert false;
      }
    }
  }

  // ---- building and asking ----

  lemma SwapKeeps(list: seq<Sym>, es: seq<Entry>, j: nat, k: nat)
    requires Lists(list, es) && j < |es| && k < |es|
    ensures Lists(list, es[j := es[k]][k := es[j]])
  {
    hide IsEntry, Kept;
    var t := es[j := es[k]][k := es[j]];
    forall o | 0 <= o < |Kept(list)| ensures HasOrder(t, o) {
      assert HasOrder(es, o);
      var i :| 0 <= i < |es| && es[i].order == o;
      var i' := if i == j then k else if i == k then j else i;
      assert t[i'].order == o;
    }
  }

  lemma ReachKeeps(list: seq<Sym>, es: seq<Entry>, k: nat, reach: Word)
    requires Lists(list, es) && k < |es|
    ensures Lists(list, es[k := es[k].(reach := reach)])
  {
    hide Kept;
    var t := es[k := es[k].(reach := reach)];
    forall o | 0 <= o < |Kept(list)| ensures HasOrder(t, o) {
      assert HasOrder(es, o);
      var i :| 0 <= i < |es| && es[i].order == o;
      assert t[i].order == o;
    }
  }

  lemma KeptGrows(list: seq<Sym>, i: nat)
    requires i < |list|
    ensures Kept(list[..i + 1]) == if Keep(list[i]) then Kept(list[..i]) + [i] else Kept(list[..i])
  {
    assert list[..i + 1][..i] == list[..i];
  }

  lemma ListsGrow(list: seq<Sym>, i: nat, es: seq<Entry>)
    requires i < |list| && Lists(list[..i], es)
    ensures Keep(list[i]) ==> Lists(list[..i + 1], es + [EntryOf(list[i], |es|)])
    ensures !Keep(list[i]) ==> Lists(list[..i + 1], es)
  {
    hide EntryOf, Keep;
    KeptGrows(list, i);
    var ks, ks' := Kept(list[..i]), Kept(list[..i + 1]);
    hide Kept;
    forall k | 0 <= k < |es| ensures IsEntry(list[..i + 1], es[k]) { assert IsEntry(list[..i], es[k]); }
    forall o | 0 <= o < |ks| ensures HasOrder(es, o) && HasOrder(es + [EntryOf(list[i], |es|)], o) {
      assert HasOrder(es, o);
      var k :| 0 <= k < |es| && es[k].order == o;
      assert (es + [EntryOf(list[i], |es|)])[k].order == o;
    }
    NewEntry(list[i], |es|);
    assert (es + [EntryOf(list[i], |es|)])[|es|].order == |es|;
  }

  lemma NewEntry(s: Sym, o: nat)
    ensures EntryOf(s, o).order == o && EntryOf(s, o).(reach := 0) == EntryOf(s, o)
  {
  }

  class SymIndex {
    var e: array<Entry>
    var n: nat

    ghost predicate Valid()
      reads this
    {
      n <= e.Length
    }

    ghost function Entries(): seq<Entry>
      reads this, e
      requires Valid()
    {
      e[..n]
    }

    constructor ()
      ensures Valid() && fresh(e) && Entries() == []
    {
      e, n := new Entry[0], 0;
    }

    /** Adds an entry, doubling the array when it is full. */
    method Push(x: Entry)
      requires Valid()
      modifies this, e
      ensures Valid() && Entries() == old(Entries()) + [x] && (e == old(e) || fresh(e))
    {
      if n == e.Length {
        var grown := new Entry[if n == 0 then 1024 else 2 * n](_ => x);
        for i := 0 to n
          invariant e.Length == n && e[..] == old(e[..]) && forall j :: 0 <= j < i ==> grown[j] == e[j]
          invariant n == old(n) && e == old(e)
        {
          grown[i] := e[i];
        }
        e := grown;
      }
      e[n] := x;
      n := n + 1;
    }

    /** The function symbols the tables list, in their order. */
    method Gather(list: seq<Sym>)
      requires Valid() && n == 0
      modifies this, e
      ensures Valid() && Lists(list, Entries()) && (e == old(e) || fresh(e))
    {
      var i := 0;
      while i < |list|
        invariant i <= |list| && Valid() && Lists(list[..i], Entries()) && (e == old(e) || fresh(e))
      {
        ListsGrow(list, i, Entries());
        if Keep(list[i]) {
          Push(EntryOf(list[i], n));
        }
        i := i + 1;
      }
      assert list[..i] == list;
    }

    /** Sorts by address, then by order. */
    method Sort(ghost list: seq<Sym>)
      requires Valid() && Lists(list, Entries())
      modifies e
      ensures Valid() && Lists(list, Entries()) && Sorted(Entries())
    {
      var i := 0;
      while i < n
        invariant i <= n <= e.Length && Lists(list, e[..n]) && Sorted(e[..i])
      {
        Sink(list, i);
        i := i + 1;
      }
    }

    /** Moves entry `i` down to its place among those before it. */
    method Sink(ghost list: seq<Sym>, i: nat)
      requires Valid() && i < n && Lists(list, e[..n]) && Sorted(e[..i])
      modifies e
      ensures Lists(list, e[..n]) && Sorted(e[..i + 1])
    {
      hide Lists;
      var j := i;
      while j > 0 && !Before(e[j - 1], e[j])
        invariant 0 <= j <= i < n <= e.Length && Lists(list, e[..n])
        invariant forall a, b :: 0 <= a < b <= i && b != j ==> Before(e[a], e[b])
        invariant forall b :: j < b <= i ==> Before(e[j], e[b])
      {
        SwapKeeps(list, e[..n], j, j - 1);
        ghost var was := e[..n];
        e[j - 1], e[j] := e[j], e[j - 1];
        assert e[..n] == was[j := was[j - 1]][j - 1 := was[j]];
        j := j - 1;
      }
    }

    method Reach(ghost list: seq<Sym>)
      requires Valid() && Lists(list, Entries()) && Sorted(Entries())
      modifies e
      ensures Valid() && Lists(list, Entries()) && Sorted(Entries()) && Reaches(Entries(), n)
    {
      hide Lists;
      var i := 0;
      while i < n
        invariant i <= n <= e.Length && Lists(list, e[..n]) && Sorted(e[..n]) && Reaches(e[..n], i)
      {
        ReachKeeps(list, e[..n], i, if i > 0 && e[i - 1].reach > e[i].last then e[i - 1].reach else e[i].last);
        ghost var was := e[..n];
        if i > 0 && e[i - 1].reach > e[i].last {
          e[i] := e[i].(reach := e[i - 1].reach);
        } else {
          e[i] := e[i].(reach := e[i].last);
        }
        assert e[..n] == was[i := e[i]];
        NextReach(was, e[..n], i);
        i := i + 1;
      }
    }

    method Build(list: seq<Sym>)
      requires Valid() && n == 0
      modifies this, e
      ensures Valid() && Lists(list, Entries()) && Sorted(Entries()) && Reaches(Entries(), n)
    {
      Gather(list);
      Sort(list);
      Reach(list);
    }

    /** The position of the entry that names `addr`. */
    method Search(addr: Word) returns (best: Option<nat>)
      requires Valid() && Sorted(Entries()) && Reaches(Entries(), n)
      ensures match best case Some(b) => Best(Entries(), addr, b) case None => NoEntryCovers(Entries(), addr)
    {
      var lo, hi := 0, n;
      while lo < hi
        invariant lo <= hi <= n
        invariant forall k :: 0 <= k < lo ==> e[k].value <= addr
        invariant forall k :: hi <= k < n ==> e[k].value > addr
        decreases hi - lo
      {
        var mid := lo + (hi - lo) / 2;
        if e[mid].value <= addr {
          assert forall k :: 0 <= k <= mid ==> k == mid || Before(Entries()[k], Entries()[mid]);
          lo := mid + 1;
        } else {
          assert forall k :: mid <= k < n ==> k == mid || Before(Entries()[mid], Entries()[k]);
          hi := mid;
        }
      }
      best := None;
      var i := lo;
      while i > 0
        invariant i <= lo <= n
        invariant best.None? ==> forall k :: i <= k < n ==> !EntryCovers(e[k], addr)
        invariant best.Some? ==> i <= best.value < n && EntryCovers(e[best.value], addr)
        invariant best.Some? ==> forall k :: i <= k < n && EntryCovers(e[k], addr) ==> Worse(e[k], e[best.value])
      {
        if best.Some? && e[i - 1].value != e[best.value].value {
          break;
        }
        assert ReachIs(Entries(), i - 1);
        if e[i - 1].reach < addr {
          break;
        }
        i := i - 1;
        if e[i].last >= addr {
          assert best.Some? ==> Before(Entries()[i], Entries()[best.value]);
          best := Some(i);
        }
      }
      SearchEnds(Entries(), addr, i, best);
    }

    /** The name and the distance from the symbol, as the walk of every symbol would
        give them. */
    method Symbolize(ghost list: seq<Sym>, addr: Word) returns (name: Option<(nat, Word)>)
      requires Valid() && Lists(list, Entries()) && Sorted(Entries()) && Reaches(Entries(), n)
      ensures name.None? <==> NoneCovers(list, addr)
      ensures name.Some? ==>
                exists k: nat :: Nearest(list, addr, k) && name == Some((list[k].name, addr - list[k].value))
    {
      var best := Search(addr);
      match best {
        case Some(b) =>
          BestIsNearest(list, Entries(), addr, b);
          EntryAgrees(list, Entries()[b], addr);
          return Some((e[b].name, addr - e[b].value));
        case None =>
          NoneIsNone(list, Entries(), addr);
          return None;
      }
    }
  }

  predicate Worse(x: Entry, y: Entry) {
    x.value < y.value || (x.value == y.value && y.order <= x.order)
  }

  lemma NextReach(was: seq<Entry>, es: seq<Entry>, i: nat)
    requires i < |was| == |es| && es == was[i := es[i]] && Reaches(was, i) && es[i].last == was[i].last
    requires es[i].reach == if i > 0 && was[i - 1].reach > was[i].last then was[i - 1].reach else was[i].last
    ensures Reaches(es, i + 1)
  {
    forall k | 0 <= k < i + 1 ensures ReachIs(es, k) {
      if k < i {
        assert ReachIs(was, k);
        var j :| 0 <= j <= k && was[j].last == was[k].reach;
        assert es[j].last == es[k].reach;
      } else if i > 0 {
        assert ReachIs(was, i - 1);
        var j :| 0 <= j <= i - 1 && was[j].last == was[i - 1].reach;
        assert es[j].last == was[i - 1].reach;
      }
    }
  }

  /** Nothing below where the backward walk stopped is better. */
  lemma SearchEnds(es: seq<Entry>, addr: Word, i: nat, best: Option<nat>)
    requires i <= |es| && Sorted(es) && Reaches(es, |es|)
    requires best.None? ==> forall k :: i <= k < |es| ==> !EntryCovers(es[k], addr)
    requires best.Some? ==> i <= best.value < |es| && EntryCovers(es[best.value], addr)
    requires best.Some? ==> forall k :: i <= k < |es| && EntryCovers(es[k], addr) ==> Worse(es[k], es[best.value])
    requires i > 0 ==> es[i - 1].reach < addr || (best.Some? && es[i - 1].value != es[best.value].value)
    ensures match best case Some(b) => Best(es, addr, b) case None => NoEntryCovers(es, addr)
  {
    forall k | 0 <= k < |es| && EntryCovers(es[k], addr)
      ensures best.Some? && Worse(es[k], es[best.value])
    {
      if k < i {
        assert ReachIs(es, i - 1);
        assert k == i - 1 || Before(es[k], es[i - 1]);
        assert best.Some? ==> Before(es[i - 1], es[best.value]);
      }
    }
  }
}
