/** The cache as client of the defragmenter: the callback that patches the neighbours of an
    entry before the entry is moved, and what all cache lists mean throughout. */
module CacheMove {
  import opened Segment
  import opened FreeList
  import opened DefragModel
  import opened CacheLists

  // ----- Who owns which allocation -----

  ghost function Refs(pay: Payloads, e: nat): int {
    if |Record(pay, e)| > REFS - TTL then Record(pay, e)[REFS - TTL] else 0
  }

  /** An entry that is in no list, but referenced by the process that is about to use it. */
  ghost predicate IsLoose(pay: Payloads, hb: nat, chains: Chains, e: nat) {
    IsEntry(pay, hb, e) && Unlisted(chains, e) && Refs(pay, e) > 0
  }

  ghost predicate Owned(pay: Payloads, hb: nat, chains: Chains, loose: set<nat>, e: nat) {
    e == hb || e in loose || !Unlisted(chains, e)
  }

  /** Every allocation is the cache header, or an entry of exactly one list, or loose. */
  ghost predicate CacheOk(pay: Payloads, hb: nat, chains: Chains, loose: set<nat>) {
    && Chained(pay, hb, chains)
    && (forall e | e in loose :: IsLoose(pay, hb, chains, e))
    && (forall e {:trigger Owned(pay, hb, chains, loose, e)} | e in pay :: Owned(pay, hb, chains, loose, e))
  }

  /** Where a listed entry is. */
  lemma Position(chains: Chains, e: nat) returns (k: nat, i: nat)
    requires !Unlisted(chains, e)
    ensures k < |chains| && i < |chains[k]| && chains[k][i] == e
  {
    k, i :| 0 <= k < |chains| && 0 <= i < |chains[k]| && chains[k][i] == e;
  }

  // ----- Same entries, possibly elsewhere -----

  ghost predicate SameEntry(pay0: Payloads, e0: nat, pay: Payloads, e: nat) {
    Record(pay, e) == Record(pay0, e0) && (Refs(pay0, e0) > 0 ==> e == e0)
  }

  /** Each list holds the same entries in the same order with the same keys, values and
      metadata; referenced entries have kept their addresses. */
  ghost predicate SameMeaning(pay0: Payloads, chains0: Chains, pay: Payloads, chains: Chains, hb: nat,
                              loose: set<nat>) {
    && |chains| == |chains0|
    && (forall k | 0 <= k < |chains| :: |chains[k]| == |chains0[k]|)
    && (forall k, i | 0 <= k < |chains| && 0 <= i < |chains[k]| :: SameEntry(pay0, chains0[k][i], pay, chains[k][i]))
    && (forall e | e in loose :: Record(pay, e) == Record(pay0, e))
    && hb in pay0 && hb in pay && |pay[hb]| == |pay0[hb]|
    && (forall i | 0 <= i < GC && i < |pay[hb]| :: pay[hb][i] == pay0[hb][i])
  }

  // ----- The callback -----

  /** Asked about the entry at `from`: refuses while it is referenced, else redirects the
      cell that names it and the back link of its successor to the new address `to`. */
  function MoveEntry(hb: nat, m: seq<int>, from: nat, to: nat): (bool, seq<int>)
    requires from + KEY <= |m|
    requires m[from + REFS] <= 0 ==>
      && 0 <= hb + m[from + PREV] < |m| && hb + m[from + PREV] != from + NEXT
      && (m[from + NEXT] != 0 ==> 0 <= hb + m[from + NEXT] + PREV < |m|)
  {
    if m[from + REFS] > 0 then (false, m)
    else
      var m1 := m[hb + m[from + PREV] := to - hb];
      if m1[from + NEXT] != 0 then (true, m1[hb + m1[from + NEXT] + PREV := to - hb]) else (true, m1)
  }

  /** What accepting does to the payloads. */
  ghost function MoveLinks(hb: nat, pay: Payloads, from: nat, to: nat): Payloads {
    var p, n := hb + Prev(pay, from), Cell(pay, hb, from);
    if p < 0 then pay
    else
      var pay1 := SetCell(pay, hb, p, to - hb);
      if n > 0 then SetPrev(pay1, hb + n, to - hb) else pay1
  }

  ghost function Replaced(chains: Chains, k: nat, i: nat, to: nat): Chains
    requires k < |chains| && i < |chains[k]|
  {
    var es: seq<nat> := chains[k][i := to];
    chains[k := es]
  }

  lemma MoveLinksRelinks(pay: Payloads, hb: nat, from: nat, to: nat, cell: nat, next: nat)
    requires IsCell(pay, hb, cell) && IsEntry(pay, hb, from) && Prev(pay, from) == cell - hb
    requires Cell(pay, hb, from) == 0 || (Cell(pay, hb, from) == next - hb && IsEntry(pay, hb, next))
    ensures Relinked(pay, MoveLinks(hb, pay, from, to), hb, map[cell := to - hb],
                     if Cell(pay, hb, from) > 0 then map[next := to - hb] else map[])
  {
    hide SetCell, SetPrev, Cell, Prev, Record;
    var n, pay1 := Cell(pay, hb, from), SetCell(pay, hb, cell, to - hb);
    SetCellRelinks(pay, hb, cell, to - hb);
    RelinkedNodes(pay, pay1, hb, map[cell := to - hb], map[]);
    if n > 0 {
      SetPrevRelinks(pay1, hb, next, to - hb);
      RelinkedTwice(pay, pay1, MoveLinks(hb, pay, from, to), hb, map[cell := to - hb], map[], map[],
                    map[next := to - hb]);
      assert map[cell := to - hb] + map[] == map[cell := to - hb];
      assert map[] + map[next := to - hb] == map[next := to - hb];
    }
  }

  /** The allocation at `to` is the one that was at `from`; all else is unchanged. */
  ghost predicate EntryMoved(pay: Payloads, pay1: Payloads, hb: nat, to: nat, from: nat) {
    && hb in pay && hb in pay1 && pay1[hb] == pay[hb] && to != hb
    && (forall a: nat {:trigger Cell(pay1, hb, a)} | a != from ::
        Cell(pay1, hb, a) == Cell(pay, hb, if a == to then from else a))
    && (forall a: nat {:trigger Prev(pay1, a)} | a != from :: Prev(pay1, a) == Prev(pay, if a == to then from else a))
    && (forall a: nat {:trigger Record(pay1, a)} | a != from ::
        Record(pay1, a) == Record(pay, if a == to then from else a))
    && (forall a: nat {:trigger IsEntry(pay1, hb, a)} | a != from ::
        IsEntry(pay1, hb, a) <==> IsEntry(pay, hb, if a == to then from else a))
  }

  lemma RenamedMoves(pay: Payloads, hb: nat, to: nat, from: nat)
    requires hb in pay && IsEntry(pay, hb, from) && hb + |pay[hb]| <= to < from && to !in pay && hb < to
    ensures EntryMoved(pay, Renamed(pay, to, from), hb, to, from)
  {
  }

  lemma LinkedMove(pay: Payloads, pay1: Payloads, pay2: Payloads, hb: nat, c: seq<nat>, i: nat, to: nat,
                   nx: map<nat, int>, pv: map<nat, int>)
    requires Linked(pay, hb, c) && Distinct(c) && hb !in c && 0 < i < |c| && to !in c && to != hb
    requires Relinked(pay, pay1, hb, nx, pv) && EntryMoved(pay1, pay2, hb, to, c[i])
    requires nx == map[c[i - 1] := to - hb]
    requires pv == if i + 1 < |c| then map[c[i + 1] := to - hb] else map[]
    ensures Linked(pay2, hb, c[i := to])
  {
    hide Cell, Prev, Record, IsEntry, SameLengths;
    var c2, from := c[i := to], c[i];
    forall j, l | 0 <= j < |c2| && 0 <= l < |c2| && l == j + 1
      ensures Cell(pay2, hb, c2[j]) == c2[l] - hb && Prev(pay2, c2[l]) == c2[j] - hb
    {
      assert Cell(pay, hb, c[j]) == c[l] - hb && Prev(pay, c[l]) == c[j] - hb;
      assert c2[j] != from && c2[l] != from;
    }
    assert c2[|c2| - 1] != from;
  }

  /** The entry at position `i` of list `k` is moved from its address to `to`. */
  ghost function AfterMove(pay: Payloads, hb: nat, from: nat, to: nat): Payloads {
    Renamed(MoveLinks(hb, pay, from, to), to, from)
  }

  /** Room below the entry, as the defragmenter finds it. */
  ghost predicate FreeTarget(pay: Payloads, hb: nat, to: nat, from: nat) {
    hb in pay && hb < to && hb + |pay[hb]| <= to < from && to !in pay && from in pay
  }

  lemma NotInCells(pay: Payloads, hb: nat, chains: Chains, l: nat, to: nat)
    requires HeaderOk(pay, hb, chains) && AllEntries(pay, hb, chains) && l < |chains|
    requires hb in pay && hb + |pay[hb]| <= to && to !in pay
    ensures to !in Cells(hb, l, chains[l])
  {
    var c := Cells(hb, l, chains[l]);
    forall j | 0 <= j < |c|
      ensures c[j] != to
    {
      assert j > 0 ==> c[j] == chains[l][j - 1] && IsEntry(pay, hb, chains[l][j - 1]);
    }
  }

  /** A list without the moved entry stays linked. */
  lemma OtherListMoved(pay1: Payloads, pay2: Payloads, hb: nat, c: seq<nat>, to: nat, from: nat)
    requires Linked(pay1, hb, c) && EntryMoved(pay1, pay2, hb, to, from) && to !in c && from !in c
    ensures Linked(pay2, hb, c)
  {
    hide Cell, Prev, Record, IsEntry;
    assert SameLinks(pay1, pay2, hb, c);
    SameLinked(pay1, pay2, hb, c);
  }

  lemma MoveStep(pay: Payloads, hb: nat, chains: Chains, k: nat, i: nat, to: nat)
    requires Chained(pay, hb, chains) && k < |chains| && i < |chains[k]| && FreeTarget(pay, hb, to, chains[k][i])
    ensures var es, from, cell := chains[k], chains[k][i], CellOf(hb, chains, k, i);
            var pay1 := MoveLinks(hb, pay, from, to);
            && IsEntry(pay, hb, from) && IsCell(pay, hb, cell) && cell != from && Prev(pay, from) == cell - hb
            && Relinked(pay, pay1, hb, map[cell := to - hb], if i + 1 < |es| then map[es[i + 1] := to - hb] else map[])
            && EntryMoved(pay1, AfterMove(pay, hb, from, to), hb, to, from)
            && Cell(pay, hb, from) == (if i + 1 < |es| then es[i + 1] - hb else 0)
            && (i + 1 < |es| ==> IsEntry(pay, hb, es[i + 1]))
  {
    hide Cell, Prev, Record, Separate, AllLinked, MoveLinks;
    var es, from, cell := chains[k], chains[k][i], CellOf(hb, chains, k, i);
    CellOfIsCell(pay, hb, chains, k, i);
    LinksAt(pay, hb, chains, k, i);
    LinksAt(pay, hb, chains, k, i + 1);
    MoveLinksRelinks(pay, hb, from, to, cell, if i + 1 < |es| then es[i + 1] else 0);
    RenamedMoves(MoveLinks(hb, pay, from, to), hb, to, from);
  }

  lemma MovedList(pay: Payloads, hb: nat, chains: Chains, k: nat, i: nat, to: nat)
    requires Chained(pay, hb, chains) && k < |chains| && i < |chains[k]| && FreeTarget(pay, hb, to, chains[k][i])
    ensures ListAt(AfterMove(pay, hb, chains[k][i], to), hb, Replaced(chains, k, i, to), k)
  {
    hide Cell, Prev, Record, Linked, MoveLinks, AfterMove, Relinked, EntryMoved, Separate;
    var es, c := chains[k], Cells(hb, k, chains[k]);
    var pay1, pay2 := MoveLinks(hb, pay, es[i], to), AfterMove(pay, hb, es[i], to);
    MoveStep(pay, hb, chains, k, i, to);
    assert ListAt(pay, hb, chains, k);
    CellsDistinct(pay, hb, chains, k);
    NotInCells(pay, hb, chains, k, to);
    assert c[i] == CellOf(hb, chains, k, i) && c[i + 1] == es[i];
    assert i + 1 < |es| ==> c[i + 2] == es[i + 1];
    LinkedMove(pay, pay1, pay2, hb, c, i + 1, to, map[c[i] := to - hb], if i + 2 < |c| then map[c[i + 2] := to - hb]
               else map[]);
    assert c[i + 1 := to] == Cells(hb, k, Replaced(chains, k, i, to)[k]);
  }

  lemma MovedOther(pay: Payloads, hb: nat, chains: Chains, k: nat, i: nat, to: nat, l: nat)
    requires Chained(pay, hb, chains) && k < |chains| && i < |chains[k]| && FreeTarget(pay, hb, to, chains[k][i])
    requires l < |chains| && l != k
    ensures ListAt(AfterMove(pay, hb, chains[k][i], to), hb, Replaced(chains, k, i, to), l)
  {
    hide Cell, Prev, Record, Linked, MoveLinks, AfterMove, Relinked, EntryMoved, AllEntries, Separate;
    var es, from, cell := chains[k], chains[k][i], CellOf(hb, chains, k, i);
    var pay1, pay2 := MoveLinks(hb, pay, from, to), AfterMove(pay, hb, from, to);
    MoveStep(pay, hb, chains, k, i, to);
    CellOfIsCell(pay, hb, chains, k, i);
    NodesApart(pay, hb, chains, k, l, cell);
    assert NodeOf(hb, chains, k, from);
    NodesApart(pay, hb, chains, k, l, from);
    if i + 1 < |es| {
      assert NodeOf(hb, chains, k, es[i + 1]);
      NodesApart(pay, hb, chains, k, l, es[i + 1]);
    }
    assert ListAt(pay, hb, chains, l);
    OtherList(pay, pay1, hb, chains, l, map[cell := to - hb], if i + 1 < |es| then map[es[i + 1] := to - hb]
              else map[]);
    NotInCells(pay, hb, chains, l, to);
    assert from !in Cells(hb, l, chains[l]);
    assert ListAt(pay1, hb, chains, l);
    OtherListMoved(pay1, pay2, hb, Cells(hb, l, chains[l]), to, from);
  }

  lemma MovedEntries(pay: Payloads, hb: nat, chains: Chains, k: nat, i: nat, to: nat)
    requires Chained(pay, hb, chains) && k < |chains| && i < |chains[k]| && FreeTarget(pay, hb, to, chains[k][i])
    ensures var pay2, chains2 := AfterMove(pay, hb, chains[k][i], to), Replaced(chains, k, i, to);
            && HeaderOk(pay2, hb, chains2) && AllEntries(pay2, hb, chains2) && Separate(chains2)
            && |pay2[hb]| == |pay[hb]| && (forall j | 0 <= j < GC && j < |pay[hb]| :: pay2[hb][j] == pay[hb][j])
            && (forall e: nat | e != hb && e != chains[k][i] && e != to :: Record(pay2, e) == Record(pay, e))
            && Record(pay2, to) == Record(pay, chains[k][i])
            && (forall e: nat | e != hb && e != chains[k][i] && e != to ::
                IsEntry(pay2, hb, e) <==> IsEntry(pay, hb, e))
            && IsEntry(pay2, hb, to) && pay2.Keys == pay.Keys - {chains[k][i]} + {to}
  {
    hide Cell, Prev, Record, Linked, MoveLinks, AllLinked;
    var from, chains2 := chains[k][i], Replaced(chains, k, i, to);
    var pay1, pay2 := MoveLinks(hb, pay, from, to), AfterMove(pay, hb, from, to);
    MoveStep(pay, hb, chains, k, i, to);
    ReplacedSeparate(pay, hb, chains, k, i, to);
    MovedRecords(pay, pay1, pay2, hb, to, from);
    hide Relinked, EntryMoved, Separate, Renamed;
    forall l, j | 0 <= l < |chains2| && 0 <= j < |chains2[l]|
      ensures IsEntry(pay2, hb, chains2[l][j])
    {
      if l != k || j != i {
        assert chains2[l][j] == chains[l][j] && IsEntry(pay, hb, chains[l][j]);
        SeparateFrom(chains, k, i, l, j);
      }
    }
  }

  lemma SeparateFrom(chains: Chains, k: nat, i: nat, l: nat, j: nat)
    requires Separate(chains) && k < |chains| && i < |chains[k]| && l < |chains| && j < |chains[l]|
             && (l != k || j != i)
    ensures chains[l][j] != chains[k][i]
  {
  }

  lemma MovedRecords(pay: Payloads, pay1: Payloads, pay2: Payloads, hb: nat, to: nat, from: nat)
    requires exists nx, pv :: Relinked(pay, pay1, hb, nx, pv)
    requires EntryMoved(pay1, pay2, hb, to, from) && pay2 == Renamed(pay1, to, from) && FreeTarget(pay, hb, to, from)
    requires IsEntry(pay, hb, from)
    ensures |pay2[hb]| == |pay[hb]| && (forall j | 0 <= j < GC && j < |pay[hb]| :: pay2[hb][j] == pay[hb][j])
    ensures forall e: nat | e != hb && e != from && e != to :: Record(pay2, e) == Record(pay, e)
    ensures Record(pay2, to) == Record(pay, from)
    ensures forall e: nat | e != hb && e != from && e != to :: IsEntry(pay2, hb, e) <==> IsEntry(pay, hb, e)
    ensures IsEntry(pay2, hb, to) && pay2.Keys == pay.Keys - {from} + {to}
  {
    hide Cell, Prev, Record;
  }

  lemma ReplacedSeparate(pay: Payloads, hb: nat, chains: Chains, k: nat, i: nat, to: nat)
    requires AllEntries(pay, hb, chains) && Separate(chains) && k < |chains| && i < |chains[k]| && to !in pay
    ensures Separate(Replaced(chains, k, i, to))
  {
    forall l, j | 0 <= l < |chains| && 0 <= j < |chains[l]|
      ensures chains[l][j] != to
    {
      assert IsEntry(pay, hb, chains[l][j]);
    }
  }

  /** Patching the neighbours and then moving the entry keeps every list linked. */
  lemma MoveChained(pay: Payloads, hb: nat, chains: Chains, k: nat, i: nat, to: nat)
    requires Chained(pay, hb, chains) && k < |chains| && i < |chains[k]| && FreeTarget(pay, hb, to, chains[k][i])
    ensures Chained(AfterMove(pay, hb, chains[k][i], to), hb, Replaced(chains, k, i, to))
  {
    hide Cell, Prev, Record, Linked, AfterMove, AllEntries, Separate;
    var pay2, chains2 := AfterMove(pay, hb, chains[k][i], to), Replaced(chains, k, i, to);
    MovedEntries(pay, hb, chains, k, i, to);
    forall l | 0 <= l < |chains2|
      ensures ListAt(pay2, hb, chains2, l)
    {
      if l == k {
        MovedList(pay, hb, chains, k, i, to);
      } else {
        MovedOther(pay, hb, chains, k, i, to, l);
      }
    }
  }

  // ----- The callback keeps the meaning of the cache -----

  /** What the cache was when the defragmentation began. */
  datatype Origin = Origin(hb: nat, pay: Payloads, chains: Chains, loose: set<nat>)

  ghost predicate Witness(o: Origin, pay: Payloads, chains: Chains) {
    CacheOk(pay, o.hb, chains, o.loose) && SameMeaning(o.pay, o.chains, pay, chains, o.hb, o.loose)
  }

  /** The payloads are those of a cache with the same lists of the same entries. */
  ghost predicate StillMeans(o: Origin, pay: Payloads) {
    exists chains :: Witness(o, pay, chains)
  }

  /** The entries that must not move. */
  ghost function Pinned(o: Origin): set<nat> {
    set e | e in o.pay && e != o.hb && Refs(o.pay, e) > 0
  }

  lemma AskedEntry(o: Origin, pay: Payloads, chains: Chains, to: nat, from: nat)
    requires Witness(o, pay, chains) && MayAsk(pay, o.hb, to, from)
    ensures FreeTarget(pay, o.hb, to, from) && IsEntry(pay, o.hb, from)
    ensures from !in o.loose ==> !Unlisted(chains, from)
  {
    hide SameMeaning, Separate, AllLinked, Record;
    assert Owned(pay, o.hb, chains, o.loose, from);
    forall e | e in pay
      ensures |pay[e]| > 0
    {
      assert Owned(pay, o.hb, chains, o.loose, e);
    }
  }

  lemma PinnedIffReferenced(o: Origin, pay: Payloads, chains: Chains, from: nat)
    requires CacheOk(o.pay, o.hb, o.chains, o.loose) && Witness(o, pay, chains)
    requires IsEntry(pay, o.hb, from) && (from !in o.loose ==> !Unlisted(chains, from))
    ensures from in Pinned(o) <==> Refs(pay, from) > 0
  {
    hide AllLinked, Cell, Prev, Record;
    if from in o.loose {
      assert IsLoose(o.pay, o.hb, o.chains, from);
    } else {
      var k, i := Position(chains, from);
      assert SameEntry(o.pay, o.chains[k][i], pay, chains[k][i]);
      assert IsEntry(o.pay, o.hb, o.chains[k][i]);
      if from in Pinned(o) {
        assert Owned(o.pay, o.hb, o.chains, o.loose, from);
        var k0, i0 := Position(o.chains, from);
        assert SameEntry(o.pay, o.chains[k0][i0], pay, chains[k0][i0]);
        assert k0 == k && i0 == i;
      }
    }
  }

  lemma MovedMeaning(o: Origin, pay: Payloads, chains: Chains, k: nat, i: nat, to: nat)
    requires Witness(o, pay, chains) && k < |chains| && i < |chains[k]| && chains[k][i] !in o.loose
    requires FreeTarget(pay, o.hb, to, chains[k][i]) && Refs(pay, chains[k][i]) <= 0
    ensures Witness(o, AfterMove(pay, o.hb, chains[k][i], to), Replaced(chains, k, i, to))
  {
    hide AllLinked, Cell, Prev, Record, AfterMove, Separate, HeaderOk;
    var from, pay2, chains2 := chains[k][i], AfterMove(pay, o.hb, chains[k][i], to), Replaced(chains, k, i, to);
    MoveChained(pay, o.hb, chains, k, i, to);
    MovedEntries(pay, o.hb, chains, k, i, to);
    MovedOwners(o, pay, pay2, chains, k, i, to);
    forall l, j | 0 <= l < |chains2| && 0 <= j < |chains2[l]|
      ensures SameEntry(o.pay, o.chains[l][j], pay2, chains2[l][j])
    {
      assert SameEntry(o.pay, o.chains[l][j], pay, chains[l][j]);
      if l != k || j != i {
        SeparateFrom(chains, k, i, l, j);
        assert IsEntry(pay, o.hb, chains[l][j]);
      }
    }
    hide AllEntries;
    forall e | e in o.loose
      ensures Record(pay2, e) == Record(o.pay, e)
    {
      assert IsLoose(pay, o.hb, chains, e);
    }
  }

  lemma MovedOwners(o: Origin, pay: Payloads, pay2: Payloads, chains: Chains, k: nat, i: nat, to: nat)
    requires CacheOk(pay, o.hb, chains, o.loose) && k < |chains| && i < |chains[k]| && chains[k][i] !in o.loose
    requires FreeTarget(pay, o.hb, to, chains[k][i])
    requires pay2.Keys == pay.Keys - {chains[k][i]} + {to}
    requires forall e: nat | e != o.hb && e != chains[k][i] && e != to :: Record(pay2, e) == Record(pay, e)
    requires forall e: nat | e != o.hb && e != chains[k][i] && e != to ::
             IsEntry(pay2, o.hb, e) <==> IsEntry(pay, o.hb, e)
    ensures var chains2 := Replaced(chains, k, i, to);
            && (forall e | e in o.loose :: IsLoose(pay2, o.hb, chains2, e))
            && (forall e | e in pay2 :: Owned(pay2, o.hb, chains2, o.loose, e))
  {
    hide AllLinked, Cell, Prev, Record, Separate, AllEntries, HeaderOk;
    var chains2 := Replaced(chains, k, i, to);
    forall e | e in o.loose
      ensures IsLoose(pay2, o.hb, chains2, e)
    {
      assert IsLoose(pay, o.hb, chains, e);
    }
    forall e | e in pay2
      ensures Owned(pay2, o.hb, chains2, o.loose, e)
    {
      if e == to {
        assert chains2[k][i] == e;
      } else {
        assert Owned(pay, o.hb, chains, o.loose, e);
        if !Unlisted(chains, e) {
          var l, j := Position(chains, e);
          assert chains2[l][j] == e;
        }
      }
    }
  }

  // ----- The callback on the words of the segment -----

  lemma WordOf(m: seq<int>, hd: Headers, pay: Payloads, e: nat, i: nat)
    requires Laid(m, hd, pay) && e in pay && i < |pay[e]|
    ensures e + i < |m| && m[e + i] == pay[e][i]
  {
    assert pay[e] == m[e..e + |pay[e]|];
  }

  /** Writing a cell in the segment is SetCell on the payloads. */
  lemma CellWrite(m: seq<int>, hd: Headers, pay: Payloads, hb: nat, a: nat, x: int)
    requires Laid(m, hd, pay) && IsCell(pay, hb, a)
    ensures a < |m| && Laid(m[a := x], hd, SetCell(pay, hb, a, x))
  {
    hide Laid;
    if a < hb + |pay[hb]| {
      PayloadWrite(m, hd, pay, hb, a - hb, x);
    } else {
      PayloadWrite(m, hd, pay, a, NEXT, x);
    }
  }

  lemma PrevWrite(m: seq<int>, hd: Headers, pay: Payloads, hb: nat, e: nat, x: int)
    requires Laid(m, hd, pay) && IsEntry(pay, hb, e)
    ensures e + PREV < |m| && Laid(m[e + PREV := x], hd, SetPrev(pay, e, x))
  {
    hide Laid;
    PayloadWrite(m, hd, pay, e, PREV, x);
  }

  lemma EntryWords(m: seq<int>, hd: Headers, pay: Payloads, hb: nat, e: nat)
    requires Laid(m, hd, pay) && IsEntry(pay, hb, e)
    ensures e + KEY <= |m| && m[e + NEXT] == Cell(pay, hb, e) && m[e + PREV] == Prev(pay, e)
            && m[e + REFS] == Refs(pay, e)
  {
    hide Laid;
    WordOf(m, hd, pay, e, NEXT);
    WordOf(m, hd, pay, e, PREV);
    WordOf(m, hd, pay, e, REFS);
    WordOf(m, hd, pay, e, KEY - 1);
  }

  lemma MoveEntryWrites(m: seq<int>, hd: Headers, pay: Payloads, hb: nat, chains: Chains, k: nat, i: nat, to: nat)
    requires Laid(m, hd, pay) && Chained(pay, hb, chains) && k < |chains| && i < |chains[k]|
    requires FreeTarget(pay, hb, to, chains[k][i]) && Refs(pay, chains[k][i]) <= 0
    ensures var from := chains[k][i];
            && from + KEY <= |m| && m[from + REFS] == Refs(pay, from)
            && 0 <= hb + m[from + PREV] < |m| && hb + m[from + PREV] != from + NEXT
            && (m[from + NEXT] != 0 ==> 0 <= hb + m[from + NEXT] + PREV < |m|)
            && MoveEntry(hb, m, from, to).0 && |MoveEntry(hb, m, from, to).1| == |m|
            && Laid(MoveEntry(hb, m, from, to).1, hd, MoveLinks(hb, pay, from, to))
  {
    hide Laid, Cell, Prev, Refs, Record, Separate, AllLinked, AllEntries, HeaderOk, AfterMove, EntryMoved;
    var es, from, cell := chains[k], chains[k][i], CellOf(hb, chains, k, i);
    MoveStep(pay, hb, chains, k, i, to);
    EntryWords(m, hd, pay, hb, from);
    CellOfIsCell(pay, hb, chains, k, i);
    CellWrite(m, hd, pay, hb, cell, to - hb);
    var m1, pay1 := m[cell := to - hb], SetCell(pay, hb, cell, to - hb);
    SetCellRelinks(pay, hb, cell, to - hb);
    RelinkedNodes(pay, pay1, hb, map[cell := to - hb], map[]);
    hide SetCell, SetPrev, Relinked;
    if i + 1 < |es| {
      PrevWrite(m1, hd, pay1, hb, es[i + 1], to - hb);
    }
  }

  /** The callback meets what the defragmenter expects: at every point of the sweep, with
      neighbours that have moved or are still to be moved, it leaves the cache meaning the
      same, and exactly the referenced entries stay. */
  lemma CacheMoveOk(o: Origin, move: Move, patch: (Payloads, nat, nat) -> Payloads, inv: Payloads -> bool)
    requires CacheOk(o.pay, o.hb, o.chains, o.loose)
    requires forall m: seq<int>, from: nat, to: nat {:trigger move.requires(m, from, to)} ::
               MoveEntry.requires(o.hb, m, from, to) ==>
                 move.requires(m, from, to) && move(m, from, to) == MoveEntry(o.hb, m, from, to)
    requires forall pay, from, to :: patch(pay, from, to) == MoveLinks(o.hb, pay, from, to)
    requires forall pay :: inv(pay) <==> StillMeans(o, pay)
    ensures MoveOk(move, patch, inv, Pinned(o), o.hb)
  {
    hide Laid, StillMeans, CacheOk, MoveEntry, MoveLinks;
    forall m: seq<int>, hd: Headers, pay: Payloads, to: nat, from: nat | Laid(m, hd, pay) && inv(pay)
           && MayAsk(pay, o.hb, to, from)
      ensures MoveOkAt(move, patch, inv, Pinned(o), m, hd, pay, to, from)
    {
      CacheMoveOkAt(o, m, hd, pay, to, from);
    }
  }

  lemma CacheMoveOkAt(o: Origin, m: seq<int>, hd: Headers, pay: Payloads, to: nat, from: nat)
    requires CacheOk(o.pay, o.hb, o.chains, o.loose) && Laid(m, hd, pay) && StillMeans(o, pay)
             && MayAsk(pay, o.hb, to, from)
    ensures MoveEntry.requires(o.hb, m, from, to)
    ensures var (ok, m1) := MoveEntry(o.hb, m, from, to);
            && (ok <==> from !in Pinned(o))
            && if ok then
              var pay1 := MoveLinks(o.hb, pay, from, to);
              from in pay1 && |m1| == |m| && Laid(m1, hd, pay1) && SameLengths(pay, pay1)
                  && StillMeans(o, Renamed(pay1, to, from))
            else m1 == m
  {
    hide Laid, CacheOk, Refs, SameMeaning, MoveLinks, Pinned;
    var chains :| Witness(o, pay, chains);
    AskedEntry(o, pay, chains, to, from);
    PinnedIffReferenced(o, pay, chains, from);
    EntryWords(m, hd, pay, o.hb, from);
    if Refs(pay, from) <= 0 {
      LooseReferenced(o, pay, chains, from);
      var k, i := Position(chains, from);
      WitnessChained(o, pay, chains);
      MoveEntryWrites(m, hd, pay, o.hb, chains, k, i, to);
      MoveStep(pay, o.hb, chains, k, i, to);
      MovedMeaning(o, pay, chains, k, i, to);
    }
  }

  lemma LooseReferenced(o: Origin, pay: Payloads, chains: Chains, e: nat)
    requires Witness(o, pay, chains) && Refs(pay, e) <= 0
    ensures e !in o.loose
  {
    hide SameMeaning, Chained;
    assert forall f | f in o.loose :: IsLoose(pay, o.hb, chains, f);
  }

  lemma WitnessChained(o: Origin, pay: Payloads, chains: Chains)
    requires Witness(o, pay, chains)
    ensures Chained(pay, o.hb, chains)
  {
    hide Chained;
  }
}
