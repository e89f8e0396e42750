/** What the words of the cache mean: its entries, lists and counters, and how writing single
    words changes them. */
module CacheImage {
  import opened Blocks
  import opened Segment
  import opened FreeList
  import opened HeapModel
  import opened HeapImage
  import opened CacheLists
  import opened CacheMove
  import opened CacheModel

  // ----- Counters of the cache header, in words -----

  const MISSES: nat := 2
  const HITS: nat := 1
  const INSERTS: nat := 3
  const CLEANUPS: nat := 4
  const DEFRAGS: nat := 5
  const EXPUNGES: nat := 6
  const ENTRIES: nat := 7
  const MEM: nat := 8
  const STIME: nat := 9

  ghost function Items(pay: Payloads, hb: nat): map<nat, Item> {
    map e | e in pay && e != hb :: Record(pay, e)
  }

  ghost function StateOf(pay: Payloads, hb: nat, chains: Chains): State {
    State(Items(pay, hb), chains)
  }

  /** The words of the cache header before the head cells. */
  ghost function Counters(pay: Payloads, hb: nat): (c: seq<int>)
    ensures |c| == GC
  {
    if hb in pay && |pay[hb]| >= GC then pay[hb][..GC] else seq(GC, i => 0)
  }

  ghost predicate EntriesOnly(pay: Payloads, hb: nat) {
    forall e {:trigger IsEntry(pay, hb, e)} | e in pay && e != hb :: IsEntry(pay, hb, e)
  }

  /** The memory holds a cache header, entries and linked lists, and nothing else. */
  ghost predicate Image(pay: Payloads, hb: nat, chains: Chains) {
    Chained(pay, hb, chains) && EntriesOnly(pay, hb)
  }

  // ----- Writes that change no link -----

  lemma ChainedKept(pay: Payloads, pay1: Payloads, hb: nat, chains: Chains)
    requires Chained(pay, hb, chains) && HeaderOk(pay1, hb, chains) && AllEntries(pay1, hb, chains)
    requires forall k, i | 0 <= k < |chains| && 0 <= i <= |chains[k]| ::
               Cell(pay1, hb, CellOf(hb, chains, k, i)) == Cell(pay, hb, CellOf(hb, chains, k, i))
    requires forall k, i | 0 <= k < |chains| && 0 <= i < |chains[k]| ::
             Prev(pay1, chains[k][i]) == Prev(pay, chains[k][i])
    ensures Chained(pay1, hb, chains)
  {
    hide Cell, Prev, Separate, AllEntries;
    forall k | 0 <= k < |chains|
      ensures ListAt(pay1, hb, chains, k)
    {
      assert ListAt(pay, hb, chains, k);
      var c := Cells(hb, k, chains[k]);
      assert forall j | 0 <= j < |c| :: c[j] == CellOf(hb, chains, k, j);
      assert forall j | 0 < j < |c| :: c[j] == chains[k][j - 1];
      SameLinked(pay, pay1, hb, c);
    }
  }

  lemma CellBehindHeader(pay: Payloads, hb: nat, chains: Chains, k: nat, i: nat)
    requires HeaderOk(pay, hb, chains) && AllEntries(pay, hb, chains) && k < |chains| && i <= |chains[k]|
    ensures hb in pay && hb + GC <= CellOf(hb, chains, k, i)
    ensures CellOf(hb, chains, k, i) < hb + |pay[hb]| || (i > 0 && IsEntry(pay, hb, CellOf(hb, chains, k, i)))
  {
  }

  lemma CounterWrite(pay: Payloads, hb: nat, chains: Chains, f: nat, x: int)
    requires Image(pay, hb, chains) && f < GC
    ensures hb in pay && |pay[hb]| >= GC
    ensures var pay1 := pay[hb := pay[hb][f := x]];
            && Image(pay1, hb, chains) && Items(pay1, hb) == Items(pay, hb)
            && Counters(pay1, hb) == Counters(pay, hb)[f := x]
  {
    hide Separate, AllLinked, CacheLists.Linked;
    var pay1 := pay[hb := pay[hb][f := x]];
    EntriesKept(pay, pay1, hb, chains);
    forall k, i | 0 <= k < |chains| && 0 <= i <= |chains[k]|
      ensures Cell(pay1, hb, CellOf(hb, chains, k, i)) == Cell(pay, hb, CellOf(hb, chains, k, i))
    {
      CellBehindHeader(pay, hb, chains, k, i);
    }
    forall k, i | 0 <= k < |chains| && 0 <= i < |chains[k]|
      ensures Prev(pay1, chains[k][i]) == Prev(pay, chains[k][i])
    {
      assert IsEntry(pay, hb, chains[k][i]);
    }
    ChainedKept(pay, pay1, hb, chains);
    OthersKept(pay, pay1, hb, hb);
  }

  /** One allocation was written to; the others still are what they were. */
  lemma OthersKept(pay: Payloads, pay1: Payloads, hb: nat, a: nat)
    requires EntriesOnly(pay, hb) && SameLengths(pay, pay1) && hb in pay
    requires forall e | e in pay && e != a :: pay1[e] == pay[e]
    ensures EntriesOnly(pay1, hb)
    ensures a == hb ==> Items(pay1, hb) == Items(pay, hb)
    ensures a != hb && a in pay ==> Items(pay1, hb) == Items(pay, hb)[a := Record(pay1, a)]
  {
    forall e | e in pay1 && e != hb
      ensures IsEntry(pay1, hb, e)
    {
      assert IsEntry(pay, hb, e);
    }
  }

  lemma FieldPlace(pay: Payloads, hb: nat, chains: Chains, e: nat, f: nat)
    requires EntriesOnly(pay, hb) && e in Items(pay, hb) && TTL <= f < TTL + |Items(pay, hb)[e]|
    ensures IsEntry(pay, hb, e) && e in pay && f < |pay[e]| && Items(pay, hb)[e][f - TTL] == pay[e][f]
  {
    assert IsEntry(pay, hb, e);
  }

  lemma ItemIsEntry(pay: Payloads, hb: nat, e: nat)
    requires EntriesOnly(pay, hb) && e in Items(pay, hb)
    ensures IsEntry(pay, hb, e)
  {
    hide IsEntry;
  }

  lemma ItemSized(pay: Payloads, hb: nat, chains: Chains, e: nat)
    requires Image(pay, hb, chains) && e in Items(pay, hb)
    ensures |Items(pay, hb)[e]| >= KEY - TTL
  {
    hide Chained;
    assert IsEntry(pay, hb, e);
  }

  lemma EntryIn(pay: Payloads, hb: nat, e: nat)
    requires IsEntry(pay, hb, e)
    ensures e in Items(pay, hb)
  {
  }

  lemma CellReads(pay: Payloads, hb: nat, chains: Chains, k: nat, i: nat)
    requires Image(pay, hb, chains) && k < |chains| && i <= |chains[k]|
    ensures var cell := CellOf(hb, chains, k, i);
            && IsCell(pay, hb, cell) && (Cell(pay, hb, cell) == 0) == (i == |chains[k]|)
            && (i < |chains[k]| ==>
                  && hb + Cell(pay, hb, cell) == chains[k][i] && chains[k][i] in Items(pay, hb)
                  && |Items(pay, hb)[chains[k][i]]| >= KEY - TTL)
  {
    hide Separate, AllLinked, Cell;
    CellOfIsCell(pay, hb, chains, k, i);
    LinksAt(pay, hb, chains, k, i);
  }

  lemma FieldWrite(pay: Payloads, hb: nat, chains: Chains, e: nat, f: nat, x: int)
    requires Image(pay, hb, chains) && e in Items(pay, hb) && TTL <= f < |pay[e]|
    ensures var pay1 := pay[e := pay[e][f := x]];
            && Image(pay1, hb, chains) && f - TTL < |Items(pay, hb)[e]|
            && Items(pay1, hb) == Items(pay, hb)[e := Items(pay, hb)[e][f - TTL := x]]
            && Counters(pay1, hb) == Counters(pay, hb)
  {
    hide Separate, AllLinked, CacheLists.Linked;
    var pay1 := pay[e := pay[e][f := x]];
    assert IsEntry(pay, hb, e);
    EntriesKept(pay, pay1, hb, chains);
    forall k, i | 0 <= k < |chains| && 0 <= i <= |chains[k]|
      ensures Cell(pay1, hb, CellOf(hb, chains, k, i)) == Cell(pay, hb, CellOf(hb, chains, k, i))
    {
      CellBehindHeader(pay, hb, chains, k, i);
    }
    ChainedKept(pay, pay1, hb, chains);
    OthersKept(pay, pay1, hb, e);
    assert Record(pay1, e) == Record(pay, e)[f - TTL := x];
  }

  lemma RelinkWrite(pay: Payloads, pay1: Payloads, hb: nat)
    requires EntriesOnly(pay, hb) && SameRecords(pay, pay1, hb)
    ensures EntriesOnly(pay1, hb) && Items(pay1, hb) == Items(pay, hb) && Counters(pay1, hb) == Counters(pay, hb)
  {
    hide Record;
    forall e | e in pay1 && e != hb
      ensures IsEntry(pay1, hb, e)
    {
      assert IsEntry(pay, hb, e);
    }
  }

  // ----- Allocations that come and go -----

  lemma ReleaseImage(pay: Payloads, hb: nat, chains: Chains, e: nat)
    requires Image(pay, hb, chains) && e != hb && Unlisted(chains, e)
    ensures var pay1 := pay - {e};
            && Image(pay1, hb, chains) && Items(pay1, hb) == Items(pay, hb) - {e}
            && Counters(pay1, hb) == Counters(pay, hb)
  {
    hide Separate, AllLinked, CacheLists.Linked;
    var pay1 := pay - {e};
    forall f | f in pay && f != hb && f != e
      ensures IsEntry(pay1, hb, f)
    {
      assert IsEntry(pay, hb, f);
    }
    forall k, i | 0 <= k < |chains| && 0 <= i <= |chains[k]|
      ensures Cell(pay1, hb, CellOf(hb, chains, k, i)) == Cell(pay, hb, CellOf(hb, chains, k, i))
    {
      CellBehindHeader(pay, hb, chains, k, i);
      assert CellOf(hb, chains, k, i) == e ==> i == 0;
    }
    ChainedKept(pay, pay1, hb, chains);
    assert forall f | f in Items(pay1, hb) :: Record(pay1, f) == Record(pay, f);
  }

  lemma Acquire(pay: Payloads, hb: nat, chains: Chains, e: nat, ws: seq<int>)
    requires Image(pay, hb, chains) && hb < e && e !in pay && |ws| >= KEY && hb + |pay[hb]| <= e
    ensures var pay1 := pay[e := ws];
            && Image(pay1, hb, chains) && Items(pay1, hb) == Items(pay, hb)[e := ws[TTL..]]
            && Counters(pay1, hb) == Counters(pay, hb) && Unlisted(chains, e)
  {
    hide Separate, AllLinked, CacheLists.Linked;
    var pay1 := pay[e := ws];
    forall f | f in pay1 && f != hb
      ensures IsEntry(pay1, hb, f)
    {
      assert f in pay ==> IsEntry(pay, hb, f);
    }
    forall k, i | 0 <= k < |chains| && 0 <= i <= |chains[k]|
      ensures Cell(pay1, hb, CellOf(hb, chains, k, i)) == Cell(pay, hb, CellOf(hb, chains, k, i))
    {
      CellBehindHeader(pay, hb, chains, k, i);
    }
    ChainedKept(pay, pay1, hb, chains);
    assert forall f | f in Items(pay1, hb) && f != e :: Record(pay1, f) == Record(pay, f);
  }

  /** The header is the first allocation, so a new one lies behind it. */
  lemma BehindHeader(hd: Headers, m: seq<int>, pay: Payloads, h: Heap, lo: nat, hi: nat, hb: nat, e: nat)
    requires Represents(hd, pay, h, lo, hi) && Laid(m, hd, pay) && hb == lo + B && hb in pay && e in pay && e != hb
    ensures hb < e && hb + |pay[hb]| <= e
  {
    hide Shape, Listed, CoalescedBut, Lists, Adjoining, Apart, PayloadsIn, HeadersIn;
    assert InUsedBlock(h.blocks, e);
    assert lo <= e - B;
  }

  // ----- Ownership, in terms of the state -----

  ghost predicate LooseIn(st: State, e: nat) {
    e in st.items && Unlisted(st.chains, e) && Field(st.items[e], REFS) > 0
  }

  ghost predicate OwnedIn(st: State, loose: set<nat>, e: nat) {
    e in loose || !Unlisted(st.chains, e)
  }

  /** Every entry is in a list, or is unlisted and referenced by the process that made it. */
  ghost predicate OwnedBy(st: State, loose: set<nat>) {
    && (forall e {:trigger LooseIn(st, e)} | e in loose :: LooseIn(st, e))
    && (forall e {:trigger OwnedIn(st, loose, e)} | e in st.items :: OwnedIn(st, loose, e))
  }

  lemma RefsField(pay: Payloads, hb: nat, e: nat)
    requires e in pay && e != hb
    ensures e in Items(pay, hb) && Field(Items(pay, hb)[e], REFS) == Refs(pay, e)
  {
  }

  lemma OwnedIsCacheOk(pay: Payloads, hb: nat, chains: Chains, loose: set<nat>)
    requires Image(pay, hb, chains) && OwnedBy(StateOf(pay, hb, chains), loose)
    ensures CacheOk(pay, hb, chains, loose)
  {
    hide Chained, Unlisted, Refs, Field, IsEntry, Record;
    var st := StateOf(pay, hb, chains);
    forall e | e in loose
      ensures IsLoose(pay, hb, chains, e)
    {
      assert LooseIn(st, e);
      RefsField(pay, hb, e);
      assert IsEntry(pay, hb, e);
    }
    forall e | e in pay
      ensures Owned(pay, hb, chains, loose, e)
    {
      assert e != hb ==> OwnedIn(st, loose, e);
    }
  }

  lemma CacheOkIsOwned(pay: Payloads, hb: nat, chains: Chains, loose: set<nat>)
    requires CacheOk(pay, hb, chains, loose)
    ensures Image(pay, hb, chains) && OwnedBy(StateOf(pay, hb, chains), loose)
  {
    hide AllLinked, Separate, Refs, Field, Record;
    var st := StateOf(pay, hb, chains);
    forall e | e in loose
      ensures LooseIn(st, e)
    {
      assert IsLoose(pay, hb, chains, e);
      RefsField(pay, hb, e);
    }
    forall e | e in pay && e != hb
      ensures IsEntry(pay, hb, e) && OwnedIn(st, loose, e)
    {
      assert Owned(pay, hb, chains, loose, e);
      if e in loose {
        assert IsLoose(pay, hb, chains, e);
      }
    }
  }
}
