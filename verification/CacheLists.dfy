/** The doubly linked lists of cache entries: one list per hash slot and the list of removed
    entries.  Links are offsets relative to the cache header; since `next` is the first word
    of an entry, a `prev` link may name a head cell or an entry alike. */
module CacheLists {
  import opened Segment
  import opened FreeList

  // ----- Layout, in words -----

  const NEXT: nat := 0
  const PREV: nat := 1
  const TTL: nat := 2
  const REFS: nat := 3
  const NHITS: nat := 4
  const CTIME: nat := 5
  const MTIME: nat := 6
  const DTIME: nat := 7
  const ATIME: nat := 8
  const MEMSIZE: nat := 9
  const VAL: nat := 10     // two words; the string that is the key starts with its own reference count
  const KIND: nat := 11    // the type of the value
  const HASH: nat := 13
  const KEYLEN: nat := 14
  const KEY: nat := 15

  /** Types of values; those below strings have no data of their own. */
  const IS_LONG: int := 4
  const IS_STRING: int := 6

  /** The head cell of the list of removed entries; the head cells of the slots follow. */
  const GC: nat := 14

  /** A list is named by its head cell: 0 is the list of removed entries, s + 1 is slot s. */
  type Chains = seq<seq<nat>>

  ghost function Head(hb: nat, k: nat): nat {
    hb + GC + k
  }

  /** Entries lie behind the cache header, which is the first allocation. */
  ghost predicate IsEntry(pay: Payloads, hb: nat, e: nat) {
    hb in pay && e in pay && hb + |pay[hb]| <= e && KEY <= |pay[e]| && hb < e
  }

  ghost predicate IsCell(pay: Payloads, hb: nat, a: nat) {
    hb in pay && ((hb + GC <= a < hb + |pay[hb]|) || IsEntry(pay, hb, a))
  }

  /** The link stored in the cell at `a`: a head cell, or the first word of an entry. */
  ghost function Cell(pay: Payloads, hb: nat, a: nat): int {
    if hb in pay && hb <= a < hb + |pay[hb]| then pay[hb][a - hb]
    else if a in pay && |pay[a]| > NEXT then pay[a][NEXT] else 0
  }

  ghost function Prev(pay: Payloads, e: nat): int {
    if e in pay && |pay[e]| > PREV then pay[e][PREV] else 0
  }

  /** All of an entry but its links. */
  ghost function Record(pay: Payloads, e: nat): seq<int> {
    if e in pay && |pay[e]| >= TTL then pay[e][TTL..] else []
  }

  ghost function SetCell(pay: Payloads, hb: nat, a: nat, x: int): Payloads {
    if hb in pay && hb <= a < hb + |pay[hb]| then pay[hb := pay[hb][a - hb := x]]
    else if a in pay && |pay[a]| > NEXT then pay[a := pay[a][NEXT := x]] else pay
  }

  ghost function SetPrev(pay: Payloads, e: nat, x: int): Payloads {
    if e in pay && |pay[e]| > PREV then pay[e := pay[e][PREV := x]] else pay
  }

  /** Only links changed: cells as told by `nx`, back links as told by `pv`. */
  ghost predicate Relinked(pay: Payloads, pay1: Payloads, hb: nat, nx: map<nat, int>, pv: map<nat, int>) {
    && SameLengths(pay, pay1) && hb in pay
    && (forall a: nat {:trigger Cell(pay1, hb, a)} :: Cell(pay1, hb, a) == if a in nx then nx[a] else Cell(pay, hb, a))
    && (forall e: nat {:trigger Prev(pay1, e)} | e != hb :: Prev(pay1, e) == if e in pv then pv[e] else Prev(pay, e))
    && (forall e: nat {:trigger Record(pay1, e)} | e != hb :: Record(pay1, e) == Record(pay, e))
    && (forall i | 0 <= i < GC && i < |pay[hb]| :: pay1[hb][i] == pay[hb][i])
  }

  lemma SetCellRelinks(pay: Payloads, hb: nat, a: nat, x: int)
    requires IsCell(pay, hb, a)
    ensures Relinked(pay, SetCell(pay, hb, a, x), hb, map[a := x], map[])
  {
  }

  lemma SetPrevRelinks(pay: Payloads, hb: nat, e: nat, x: int)
    requires IsEntry(pay, hb, e)
    ensures Relinked(pay, SetPrev(pay, e, x), hb, map[], map[e := x])
  {
  }

  lemma RelinkedTwice(pay: Payloads, pay1: Payloads, pay2: Payloads, hb: nat, nx: map<nat, int>, pv: map<nat, int>,
                      nx1: map<nat, int>, pv1: map<nat, int>)
    requires Relinked(pay, pay1, hb, nx, pv) && Relinked(pay1, pay2, hb, nx1, pv1)
    ensures Relinked(pay, pay2, hb, nx + nx1, pv + pv1)
  {
  }

  /** The cells of list `k`: its head and then its entries. */
  ghost function Cells(hb: nat, k: nat, es: seq<nat>): (c: seq<nat>)
    ensures |c| == |es| + 1 && c[0] == Head(hb, k)
  {
    [Head(hb, k)] + es
  }

  /** Each cell names the next entry, each entry names the cell that names it. */
  ghost predicate Linked(pay: Payloads, hb: nat, c: seq<nat>) {
    && (forall j, k | 0 <= j < |c| && 0 <= k < |c| && k == j + 1 ::
          Cell(pay, hb, c[j]) == c[k] - hb && Prev(pay, c[k]) == c[j] - hb)
    && (|c| > 0 ==> Cell(pay, hb, c[|c| - 1]) == 0)
  }

  ghost predicate ListAt(pay: Payloads, hb: nat, chains: Chains, k: nat) {
    k < |chains| ==> Linked(pay, hb, Cells(hb, k, chains[k]))
  }

  ghost predicate AllLinked(pay: Payloads, hb: nat, chains: Chains) {
    forall k {:trigger ListAt(pay, hb, chains, k)} | 0 <= k < |chains| :: ListAt(pay, hb, chains, k)
  }

  /** No entry occurs twice. */
  ghost predicate Separate(chains: Chains) {
    forall k, i, l, j | 0 <= k < |chains| && 0 <= i < |chains[k]| && 0 <= l < |chains| && 0 <= j < |chains[l]| ::
      chains[k][i] == chains[l][j] ==> k == l && i == j
  }

  ghost predicate AllEntries(pay: Payloads, hb: nat, chains: Chains) {
    forall k, i | 0 <= k < |chains| && 0 <= i < |chains[k]| :: IsEntry(pay, hb, chains[k][i])
  }

  ghost predicate HeaderOk(pay: Payloads, hb: nat, chains: Chains) {
    hb in pay && |pay[hb]| == GC + |chains|
  }

  ghost predicate Chained(pay: Payloads, hb: nat, chains: Chains) {
    HeaderOk(pay, hb, chains) && AllEntries(pay, hb, chains) && Separate(chains) && AllLinked(pay, hb, chains)
  }

  /** `e` is in none of the lists. */
  ghost predicate Unlisted(chains: Chains, e: nat) {
    forall k, i | 0 <= k < |chains| && 0 <= i < |chains[k]| :: chains[k][i] != e
  }

  // ----- Lists that are left alone -----

  ghost predicate SameLinks(pay: Payloads, pay1: Payloads, hb: nat, c: seq<nat>) {
    forall j | 0 <= j < |c| ::
           Cell(pay1, hb, c[j]) == Cell(pay, hb, c[j]) && (j > 0 ==> Prev(pay1, c[j]) == Prev(pay, c[j]))
  }

  lemma SameLinked(pay: Payloads, pay1: Payloads, hb: nat, c: seq<nat>)
    requires Linked(pay, hb, c) && SameLinks(pay, pay1, hb, c)
    ensures Linked(pay1, hb, c)
  {
  }

  /** The nodes that belong to list `k`. */
  ghost predicate NodeOf(hb: nat, chains: Chains, k: nat, a: nat) {
    k < |chains| && (a == Head(hb, k) || a in chains[k])
  }

  /** A list none of whose nodes is touched stays as it is. */
  lemma OtherList(pay: Payloads, pay1: Payloads, hb: nat, chains: Chains, l: nat, nx: map<nat, int>, pv: map<nat, int>)
    requires Relinked(pay, pay1, hb, nx, pv) && l < |chains| && ListAt(pay, hb, chains, l)
             && AllEntries(pay, hb, chains)
    requires forall a | a in nx :: !NodeOf(hb, chains, l, a)
    requires forall a | a in pv :: !NodeOf(hb, chains, l, a)
    ensures ListAt(pay1, hb, chains, l)
  {
    var c := Cells(hb, l, chains[l]);
    forall j | 0 <= j < |c|
      ensures Cell(pay1, hb, c[j]) == Cell(pay, hb, c[j]) && (j > 0 ==> Prev(pay1, c[j]) == Prev(pay, c[j]))
    {
      assert j > 0 ==> c[j] == chains[l][j - 1];
      assert NodeOf(hb, chains, l, c[j]);
      assert j > 0 ==> IsEntry(pay, hb, chains[l][j - 1]);
    }
    SameLinked(pay, pay1, hb, c);
  }

  lemma NodesApart(pay: Payloads, hb: nat, chains: Chains, k: nat, l: nat, a: nat)
    requires Chained(pay, hb, chains) && k < |chains| && l < |chains| && k != l && NodeOf(hb, chains, k, a)
    ensures !NodeOf(hb, chains, l, a)
  {
    hide AllLinked;
  }

  lemma RelinkedNodes(pay: Payloads, pay1: Payloads, hb: nat, nx: map<nat, int>, pv: map<nat, int>)
    requires Relinked(pay, pay1, hb, nx, pv)
    ensures forall a: nat :: IsCell(pay1, hb, a) <==> IsCell(pay, hb, a)
    ensures forall e: nat :: IsEntry(pay1, hb, e) <==> IsEntry(pay, hb, e)
  {
    hide Cell, Prev, Record;
  }

  /** The cell at position `i` of list `k`. */
  ghost function CellOf(hb: nat, chains: Chains, k: nat, i: nat): nat
    requires k < |chains| && i <= |chains[k]|
  {
    if i == 0 then Head(hb, k) else chains[k][i - 1]
  }

  lemma CellOfIsCell(pay: Payloads, hb: nat, chains: Chains, k: nat, i: nat)
    requires HeaderOk(pay, hb, chains) && AllEntries(pay, hb, chains) && k < |chains| && i <= |chains[k]|
    ensures IsCell(pay, hb, CellOf(hb, chains, k, i)) && NodeOf(hb, chains, k, CellOf(hb, chains, k, i))
    ensures hb < CellOf(hb, chains, k, i)
  {
  }

  /** What the links around position `i` of list `k` are. */
  lemma LinksAt(pay: Payloads, hb: nat, chains: Chains, k: nat, i: nat)
    requires Chained(pay, hb, chains) && k < |chains| && i <= |chains[k]|
    ensures var es, cell := chains[k], CellOf(hb, chains, k, i);
            if i < |es| then
              && Cell(pay, hb, cell) == es[i] - hb && Prev(pay, es[i]) == cell - hb
              && IsEntry(pay, hb, es[i]) && cell != es[i]
            else Cell(pay, hb, cell) == 0
  {
    hide Separate, Prev, Cell;
    var c := Cells(hb, k, chains[k]);
    assert ListAt(pay, hb, chains, k);
    assert c[i] == CellOf(hb, chains, k, i);
    if i < |chains[k]| {
      assert c[i + 1] == chains[k][i];
      CellOfIsCell(pay, hb, chains, k, i);
      if i > 0 {
        SeparateAt(chains, k, i - 1, i);
      }
    }
  }

  lemma SeparateAt(chains: Chains, k: nat, i: nat, j: nat)
    requires Separate(chains) && k < |chains| && i < |chains[k]| && j < |chains[k]| && i != j
    ensures chains[k][i] != chains[k][j]
  {
  }

  // ----- Inserting -----

  /** The memory after `e` is linked into the list behind the cell `cell`. */
  ghost function LinkIn(pay: Payloads, hb: nat, cell: nat, e: nat): Payloads {
    var next := Cell(pay, hb, cell);
    var pay1 := SetCell(pay, hb, e, next);
    var pay2 := SetPrev(pay1, e, cell - hb);
    var pay3 := SetCell(pay2, hb, cell, e - hb);
    if next > 0 then SetPrev(pay3, hb + next, e - hb) else pay3
  }

  ghost function Inserted(chains: Chains, k: nat, i: nat, e: nat): Chains
    requires k < |chains| && i <= |chains[k]|
  {
    chains[k := chains[k][..i] + [e] + chains[k][i..]]
  }

  lemma LinkInRelinks(pay: Payloads, hb: nat, cell: nat, e: nat, next: nat)
    requires IsCell(pay, hb, cell) && IsEntry(pay, hb, e) && cell != e && hb <= cell
    requires Cell(pay, hb, cell) == 0 || (Cell(pay, hb, cell) == next - hb && IsEntry(pay, hb, next))
    ensures var old' := Cell(pay, hb, cell);
            Relinked(pay, LinkIn(pay, hb, cell, e), hb, map[e := old', cell := e - hb],
                     map[e := cell - hb] + (if old' > 0 then map[next := e - hb] else map[]))
  {
    hide SetCell, SetPrev, Cell, Prev, Record;
    var old' := Cell(pay, hb, cell);
    var pay1 := SetCell(pay, hb, e, old');
    SetCellRelinks(pay, hb, e, old');
    RelinkedNodes(pay, pay1, hb, map[e := old'], map[]);
    var pay2 := SetPrev(pay1, e, cell - hb);
    SetPrevRelinks(pay1, hb, e, cell - hb);
    RelinkedTwice(pay, pay1, pay2, hb, map[e := old'], map[], map[], map[e := cell - hb]);
    RelinkedNodes(pay1, pay2, hb, map[], map[e := cell - hb]);
    var pay3 := SetCell(pay2, hb, cell, e - hb);
    SetCellRelinks(pay2, hb, cell, e - hb);
    RelinkedTwice(pay, pay2, pay3, hb, map[e := old'] + map[], map[] + map[e := cell - hb], map[cell := e - hb], map[]);
    RelinkedNodes(pay2, pay3, hb, map[cell := e - hb], map[]);
    var nx := map[e := old', cell := e - hb];
    assert map[e := old'] + map[] + map[cell := e - hb] == nx;
    assert map[] + map[e := cell - hb] + map[] == map[e := cell - hb];
    if old' > 0 {
      SetPrevRelinks(pay3, hb, next, e - hb);
      RelinkedTwice(pay, pay3, LinkIn(pay, hb, cell, e), hb, nx, map[e := cell - hb], map[], map[next := e - hb]);
      assert nx + map[] == nx;
    }
  }

  lemma InsertedSeparate(chains: Chains, k: nat, i: nat, e: nat)
    requires Separate(chains) && Unlisted(chains, e) && k < |chains| && i <= |chains[k]|
    ensures Separate(Inserted(chains, k, i, e))
  {
  }

  lemma InsertCells(pay: Payloads, pay1: Payloads, hb: nat, c: seq<nat>, i: nat, e: nat, nx: map<nat, int>,
                    pv: map<nat, int>)
    requires Linked(pay, hb, c) && Distinct(c) && e !in c && e != hb && hb !in c && i < |c|
    requires Relinked(pay, pay1, hb, nx, pv)
    requires nx == map[e := if i + 1 < |c| then c[i + 1] - hb else 0, c[i] := e - hb]
    requires pv == map[e := c[i] - hb] + (if i + 1 < |c| then map[c[i + 1] := e - hb] else map[])
    ensures var c1 := c[..i + 1] + [e] + c[i + 1..];
            && (forall j, l | 0 <= j < |c1| && 0 <= l < |c1| && l == j + 1 :: Cell(pay1, hb, c1[j]) == c1[l] - hb)
            && Cell(pay1, hb, c1[|c1| - 1]) == 0
  {
    hide Cell, Prev, Record, SameLengths;
    var c1 := c[..i + 1] + [e] + c[i + 1..];
    forall j, l | 0 <= j < |c1| && 0 <= l < |c1| && l == j + 1
      ensures Cell(pay1, hb, c1[j]) == c1[l] - hb
    {
      if j < i {
        assert c1[j] == c[j] && c1[l] == c[l];
      } else if j > i + 1 {
        assert c1[j] == c[j - 1] && c1[l] == c[l - 1];
      }
    }
    assert c1[|c1| - 1] == if i + 1 < |c| then c[|c| - 1] else e;
  }

  lemma InsertPrevs(pay: Payloads, pay1: Payloads, hb: nat, c: seq<nat>, i: nat, e: nat, nx: map<nat, int>,
                    pv: map<nat, int>)
    requires Linked(pay, hb, c) && Distinct(c) && e !in c && e != hb && hb !in c && i < |c|
    requires Relinked(pay, pay1, hb, nx, pv)
    requires nx == map[e := if i + 1 < |c| then c[i + 1] - hb else 0, c[i] := e - hb]
    requires pv == map[e := c[i] - hb] + (if i + 1 < |c| then map[c[i + 1] := e - hb] else map[])
    ensures var c1 := c[..i + 1] + [e] + c[i + 1..];
            forall j, l | 0 <= j < |c1| && 0 <= l < |c1| && l == j + 1 :: Prev(pay1, c1[l]) == c1[j] - hb
  {
    hide Cell, Prev, Record, SameLengths;
    var c1 := c[..i + 1] + [e] + c[i + 1..];
    forall j, l | 0 <= j < |c1| && 0 <= l < |c1| && l == j + 1
      ensures Prev(pay1, c1[l]) == c1[j] - hb
    {
      if j < i {
        assert c1[j] == c[j] && c1[l] == c[l];
      } else if j > i + 1 {
        assert c1[j] == c[j - 1] && c1[l] == c[l - 1];
      }
    }
  }

  lemma LinkedInsert(pay: Payloads, pay1: Payloads, hb: nat, c: seq<nat>, i: nat, e: nat, nx: map<nat, int>,
                     pv: map<nat, int>)
    requires Linked(pay, hb, c) && Distinct(c) && e !in c && e != hb && hb !in c && i < |c|
    requires Relinked(pay, pay1, hb, nx, pv)
    requires nx == map[e := if i + 1 < |c| then c[i + 1] - hb else 0, c[i] := e - hb]
    requires pv == map[e := c[i] - hb] + (if i + 1 < |c| then map[c[i + 1] := e - hb] else map[])
    ensures Linked(pay1, hb, c[..i + 1] + [e] + c[i + 1..])
  {
    hide Cell, Prev, Relinked;
    InsertCells(pay, pay1, hb, c, i, e, nx, pv);
    InsertPrevs(pay, pay1, hb, c, i, e, nx, pv);
  }

  lemma InsertedList(pay: Payloads, pay1: Payloads, hb: nat, chains: Chains, k: nat, i: nat, e: nat, nx: map<nat, int>,
                     pv: map<nat, int>)
    requires Chained(pay, hb, chains) && k < |chains| && i <= |chains[k]| && Unlisted(chains, e) && IsEntry(pay, hb, e)
    requires Relinked(pay, pay1, hb, nx, pv)
    requires var es, cell := chains[k], CellOf(hb, chains, k, i);
             && nx == map[e := if i < |es| then es[i] - hb else 0, cell := e - hb]
             && pv == map[e := cell - hb] + (if i < |es| then map[es[i] := e - hb] else map[])
    ensures Linked(pay1, hb, Cells(hb, k, Inserted(chains, k, i, e)[k]))
  {
    hide Cell, Prev, Record, Separate, SameLengths, Linked, Relinked;
    var es, c := chains[k], Cells(hb, k, chains[k]);
    assert ListAt(pay, hb, chains, k);
    CellsDistinct(pay, hb, chains, k);
    assert c[i] == CellOf(hb, chains, k, i);
    assert i < |es| ==> c[i + 1] == es[i];
    assert e !in c;
    LinkedInsert(pay, pay1, hb, c, i, e, nx, pv);
    assert Cells(hb, k, es[..i] + [e] + es[i..]) == c[..i + 1] + [e] + c[i + 1..];
  }

  lemma CellsDistinct(pay: Payloads, hb: nat, chains: Chains, k: nat)
    requires HeaderOk(pay, hb, chains) && AllEntries(pay, hb, chains) && Separate(chains) && k < |chains|
    ensures Distinct(Cells(hb, k, chains[k]))
    ensures hb !in Cells(hb, k, chains[k])
  {
    var c := Cells(hb, k, chains[k]);
    forall i, j | 0 <= i < j < |c|
      ensures c[i] != c[j]
    {
      assert c[j] == chains[k][j - 1];
      if i > 0 {
        assert c[i] == chains[k][i - 1];
      }
    }
  }

  /** Nothing but links changed between the two memories. */
  ghost predicate SameRecords(pay: Payloads, pay1: Payloads, hb: nat) {
    && SameLengths(pay, pay1) && hb in pay
    && (forall e: nat {:trigger Record(pay1, e)} | e != hb :: Record(pay1, e) == Record(pay, e))
    && (forall i | 0 <= i < GC && i < |pay[hb]| :: pay1[hb][i] == pay[hb][i])
  }

  lemma EntriesKept(pay: Payloads, pay1: Payloads, hb: nat, chains: Chains)
    requires SameLengths(pay, pay1) && AllEntries(pay, hb, chains) && HeaderOk(pay, hb, chains)
    ensures AllEntries(pay1, hb, chains) && HeaderOk(pay1, hb, chains)
  {
  }

  /** Linking an entry that is in no list inserts it into list `k` at position `i`. */
  lemma InsertChained(pay: Payloads, hb: nat, chains: Chains, k: nat, i: nat, e: nat)
    requires Chained(pay, hb, chains) && k < |chains| && i <= |chains[k]| && Unlisted(chains, e) && IsEntry(pay, hb, e)
    ensures var pay1 := LinkIn(pay, hb, CellOf(hb, chains, k, i), e);
            Chained(pay1, hb, Inserted(chains, k, i, e)) && SameRecords(pay, pay1, hb)
  {
    hide Cell, Prev, Record, Separate, Linked, LinkIn, AllEntries;
    var es, cell, chains1 := chains[k], CellOf(hb, chains, k, i), Inserted(chains, k, i, e);
    var next := if i < |es| then es[i] else 0;
    CellOfIsCell(pay, hb, chains, k, i);
    LinksAt(pay, hb, chains, k, i);
    CellUnlisted(pay, hb, chains, k, i, e);
    LinkInRelinks(pay, hb, cell, e, next);
    var pay1 := LinkIn(pay, hb, cell, e);
    var nx := map[e := if i < |es| then es[i] - hb else 0, cell := e - hb];
    var pv := map[e := cell - hb] + (if i < |es| then map[es[i] := e - hb] else map[]);
    assert Relinked(pay, pay1, hb, nx, pv);
    InsertedList(pay, pay1, hb, chains, k, i, e, nx, pv);
    InsertedSeparate(chains, k, i, e);
    EntriesKept(pay, pay1, hb, chains);
    InsertedEntries(pay1, hb, chains, k, i, e);
    hide Relinked;
    forall l | 0 <= l < |chains1|
      ensures ListAt(pay1, hb, chains1, l)
    {
      if l != k {
        assert ListAt(pay, hb, chains, l);
        InsertTouches(pay, hb, chains, k, i, e, l);
        OtherList(pay, pay1, hb, chains, l, nx, pv);
        assert ListAt(pay1, hb, chains, l);
      }
    }
  }

  lemma CellUnlisted(pay: Payloads, hb: nat, chains: Chains, k: nat, i: nat, e: nat)
    requires HeaderOk(pay, hb, chains) && IsEntry(pay, hb, e) && Unlisted(chains, e) && k < |chains| && i <= |chains[k]|
    ensures CellOf(hb, chains, k, i) != e
  {
  }

  lemma InsertedEntries(pay: Payloads, hb: nat, chains: Chains, k: nat, i: nat, e: nat)
    requires AllEntries(pay, hb, chains) && IsEntry(pay, hb, e) && k < |chains| && i <= |chains[k]|
    ensures AllEntries(pay, hb, Inserted(chains, k, i, e))
  {
  }

  lemma InsertTouches(pay: Payloads, hb: nat, chains: Chains, k: nat, i: nat, e: nat, l: nat)
    requires Chained(pay, hb, chains) && k < |chains| && i <= |chains[k]| && Unlisted(chains, e) && IsEntry(pay, hb, e)
    requires l < |chains| && l != k
    ensures !NodeOf(hb, chains, l, e) && !NodeOf(hb, chains, l, CellOf(hb, chains, k, i))
    ensures i < |chains[k]| ==> !NodeOf(hb, chains, l, chains[k][i])
  {
    hide AllLinked;
    CellOfIsCell(pay, hb, chains, k, i);
    NodesApart(pay, hb, chains, k, l, CellOf(hb, chains, k, i));
    if i < |chains[k]| {
      assert NodeOf(hb, chains, k, chains[k][i]);
      NodesApart(pay, hb, chains, k, l, chains[k][i]);
    }
  }

  // ----- Removing -----

  /** The memory after the entry `e` is taken out of its list. */
  ghost function LinkOut(pay: Payloads, hb: nat, e: nat): Payloads {
    var p, n := hb + Prev(pay, e), Cell(pay, hb, e);
    if p < 0 then pay
    else
      var pay1 := SetCell(pay, hb, p, n);
      if n > 0 then SetPrev(pay1, hb + n, Prev(pay, e)) else pay1
  }

  ghost function Removed(chains: Chains, k: nat, i: nat): Chains
    requires k < |chains| && i < |chains[k]|
  {
    chains[k := chains[k][..i] + chains[k][i + 1..]]
  }

  lemma LinkOutRelinks(pay: Payloads, hb: nat, e: nat, cell: nat, next: nat)
    requires IsCell(pay, hb, cell) && IsEntry(pay, hb, e) && Prev(pay, e) == cell - hb
    requires Cell(pay, hb, e) == 0 || (Cell(pay, hb, e) == next - hb && IsEntry(pay, hb, next))
    ensures var n := Cell(pay, hb, e);
            Relinked(pay, LinkOut(pay, hb, e), hb, map[cell := n], if n > 0 then map[next := cell - hb] else map[])
  {
    hide SetCell, SetPrev, Cell, Prev, Record;
    var n := Cell(pay, hb, e);
    var pay1 := SetCell(pay, hb, cell, n);
    SetCellRelinks(pay, hb, cell, n);
    RelinkedNodes(pay, pay1, hb, map[cell := n], map[]);
    if n > 0 {
      SetPrevRelinks(pay1, hb, next, cell - hb);
      RelinkedTwice(pay, pay1, LinkOut(pay, hb, e), hb, map[cell := n], map[], map[], map[next := cell - hb]);
      assert map[cell := n] + map[] == map[cell := n];
      assert map[] + map[next := cell - hb] == map[next := cell - hb];
    }
  }

  lemma LinkedRemove(pay: Payloads, pay1: Payloads, hb: nat, c: seq<nat>, i: nat, nx: map<nat, int>, pv: map<nat, int>)
    requires Linked(pay, hb, c) && Distinct(c) && hb !in c && 0 < i < |c|
    requires Relinked(pay, pay1, hb, nx, pv)
    requires nx == map[c[i - 1] := if i + 1 < |c| then c[i + 1] - hb else 0]
    requires pv == if i + 1 < |c| then map[c[i + 1] := c[i - 1] - hb] else map[]
    ensures Linked(pay1, hb, c[..i] + c[i + 1..])
  {
    hide Cell, Prev, Record, SameLengths;
    var c1 := c[..i] + c[i + 1..];
    forall j, l | 0 <= j < |c1| && 0 <= l < |c1| && l == j + 1
      ensures Cell(pay1, hb, c1[j]) == c1[l] - hb && Prev(pay1, c1[l]) == c1[j] - hb
    {
      if l < i {
        assert c1[j] == c[j] && c1[l] == c[l];
      } else if j >= i {
        assert c1[j] == c[j + 1] && c1[l] == c[l + 1];
      } else {
        assert c1[j] == c[i - 1] && c1[l] == c[i + 1];
      }
    }
    assert c1[|c1| - 1] == if i + 1 < |c| then c[|c| - 1] else c[i - 1];
  }

  lemma RemovedList(pay: Payloads, pay1: Payloads, hb: nat, chains: Chains, k: nat, i: nat, nx: map<nat, int>,
                    pv: map<nat, int>)
    requires Chained(pay, hb, chains) && k < |chains| && i < |chains[k]| && Relinked(pay, pay1, hb, nx, pv)
    requires var es, cell := chains[k], CellOf(hb, chains, k, i);
             && nx == map[cell := if i + 1 < |es| then es[i + 1] - hb else 0]
             && pv == if i + 1 < |es| then map[es[i + 1] := cell - hb] else map[]
    ensures Linked(pay1, hb, Cells(hb, k, Removed(chains, k, i)[k]))
  {
    hide Cell, Prev, Record, Separate, SameLengths, Linked, Relinked;
    var es, c := chains[k], Cells(hb, k, chains[k]);
    assert ListAt(pay, hb, chains, k);
    CellsDistinct(pay, hb, chains, k);
    assert c[i] == CellOf(hb, chains, k, i);
    assert i + 1 < |es| ==> c[i + 2] == es[i + 1];
    LinkedRemove(pay, pay1, hb, c, i + 1, nx, pv);
    assert Cells(hb, k, es[..i] + es[i + 1..]) == c[..i + 1] + c[i + 2..];
  }

  lemma RemovedSeparate(chains: Chains, k: nat, i: nat)
    requires Separate(chains) && k < |chains| && i < |chains[k]|
    ensures Separate(Removed(chains, k, i)) && Unlisted(Removed(chains, k, i), chains[k][i])
  {
    var es, es1 := chains[k], Removed(chains, k, i)[k];
    assert forall j | 0 <= j < |es1| :: es1[j] == es[if j < i then j else j + 1];
  }

  lemma RemovedEntries(pay: Payloads, hb: nat, chains: Chains, k: nat, i: nat)
    requires AllEntries(pay, hb, chains) && k < |chains| && i < |chains[k]|
    ensures AllEntries(pay, hb, Removed(chains, k, i))
  {
  }

  /** Unlinking the entry at position `i` of list `k` removes it from that list. */
  lemma RemoveChained(pay: Payloads, hb: nat, chains: Chains, k: nat, i: nat)
    requires Chained(pay, hb, chains) && k < |chains| && i < |chains[k]|
    ensures IsEntry(pay, hb, chains[k][i]) && Prev(pay, chains[k][i]) == CellOf(hb, chains, k, i) - hb
    ensures var pay1 := LinkOut(pay, hb, chains[k][i]);
            && Chained(pay1, hb, Removed(chains, k, i)) && SameRecords(pay, pay1, hb)
            && Unlisted(Removed(chains, k, i), chains[k][i])
  {
    hide Cell, Prev, Record, Separate, Linked, LinkOut;
    var es, e, cell, chains1 := chains[k], chains[k][i], CellOf(hb, chains, k, i), Removed(chains, k, i);
    var next := if i + 1 < |es| then es[i + 1] else 0;
    CellOfIsCell(pay, hb, chains, k, i);
    LinksAt(pay, hb, chains, k, i);
    LinksAt(pay, hb, chains, k, i + 1);
    LinkOutRelinks(pay, hb, e, cell, next);
    var pay1 := LinkOut(pay, hb, e);
    var nx := map[cell := if i + 1 < |es| then es[i + 1] - hb else 0];
    var pv := if i + 1 < |es| then map[es[i + 1] := cell - hb] else map[];
    RemovedList(pay, pay1, hb, chains, k, i, nx, pv);
    RemovedSeparate(chains, k, i);
    EntriesKept(pay, pay1, hb, chains);
    RemovedEntries(pay1, hb, chains, k, i);
    hide Relinked, AllEntries;
    forall l | 0 <= l < |chains1|
      ensures ListAt(pay1, hb, chains1, l)
    {
      if l != k {
        assert ListAt(pay, hb, chains, l);
        NodesApart(pay, hb, chains, k, l, cell);
        if i + 1 < |es| {
          assert NodeOf(hb, chains, k, es[i + 1]);
          NodesApart(pay, hb, chains, k, l, es[i + 1]);
        }
        OtherList(pay, pay1, hb, chains, l, nx, pv);
        assert ListAt(pay1, hb, chains, l);
      }
    }
  }

  // ----- The single writes of linking and unlinking -----

  /** What is read and written on the way to LinkIn. */
  lemma LinkInSteps(pay: Payloads, hb: nat, chains: Chains, k: nat, i: nat, e: nat)
    requires Chained(pay, hb, chains) && k < |chains| && i <= |chains[k]| && Unlisted(chains, e) && IsEntry(pay, hb, e)
    ensures var cell := CellOf(hb, chains, k, i);
            var next := Cell(pay, hb, cell);
            var pay1 := SetCell(pay, hb, e, next);
            var pay2 := SetPrev(pay1, e, cell - hb);
            var pay3 := SetCell(pay2, hb, cell, e - hb);
            && IsCell(pay, hb, cell) && IsCell(pay, hb, e) && IsEntry(pay1, hb, e) && IsCell(pay2, hb, cell)
            && IsCell(pay3, hb, e) && IsCell(pay3, hb, cell) && Cell(pay3, hb, e) == next
            && Cell(pay3, hb, cell) == e - hb
            && next >= 0 && (next > 0 ==> IsEntry(pay3, hb, hb + next))
            && var pay4 := if next > 0 then SetPrev(pay3, hb + next, e - hb) else pay3;
            Chained(pay4, hb, Inserted(chains, k, i, e)) && SameRecords(pay, pay4, hb)
  {
    hide Cell, Prev, Record, SetCell, SetPrev, Chained, Separate, AllLinked;
    var cell, es := CellOf(hb, chains, k, i), chains[k];
    ChainedParts(pay, hb, chains);
    CellOfIsCell(pay, hb, chains, k, i);
    LinksAt(pay, hb, chains, k, i);
    CellUnlisted(pay, hb, chains, k, i, e);
    var next := Cell(pay, hb, cell);
    var pay1 := SetCell(pay, hb, e, next);
    var pay2 := SetPrev(pay1, e, cell - hb);
    var pay3 := SetCell(pay2, hb, cell, e - hb);
    SetCellRelinks(pay, hb, e, next);
    RelinkedNodes(pay, pay1, hb, map[e := next], map[]);
    SetPrevRelinks(pay1, hb, e, cell - hb);
    RelinkedNodes(pay1, pay2, hb, map[], map[e := cell - hb]);
    SetCellRelinks(pay2, hb, cell, e - hb);
    RelinkedNodes(pay2, pay3, hb, map[cell := e - hb], map[]);
    InsertChained(pay, hb, chains, k, i, e);
  }

  lemma ChainedParts(pay: Payloads, hb: nat, chains: Chains)
    requires Chained(pay, hb, chains)
    ensures HeaderOk(pay, hb, chains) && AllEntries(pay, hb, chains) && Separate(chains)
  {
    hide HeaderOk, AllEntries, Separate, AllLinked;
  }

  /** What is read and written on the way to LinkOut. */
  lemma LinkOutSteps(pay: Payloads, hb: nat, chains: Chains, k: nat, i: nat)
    requires Chained(pay, hb, chains) && k < |chains| && i < |chains[k]|
    ensures var e := chains[k][i];
            var p, n := hb + Prev(pay, e), Cell(pay, hb, e);
            && IsEntry(pay, hb, e) && p >= 0 && IsCell(pay, hb, p) && n >= 0 && IsCell(pay, hb, e)
            && var pay1 := SetCell(pay, hb, p, n);
            && IsEntry(pay1, hb, e) && IsCell(pay1, hb, e) && Cell(pay1, hb, e) == n && Prev(pay1, e) == p - hb
            && (n > 0 ==> IsEntry(pay1, hb, hb + n))
            && var pay2 := if n > 0 then SetPrev(pay1, hb + n, p - hb) else pay1;
            && Chained(pay2, hb, Removed(chains, k, i)) && SameRecords(pay, pay2, hb) && IsEntry(pay2, hb, e)
            && Unlisted(Removed(chains, k, i), e)
  {
    hide Cell, Prev, Record, SetCell, SetPrev, Chained, Separate, AllLinked;
    var es, e, cell := chains[k], chains[k][i], CellOf(hb, chains, k, i);
    ChainedParts(pay, hb, chains);
    CellOfIsCell(pay, hb, chains, k, i);
    LinksAt(pay, hb, chains, k, i);
    LinksAt(pay, hb, chains, k, i + 1);
    var n := Cell(pay, hb, e);
    SetCellRelinks(pay, hb, cell, n);
    RelinkedNodes(pay, SetCell(pay, hb, cell, n), hb, map[cell := n], map[]);
    RemoveChained(pay, hb, chains, k, i);
  }
}
