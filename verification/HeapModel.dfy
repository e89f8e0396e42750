/** The allocator as a state machine: which block an allocation takes, what allocating and
    freeing do to the blocks and to the order of the free list, and what every run keeps. */
module HeapModel {
  import opened Blocks
  import opened FreeList

  datatype Option<+T> = None | Some(value: T)

  /** `fl` is the free list in list order. */
  datatype Heap = Heap(blocks: Tiles, fl: seq<nat>)

  ghost predicate WellFormed(h: Heap, lo: nat, hi: nat) {
    Tiled(h.blocks, lo, hi) && Coalesced(h.blocks) && Lists(h.fl, h.blocks, {})
  }

  ghost function Avail(h: Heap): nat {
    Total(FreeWords, h.blocks)
  }

  // ----- Bounded best fit -----

  /** How many list successors of the first fit are looked at. */
  const BEST_FIT_LIMIT: nat := 3

  ghost function SizeAt(h: Heap, k: nat): nat
    requires k < |h.fl|
  {
    if h.fl[k] in h.blocks then h.blocks[h.fl[k]].size else 0
  }

  /** Entry `i` of the free list is the first that fits; entry `j` is the earliest smallest
      fit among the entries from `i` to `n`. */
  ghost predicate BestUpTo(h: Heap, realsize: nat, i: nat, j: nat, n: nat) {
    && i <= j < |h.fl| && j <= n
    && SizeAt(h, i) >= realsize && SizeAt(h, j) >= realsize
    && (forall k: nat | k < i :: SizeAt(h, k) < realsize)
    && (forall k: nat | i <= k < |h.fl| && k <= n && SizeAt(h, k) >= realsize :: SizeAt(h, j) <= SizeAt(h, k))
    && (forall k: nat | i <= k < j && SizeAt(h, k) >= realsize :: SizeAt(h, j) < SizeAt(h, k))
  }

  ghost predicate BestFit(h: Heap, realsize: nat, i: nat, j: nat) {
    BestUpTo(h, realsize, i, j, i + BEST_FIT_LIMIT)
  }

  lemma BestStart(h: Heap, realsize: nat, i: nat)
    requires i < |h.fl| && SizeAt(h, i) >= realsize && forall k: nat | k < i :: SizeAt(h, k) < realsize
    ensures BestUpTo(h, realsize, i, i, i)
  {
  }

  lemma BestStep(h: Heap, realsize: nat, i: nat, j: nat, n: nat)
    requires BestUpTo(h, realsize, i, j, n) && n + 1 < |h.fl|
    ensures if SizeAt(h, n + 1) >= realsize && SizeAt(h, n + 1) < SizeAt(h, j)
            then BestUpTo(h, realsize, i, n + 1, n + 1)
            else BestUpTo(h, realsize, i, j, n + 1)
  {
  }

  lemma BestBeyond(h: Heap, realsize: nat, i: nat, j: nat, n: nat)
    requires BestUpTo(h, realsize, i, j, n) && n + 1 >= |h.fl|
    ensures BestUpTo(h, realsize, i, j, n + 1)
  {
  }

  lemma BestEnd(h: Heap, realsize: nat, i: nat, j: nat, n: nat)
    requires BestUpTo(h, realsize, i, j, n) && (n == i + BEST_FIT_LIMIT || (n < i + BEST_FIT_LIMIT && n + 1 >= |h.fl|))
    ensures Chosen(h, realsize) == Some(h.fl[j])
  {
    ChosenIs(h, realsize, i, j);
  }

  /** The chosen block is the smallest that fits among the first one that fits and the three
      blocks behind it in the list. */
  lemma ChosenIsBest(h: Heap, realsize: nat, i: nat)
    requires i < |h.fl| && SizeAt(h, i) >= realsize && forall k: nat | k < i :: SizeAt(h, k) < realsize
    ensures Chosen(h, realsize).Some?
    ensures exists j: nat :: i <= j <= i + 3 && j < |h.fl| && Chosen(h, realsize) == Some(h.fl[j])
                       && realsize <= SizeAt(h, j)
                       && forall k: nat | i <= k <= i + 3 && k < |h.fl| && SizeAt(h, k) >= realsize ::
                            SizeAt(h, j) <= SizeAt(h, k)
  {
    var j := Smallest(h, realsize, i, i + BEST_FIT_LIMIT);
    assert BestFit(h, realsize, i, j);
    ChosenIs(h, realsize, i, j);
  }

  lemma BestFitUnique(h: Heap, realsize: nat, i: nat, j: nat, i': nat, j': nat)
    requires BestFit(h, realsize, i, j) && BestFit(h, realsize, i', j')
    ensures i == i' && j == j'
  {
    assert i <= i' <= i;
    assert SizeAt(h, j) == SizeAt(h, j');
  }

  ghost function Chosen(h: Heap, realsize: nat): Option<nat> {
    if i: nat, j: nat :| BestFit(h, realsize, i, j) then Some(h.fl[j]) else None
  }

  lemma ChosenIs(h: Heap, realsize: nat, i: nat, j: nat)
    requires BestFit(h, realsize, i, j)
    ensures Chosen(h, realsize) == Some(h.fl[j])
  {
    var i': nat, j': nat :| BestFit(h, realsize, i', j') && Chosen(h, realsize) == Some(h.fl[j']);
    BestFitUnique(h, realsize, i, j, i', j');
  }

  ghost predicate SomeFits(bs: Tiles, realsize: nat) {
    exists o :: o in bs && bs[o].Free? && bs[o].size >= realsize
  }

  /** The search is complete: it fails exactly if no free block is large enough. */
  lemma ChosenComplete(h: Heap, lo: nat, hi: nat, realsize: nat)
    requires WellFormed(h, lo, hi)
    ensures Chosen(h, realsize).Some? <==> SomeFits(h.blocks, realsize)
    ensures Chosen(h, realsize).Some? ==>
      var o := Chosen(h, realsize).value;
      o in h.fl && o in h.blocks && h.blocks[o].Free? && h.blocks[o].size >= realsize
  {
    if Chosen(h, realsize).Some? {
      var i: nat, j: nat :| BestFit(h, realsize, i, j) && Chosen(h, realsize) == Some(h.fl[j]);
      assert h.fl[j] in h.fl;
    }
    if SomeFits(h.blocks, realsize) {
      var o :| o in h.blocks && h.blocks[o].Free? && h.blocks[o].size >= realsize;
      assert o in h.fl;
      var k :| 0 <= k < |h.fl| && h.fl[k] == o;
      SomeChosen(h, realsize, k);
    }
  }

  lemma SomeChosen(h: Heap, realsize: nat, k: nat)
    requires k < |h.fl| && SizeAt(h, k) >= realsize
    ensures Chosen(h, realsize).Some?
  {
    var i := FirstFit(h, realsize, k);
    var j := Smallest(h, realsize, i, i + BEST_FIT_LIMIT);
    assert BestFit(h, realsize, i, j);
  }

  lemma FirstFit(h: Heap, realsize: nat, k: nat) returns (i: nat)
    requires k < |h.fl| && SizeAt(h, k) >= realsize
    ensures i <= k && SizeAt(h, i) >= realsize && forall l: nat | l < i :: SizeAt(h, l) < realsize
  {
    i := 0;
    while SizeAt(h, i) < realsize
      invariant i <= k && forall l: nat | l < i :: SizeAt(h, l) < realsize
      decreases k - i
    {
      i := i + 1;
    }
  }

  /** The earliest smallest fit among the entries `i` to `n`. */
  lemma {:induction false} Smallest(h: Heap, realsize: nat, i: nat, n: nat) returns (j: nat)
    requires i < |h.fl| && i <= n && SizeAt(h, i) >= realsize
    ensures i <= j <= n && j < |h.fl| && SizeAt(h, j) >= realsize
    ensures forall k: nat | i <= k < |h.fl| && k <= n && SizeAt(h, k) >= realsize :: SizeAt(h, j) <= SizeAt(h, k)
    ensures forall k: nat | i <= k < j && SizeAt(h, k) >= realsize :: SizeAt(h, j) < SizeAt(h, k)
    decreases n
  {
    if n == i {
      j := i;
    } else {
      j := Smallest(h, realsize, i, n - 1);
      if n < |h.fl| && SizeAt(h, n) >= realsize && SizeAt(h, n) < SizeAt(h, j) {
        j := n;
      }
    }
  }

  // ----- The two operations -----

  ghost function AllocHeap(h: Heap, o: nat, realsize: nat, minBlock: nat): Heap
    requires o in h.blocks && h.blocks[o].size >= realsize
  {
    var rest := Without(h.fl, o);
    Heap(AllocAt(h.blocks, o, realsize, minBlock),
         if Splits(h.blocks[o].size, realsize, minBlock) then [o + realsize] + rest else rest)
  }

  /** From `h` to `h1` the block before `offset` was taken for an allocation of `realsize` words,
      and with it `size` words: all of a free block, if less than `minBlock` words would have been
      left over; otherwise no more than was asked for, and the rest is a free block. */
  ghost predicate TookBlock(h: Heap, h1: Heap, offset: nat, realsize: nat, minBlock: nat, size: int) {
    && B <= offset && realsize <= size < realsize + minBlock
    && var o := offset - B;
    && o in h.blocks && h.blocks[o].Free? && o in h1.blocks && h1.blocks[o].Used?
    && h1.blocks[o].size == size && h1.blocks[o].need == realsize
    && (if h.blocks[o].size < realsize + minBlock then size == h.blocks[o].size
        else
          && size == realsize && o + size !in h.blocks && o + size in h1.blocks && o + size in h1.fl
          && h1.blocks[o + size] == Free(h.blocks[o].size - size))
    && (forall p | p in h.blocks && p != o :: p in h1.blocks && h1.blocks[p] == h.blocks[p])
  }

  lemma AllocTakes(h: Heap, lo: nat, hi: nat, o: nat, realsize: nat, minBlock: nat)
    requires WellFormed(h, lo, hi) && CanAlloc(h.blocks, o, realsize, minBlock)
    ensures var h1 := AllocHeap(h, o, realsize, minBlock);
            o in h1.blocks && TookBlock(h, h1, o + B, realsize, minBlock, h1.blocks[o].size)
  {
    hide Without, Lists, CoalescedBut, Adjoining;
  }

  /** The free list without a free block to the left of `o`. */
  ghost function ListLeft(h: Heap, o: nat): seq<nat>
    requires o in h.blocks
  {
    var l := LeftEdge(h.blocks, o);
    if l != o then Without(h.fl, l) else h.fl
  }

  /** The free list without the free blocks on either side of `o`. */
  ghost function ListAround(h: Heap, o: nat): seq<nat>
    requires o in h.blocks
  {
    var n := Step(h.blocks, o);
    if n in h.blocks && h.blocks[n].Free? then Without(ListLeft(h, o), n) else ListLeft(h, o)
  }

  ghost function FreeHeap(h: Heap, o: nat): Heap
    requires o in h.blocks
  {
    Heap(ReleaseAt(h.blocks, o), [LeftEdge(h.blocks, o)] + ListAround(h, o))
  }

  /** From `h` to `h1` the allocation at `offset`, in a block of `size` words, was freed. */
  ghost predicate Freed(h: Heap, h1: Heap, offset: nat, size: nat) {
    B <= offset && offset - B in h.blocks && size == h.blocks[offset - B].size && h1 == FreeHeap(h, offset - B)
  }

  lemma AllocLists(h: Heap, lo: nat, hi: nat, o: nat, realsize: nat, minBlock: nat)
    requires WellFormed(h, lo, hi) && CanAlloc(h.blocks, o, realsize, minBlock)
    ensures var h1 := AllocHeap(h, o, realsize, minBlock); Lists(h1.fl, h1.blocks, {})
  {
    WithoutLists(h.fl, o);
    if Splits(h.blocks[o].size, realsize, minBlock) {
      assert o + realsize !in h.blocks;
      DistinctCons(o + realsize, Without(h.fl, o));
    }
  }

  lemma DistinctCons(x: nat, s: seq<nat>)
    requires Distinct(s) && x !in s
    ensures Distinct([x] + s) && forall o: nat :: o in [x] + s <==> o == x || o in s
  {
  }

  lemma AllocKeepsWellFormed(h: Heap, lo: nat, hi: nat, o: nat, realsize: nat, minBlock: nat)
    requires WellFormed(h, lo, hi) && CanAlloc(h.blocks, o, realsize, minBlock)
    ensures var h1 := AllocHeap(h, o, realsize, minBlock);
            && WellFormed(h1, lo, hi)
            && Avail(h1) == Avail(h) - h1.blocks[o].size
            && UsedPart(h1.blocks) == UsedPart(h.blocks)[o := h1.blocks[o]]
  {
    AllocLists(h, lo, hi, o, realsize, minBlock);
    hide Tiled, Coalesced, CoalescedBut, Total, UsedPart, Lists;
    AllocKeepsTiling(h.blocks, lo, hi, o, realsize, minBlock);
    AllocKeepsCoalesced(h.blocks, lo, hi, o, realsize, minBlock);
    AllocTotal(h.blocks, lo, hi, o, realsize, minBlock);
    AllocUsedPart(h.blocks, lo, hi, o, realsize, minBlock);
  }

  lemma FreeLists(h: Heap, lo: nat, hi: nat, o: nat)
    requires WellFormed(h, lo, hi) && o in h.blocks && h.blocks[o].Used?
    ensures Lists(FreeHeap(h, o).fl, ReleaseAt(h.blocks, o), {})
  {
    var bs, l, n := h.blocks, LeftEdge(h.blocks, o), Step(h.blocks, o);
    assert l == o || FreeLeftOf(bs, l, o);
    ReleaseBlocks(bs, lo, hi, o);
    hide Tiled, CoalescedBut, ReleaseAt;
    if l != o {
      assert l in h.fl;
      WithoutLists(h.fl, l);
    }
    var fl1 := if l != o then Without(h.fl, l) else h.fl;
    if n in bs && bs[n].Free? {
      assert n in fl1;
      WithoutLists(fl1, n);
    }
    DistinctCons(l, if n in bs && bs[n].Free? then Without(fl1, n) else fl1);
  }

  lemma ReleaseBlocks(bs: Tiles, lo: nat, hi: nat, o: nat)
    requires Tiled(bs, lo, hi) && Coalesced(bs) && o in bs && bs[o].Used?
    ensures var l, n, after := LeftEdge(bs, o), Step(bs, o), ReleaseAt(bs, o);
            && l != n && l in after && after[l].Free?
            && forall p: nat :: p in after && after[p].Free? <==>
                 p == l || (p in bs && bs[p].Free? && p != n)
  {
    hide Tiled, Coalesced;
    var l, n, left := LeftEdge(bs, o), Step(bs, o), JoinedLeft(bs, o);
    LeftEdgeFacts(bs, lo, hi, o);
    ReleaseNeighbours(bs, lo, hi, o);
    assert Step(left, l) == n;
    assert forall p: nat :: p in left && left[p].Free? <==> p == l || (p in bs && bs[p].Free?);
  }

  lemma ReleaseNeighbours(bs: Tiles, lo: nat, hi: nat, o: nat)
    requires Tiled(bs, lo, hi) && o in bs
    ensures LeftEdge(bs, o) < Step(bs, o) && o < Step(bs, o)
  {
    hide Adjoining, Apart;
  }

  lemma FreeKeepsWellFormed(h: Heap, lo: nat, hi: nat, o: nat)
    requires WellFormed(h, lo, hi) && o in h.blocks && h.blocks[o].Used?
    ensures var h1 := FreeHeap(h, o);
            && WellFormed(h1, lo, hi)
            && Avail(h1) == Avail(h) + h.blocks[o].size
            && UsedPart(h1.blocks) == UsedPart(h.blocks) - {o}
  {
    FreeLists(h, lo, hi, o);
    hide Tiled, Coalesced, CoalescedBut, Total, UsedPart, Lists, ReleaseAt;
    ReleaseKeepsTiling(h.blocks, lo, hi, o);
    ReleaseUsedPart(h.blocks, lo, hi, o);
  }

  // ----- Runs -----

  datatype Request = Malloc(realsize: nat) | Release(o: nat)

  /** The allocator right after its initialisation: one free block. */
  ghost function Fresh(lo: nat, hi: nat): Heap
    requires lo <= hi
  {
    Heap(map[lo := Free(hi - lo)], [lo])
  }

  /** A request callers may make: sizes include the block header, frees name live blocks. */
  ghost predicate Legal(h: Heap, r: Request) {
    match r
    case Malloc(realsize) => realsize >= B
    case Release(o) => o in h.blocks && h.blocks[o].Used?
  }

  ghost function Serve(h: Heap, r: Request, minBlock: nat): Heap
    requires Legal(h, r)
  {
    match r
    case Malloc(realsize) =>
      if Chosen(h, realsize).Some? && Chosen(h, realsize).value in h.blocks
        && h.blocks[Chosen(h, realsize).value].size >= realsize
      then AllocHeap(h, Chosen(h, realsize).value, realsize, minBlock) else h
    case Release(o) => FreeHeap(h, o)
  }

  ghost predicate LegalRun(h: Heap, rs: seq<Request>, minBlock: nat)
    decreases |rs|
  {
    rs == [] || (Legal(h, rs[0]) && LegalRun(Serve(h, rs[0], minBlock), rs[1..], minBlock))
  }

  ghost function Run(h: Heap, rs: seq<Request>, minBlock: nat): Heap
    requires LegalRun(h, rs, minBlock)
    decreases |rs|
  {
    if rs == [] then h else Run(Serve(h, rs[0], minBlock), rs[1..], minBlock)
  }

  lemma FreshWellFormed(lo: nat, hi: nat)
    requires lo + B <= hi
    ensures WellFormed(Fresh(lo, hi), lo, hi) && Avail(Fresh(lo, hi)) == hi - lo
  {
    var h := Fresh(lo, hi);
    assert forall o | o in h.blocks :: o == lo && Step(h.blocks, o) == hi;
    assert h.fl[0] == lo;
    TilesFill(h.blocks, lo, hi);
    TotalSplit(h.blocks);
    TotalRemove(UsedWords, h.blocks, lo);
    assert h.blocks - {lo} == map[];
  }

  lemma ServeKeepsWellFormed(h: Heap, r: Request, lo: nat, hi: nat, minBlock: nat)
    requires WellFormed(h, lo, hi) && Legal(h, r) && minBlock >= B
    ensures WellFormed(Serve(h, r, minBlock), lo, hi)
  {
    match r
    case Malloc(realsize) =>
      ChosenComplete(h, lo, hi, realsize);
      hide WellFormed, Chosen, AllocHeap;
      if Chosen(h, realsize).Some? {
        AllocKeepsWellFormed(h, lo, hi, Chosen(h, realsize).value, realsize, minBlock);
      }
    case Release(o) =>
      hide WellFormed, FreeHeap;
      FreeKeepsWellFormed(h, lo, hi, o);
  }

  /** Every run of requests keeps the heap well formed and loses no word. */
  lemma {:induction false} RunInvariant(h: Heap, rs: seq<Request>, lo: nat, hi: nat, minBlock: nat)
    requires WellFormed(h, lo, hi) && LegalRun(h, rs, minBlock) && minBlock >= B
    ensures var h1 := Run(h, rs, minBlock);
            && WellFormed(h1, lo, hi)
            && Avail(h1) + Total(UsedWords, h1.blocks) == hi - lo
    decreases |rs|
  {
    hide Serve, Total;
    if rs == [] {
      Conservation(h.blocks, lo, hi);
    } else {
      hide WellFormed;
      ServeKeepsWellFormed(h, rs[0], lo, hi, minBlock);
      RunInvariant(Serve(h, rs[0], minBlock), rs[1..], lo, hi, minBlock);
    }
  }

  /** Full coalescing: whenever nothing is allocated any more, the heap is back in exactly
      the state it was initialised with, whatever happened before. */
  lemma RunToEmpty(rs: seq<Request>, lo: nat, hi: nat, minBlock: nat)
    requires lo + B <= hi && minBlock >= B && LegalRun(Fresh(lo, hi), rs, minBlock)
    requires UsedPart(Run(Fresh(lo, hi), rs, minBlock).blocks) == map[]
    ensures Run(Fresh(lo, hi), rs, minBlock) == Fresh(lo, hi)
  {
    FreshWellFormed(lo, hi);
    RunInvariant(Fresh(lo, hi), rs, lo, hi, minBlock);
    EmptyIsFresh(Run(Fresh(lo, hi), rs, minBlock), lo, hi);
  }

  lemma EmptyIsFresh(h: Heap, lo: nat, hi: nat)
    requires WellFormed(h, lo, hi) && lo <= hi && UsedPart(h.blocks) == map[]
    ensures h == Fresh(lo, hi)
  {
    forall o | o in h.blocks
      ensures h.blocks[o].Free?
    {
      assert o !in UsedPart(h.blocks);
    }
    AllFreeIsOneBlock(h.blocks, lo, hi);
    assert lo in h.fl;
    assert forall k | 0 <= k < |h.fl| :: h.fl[k] in h.fl && h.fl[k] == lo;
    var last := |h.fl| - 1;
    assert h.fl[0] == h.fl[last];
  }

  ghost function Frees(order: seq<nat>): seq<Request> {
    if order == [] then [] else [Release(order[0])] + Frees(order[1..])
  }

  /** Freeing all live blocks, in any order, is a legal run and restores the initial heap. */
  lemma {:induction false} FreeAllInAnyOrder(h: Heap, order: seq<nat>, lo: nat, hi: nat, minBlock: nat)
    requires WellFormed(h, lo, hi) && lo <= hi && Distinct(order)
    requires forall o: nat :: o in order <==> o in UsedPart(h.blocks)
    ensures LegalRun(h, Frees(order), minBlock)
    ensures Run(h, Frees(order), minBlock) == Fresh(lo, hi)
    decreases |order|
  {
    if order == [] {
      assert UsedPart(h.blocks) == map[];
      EmptyIsFresh(h, lo, hi);
    } else {
      var o := order[0];
      assert o in order;
      FreeKeepsWellFormed(h, lo, hi, o);
      var h1 := FreeHeap(h, o);
      assert Frees(order)[0] == Release(o) && Frees(order)[1..] == Frees(order[1..]);
      assert Distinct(order[1..]);
      hide WellFormed, FreeHeap, UsedPart;
      forall p: nat
        ensures p in order[1..] <==> p in UsedPart(h1.blocks)
      {
        if p in order && p != o {
          var k :| 0 <= k < |order| && order[k] == p;
          assert order[1..][k - 1] == p;
        }
        if p in order[1..] {
          var k :| 0 <= k < |order[1..]| && order[1..][k] == p;
          assert order[k + 1] == p && order[0] != order[k + 1];
        }
      }
      FreeAllInAnyOrder(h1, order[1..], lo, hi, minBlock);
      assert Legal(h, Frees(order)[0]) && Serve(h, Frees(order)[0], minBlock) == h1;
    }
  }
}
