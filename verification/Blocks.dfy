/** The shared segment seen as a set of blocks that tile it, and what allocating and
    freeing do to that tiling.  All sizes and offsets are counted in machine words. */
module Blocks {

  /** Words of a block header: size, prev_size, fnext, fprev. */
  const B: nat := 4

  /** `size` spans the whole block with its header; `need` is the part of an allocated
      block that is really used (the rest is slack the defragmenter may reclaim). */
  datatype Block = Used(size: nat, need: nat) | Free(size: nat)

  /** Blocks keyed by the offset at which they start. */
  type Tiles = map<nat, Block>

  /** The offset just behind the block that starts at `o`. */
  ghost function Step(bs: Tiles, o: nat): nat
    requires o in bs
  {
    o + bs[o].size
  }

  ghost predicate BlockOk(b: Block) {
    b.size >= B && (b.Used? ==> B <= b.need <= b.size)
  }

  ghost predicate Ranged(bs: Tiles, lo: nat, hi: nat) {
    forall o | o in bs :: lo <= o && BlockOk(bs[o]) && o + bs[o].size <= hi
  }

  /** Every block ends where another one starts, or at the end of the segment. */
  ghost predicate Adjoining(bs: Tiles, hi: nat) {
    forall o {:trigger Step(bs, o)} | o in bs :: Step(bs, o) == hi || Step(bs, o) in bs
  }

  /** Blocks do not overlap. */
  ghost predicate Apart(bs: Tiles) {
    forall o, p | o in bs && p in bs && o < p :: o + bs[o].size <= p
  }

  /** The blocks fill [lo, hi) without gaps and without overlap. */
  ghost predicate Tiled(bs: Tiles, lo: nat, hi: nat) {
    lo in bs && Ranged(bs, lo, hi) && Adjoining(bs, hi) && Apart(bs)
  }

  /** No two free blocks touch, with `o` possibly excepted. */
  ghost predicate CoalescedBut(bs: Tiles, but: set<nat>) {
    forall o {:trigger Step(bs, o)} | o in bs && bs[o].Free? && Step(bs, o) in bs && bs[Step(bs, o)].Free? ::
      o in but || Step(bs, o) in but
  }

  ghost predicate Coalesced(bs: Tiles) {
    CoalescedBut(bs, {})
  }

  /** Every block but the first one has a block that ends where it starts. */
  lemma Predecessor(bs: Tiles, lo: nat, hi: nat, p: nat) returns (o: nat)
    requires Tiled(bs, lo, hi) && lo < p
    requires p in bs || p == hi
    ensures o in bs && Step(bs, o) == p
  {
    o := lo;
    while Step(bs, o) != p
      invariant o in bs && o < p
      decreases p - o
    {
      o := Step(bs, o);
    }
  }

  // ----- Sums over blocks -----

  datatype WordKind = FreeWords | UsedWords | AllWords

  ghost function Weight(k: WordKind, b: Block): nat {
    match k
    case FreeWords => if b.Free? then b.size else 0
    case UsedWords => if b.Used? then b.size else 0
    case AllWords => b.size
  }

  ghost function Total(k: WordKind, bs: Tiles): nat
    decreases |bs|
  {
    if bs == map[] then 0
    else
      var o :| o in bs;
      Weight(k, bs[o]) + Total(k, bs - {o})
  }

  lemma TotalEmpty(k: WordKind)
    ensures Total(k, map[]) == 0
  {
  }

  lemma {:induction false} TotalRemove(k: WordKind, bs: Tiles, p: nat)
    requires p in bs
    ensures Total(k, bs) == Weight(k, bs[p]) + Total(k, bs - {p})
    decreases |bs|
  {
    var o :| o in bs && Total(k, bs) == Weight(k, bs[o]) + Total(k, bs - {o});
    hide Total;
    if o != p {
      TotalRemove(k, bs - {o}, p);
      assert bs - {o} - {p} == bs - {p} - {o};
      TotalRemove(k, bs - {p}, o);
    }
  }

  lemma TotalDrop(k: WordKind, bs: Tiles, p: nat)
    ensures Total(k, bs - {p}) == if p in bs then Total(k, bs) - Weight(k, bs[p]) else Total(k, bs)
  {
    if p in bs {
      TotalRemove(k, bs, p);
    } else {
      assert bs - {p} == bs;
    }
  }

  lemma TotalPut(k: WordKind, bs: Tiles, p: nat, b: Block)
    ensures Total(k, bs[p := b]) == Weight(k, b) + (if p in bs then Total(k, bs) - Weight(k, bs[p]) else Total(k, bs))
  {
    hide Total;
    TotalRemove(k, bs[p := b], p);
    assert bs[p := b] - {p} == bs - {p};
    TotalDrop(k, bs, p);
  }

  lemma {:induction false} TotalSplit(bs: Tiles)
    ensures Total(FreeWords, bs) + Total(UsedWords, bs) == Total(AllWords, bs)
    decreases |bs|
  {
    hide Total;
    if bs == map[] {
      TotalEmpty(FreeWords);
      TotalEmpty(UsedWords);
      TotalEmpty(AllWords);
    } else {
      var o :| o in bs;
      TotalSplit(bs - {o});
      TotalRemove(FreeWords, bs, o);
      TotalRemove(UsedWords, bs, o);
      TotalRemove(AllWords, bs, o);
    }
  }

  lemma TailTiled(bs: Tiles, lo: nat, hi: nat)
    requires Tiled(bs, lo, hi) && Step(bs, lo) != hi
    ensures Tiled(bs - {lo}, Step(bs, lo), hi)
  {
    var rest := bs - {lo};
    forall o | o in rest
      ensures Step(rest, o) == hi || Step(rest, o) in rest
    {
      assert Step(bs, o) == Step(rest, o);
    }
  }

  lemma {:induction false} TilesFill(bs: Tiles, lo: nat, hi: nat)
    requires Tiled(bs, lo, hi)
    ensures Total(AllWords, bs) == hi - lo
    decreases |bs|
  {
    hide Total;
    TotalRemove(AllWords, bs, lo);
    if Step(bs, lo) == hi {
      assert bs - {lo} == map[];
      TotalEmpty(AllWords);
    } else {
      TailTiled(bs, lo, hi);
      TilesFill(bs - {lo}, Step(bs, lo), hi);
    }
  }

  /** Conservation: free words plus words of allocated blocks are the whole segment. */
  lemma Conservation(bs: Tiles, lo: nat, hi: nat)
    requires Tiled(bs, lo, hi)
    ensures Total(FreeWords, bs) + Total(UsedWords, bs) == hi - lo
  {
    TotalSplit(bs);
    TilesFill(bs, lo, hi);
  }

  lemma SizeAtMostTotal(bs: Tiles, o: nat)
    requires o in bs && bs[o].Free?
    ensures bs[o].size <= Total(FreeWords, bs)
  {
    TotalRemove(FreeWords, bs, o);
  }

  // ----- The three elementary changes of a tiling -----

  /** Cuts the block at `o` in two free blocks, the first one `k` words long. */
  ghost function Cut(bs: Tiles, o: nat, k: nat): Tiles
    requires o in bs && k <= bs[o].size
  {
    bs[o := Free(k)][o + k := Free(bs[o].size - k)]
  }

  /** Joins the block at `o` and its right neighbour to one free block. */
  ghost function Join(bs: Tiles, o: nat): Tiles
    requires o in bs && Step(bs, o) in bs
  {
    (bs - {Step(bs, o)})[o := Free(bs[o].size + bs[Step(bs, o)].size)]
  }

  lemma RetagTiled(bs: Tiles, lo: nat, hi: nat, o: nat, b: Block)
    requires Tiled(bs, lo, hi) && o in bs && BlockOk(b) && b.size == bs[o].size
    ensures Tiled(bs[o := b], lo, hi)
  {
    var after := bs[o := b];
    forall p | p in after
      ensures Step(after, p) == hi || Step(after, p) in after
    {
      assert Step(bs, p) == Step(after, p);
    }
  }

  lemma CutApart(bs: Tiles, o: nat, k: nat)
    requires Apart(bs) && o in bs && k <= bs[o].size
    ensures Apart(Cut(bs, o, k))
  {
  }

  lemma CutLinked(bs: Tiles, hi: nat, o: nat, k: nat)
    requires Adjoining(bs, hi) && o in bs && 0 < k < bs[o].size
    ensures Adjoining(Cut(bs, o, k), hi)
  {
    var after := Cut(bs, o, k);
    assert Step(bs, o) == hi || Step(bs, o) in bs;
    forall p | p in after
      ensures Step(after, p) == hi || Step(after, p) in after
    {
      if p != o && p != o + k {
        assert Step(bs, p) == Step(after, p);
      }
    }
  }

  lemma CutTiled(bs: Tiles, lo: nat, hi: nat, o: nat, k: nat)
    requires Tiled(bs, lo, hi) && o in bs && B <= k <= bs[o].size - B
    ensures Tiled(Cut(bs, o, k), lo, hi)
  {
    hide Adjoining, Apart;
    CutApart(bs, o, k);
    CutLinked(bs, hi, o, k);
  }

  lemma JoinApart(bs: Tiles, o: nat)
    requires Apart(bs) && o in bs && Step(bs, o) in bs && bs[o].size > 0
    ensures Apart(Join(bs, o))
  {
  }

  lemma JoinLinked(bs: Tiles, lo: nat, hi: nat, o: nat)
    requires Tiled(bs, lo, hi) && o in bs && Step(bs, o) in bs
    ensures Adjoining(Join(bs, o), hi)
  {
    var after, n := Join(bs, o), Step(bs, o);
    assert Step(bs, n) == hi || Step(bs, n) in bs;
    forall p | p in after
      ensures Step(after, p) == hi || Step(after, p) in after
    {
      if p != o {
        assert Step(bs, p) == Step(after, p);
      }
    }
  }

  lemma JoinTiled(bs: Tiles, lo: nat, hi: nat, o: nat)
    requires Tiled(bs, lo, hi) && o in bs && Step(bs, o) in bs
    ensures Tiled(Join(bs, o), lo, hi)
  {
    JoinApart(bs, o);
    JoinLinked(bs, lo, hi, o);
    hide Adjoining, Apart;
  }

  lemma JoinCoalesced(bs: Tiles, lo: nat, hi: nat, o: nat, but: set<nat>)
    requires Tiled(bs, lo, hi) && o in bs && Step(bs, o) in bs && CoalescedBut(bs, but)
    ensures CoalescedBut(Join(bs, o), (but - {Step(bs, o)}) + {o})
  {
    var after, n := Join(bs, o), Step(bs, o);
    forall p | p in after && after[p].Free? && Step(after, p) in after && after[Step(after, p)].Free?
      ensures p in (but - {n}) + {o} || Step(after, p) in (but - {n}) + {o}
    {
      if p != o {
        assert Step(bs, p) == Step(after, p);
      }
    }
  }

  // ----- Allocation -----

  /** Whether cutting `realsize` words off a block of `size` words leaves a block of its own. */
  predicate Splits(size: nat, realsize: nat, minBlock: nat) {
    realsize + minBlock <= size
  }

  ghost function AllocAt(bs: Tiles, o: nat, realsize: nat, minBlock: nat): Tiles
    requires o in bs && bs[o].size >= realsize
  {
    if Splits(bs[o].size, realsize, minBlock) then
      Cut(bs, o, realsize)[o := Used(realsize, realsize)]
    else bs[o := Used(bs[o].size, realsize)]
  }

  ghost predicate CanAlloc(bs: Tiles, o: nat, realsize: nat, minBlock: nat) {
    o in bs && bs[o].Free? && bs[o].size >= realsize >= B && minBlock >= B
  }

  lemma AllocKeepsTiling(bs: Tiles, lo: nat, hi: nat, o: nat, realsize: nat, minBlock: nat)
    requires Tiled(bs, lo, hi) && CanAlloc(bs, o, realsize, minBlock)
    ensures Tiled(AllocAt(bs, o, realsize, minBlock), lo, hi)
  {
    hide Tiled;
    if Splits(bs[o].size, realsize, minBlock) {
      CutTiled(bs, lo, hi, o, realsize);
      RetagTiled(Cut(bs, o, realsize), lo, hi, o, Used(realsize, realsize));
    } else {
      RetagTiled(bs, lo, hi, o, Used(bs[o].size, realsize));
    }
  }

  lemma AllocKeepsCoalesced(bs: Tiles, lo: nat, hi: nat, o: nat, realsize: nat, minBlock: nat)
    requires Tiled(bs, lo, hi) && Coalesced(bs) && CanAlloc(bs, o, realsize, minBlock)
    ensures Coalesced(AllocAt(bs, o, realsize, minBlock))
  {
    var after := AllocAt(bs, o, realsize, minBlock);
    forall p | p in after && after[p].Free? && Step(after, p) in after
      ensures after[Step(after, p)].Used?
    {
      if p in bs {
        assert Step(bs, p) == Step(after, p);
      } else {
        assert Step(bs, o) == Step(after, p);
      }
    }
  }

  lemma AllocTotal(bs: Tiles, lo: nat, hi: nat, o: nat, realsize: nat, minBlock: nat)
    requires Tiled(bs, lo, hi) && CanAlloc(bs, o, realsize, minBlock)
    ensures var after := AllocAt(bs, o, realsize, minBlock);
            Total(FreeWords, after) == Total(FreeWords, bs) - after[o].size
  {
    hide Total, Adjoining;
    if Splits(bs[o].size, realsize, minBlock) {
      TotalPut(FreeWords, bs, o, Free(realsize));
      TotalPut(FreeWords, bs[o := Free(realsize)], o + realsize, Free(bs[o].size - realsize));
      TotalPut(FreeWords, Cut(bs, o, realsize), o, Used(realsize, realsize));
    } else {
      TotalPut(FreeWords, bs, o, Used(bs[o].size, realsize));
    }
  }

  // ----- Freeing -----

  ghost predicate FreeLeftOf(bs: Tiles, p: nat, o: nat) {
    p in bs && bs[p].Free? && Step(bs, p) == o
  }

  /** Where the free block starts that results from freeing `o`: a free left neighbour joins. */
  ghost function LeftEdge(bs: Tiles, o: nat): (l: nat)
    requires o in bs
    ensures l == o || FreeLeftOf(bs, l, o)
    ensures l == o ==> forall p: nat :: p != o ==> !FreeLeftOf(bs, p, o)
  {
    if p: nat :| p != o && FreeLeftOf(bs, p, o) then p else o
  }

  ghost function JoinFree(bs: Tiles, o: nat): Tiles
    requires o in bs
  {
    if Step(bs, o) in bs && bs[Step(bs, o)].Free? then Join(bs, o) else bs
  }

  /** The intermediate tiling with `o` freed and joined to a free block on its left only. */
  ghost function JoinedLeft(bs: Tiles, o: nat): Tiles
    requires o in bs
  {
    var l, freed := LeftEdge(bs, o), bs[o := Free(bs[o].size)];
    if l == o then freed else Join(freed, l)
  }

  /** The block at `o` becomes free and is joined with its free neighbours. */
  ghost function ReleaseAt(bs: Tiles, o: nat): Tiles
    requires o in bs
  {
    JoinFree(JoinedLeft(bs, o), LeftEdge(bs, o))
  }

  lemma JoinedLeftTiled(bs: Tiles, lo: nat, hi: nat, o: nat)
    requires Tiled(bs, lo, hi) && Coalesced(bs) && o in bs && bs[o].Used?
    ensures var l, left := LeftEdge(bs, o), JoinedLeft(bs, o);
            && Tiled(left, lo, hi) && CoalescedBut(left, {l})
            && l in left && left[l].Free? && Step(left, l) == Step(bs, o)
            && (forall p: nat :: !FreeLeftOf(left, p, l))
            && Total(FreeWords, left) == Total(FreeWords, bs) + bs[o].size
  {
    hide Tiled, CoalescedBut, Total;
    var l, freed := LeftEdge(bs, o), bs[o := Free(bs[o].size)];
    FreedCoalesced(bs, o);
    LeftEdgeFacts(bs, lo, hi, o);
    RetagTiled(bs, lo, hi, o, Free(bs[o].size));
    TotalPut(FreeWords, bs, o, Free(bs[o].size));
    JoinedLeftAlone(bs, lo, hi, o);
    if l != o {
      assert Step(freed, l) == o;
      JoinTiled(freed, lo, hi, l);
      JoinCoalesced(freed, lo, hi, l, {o});
      assert {o} - {o} + {l} == {l};
      JoinTotal(freed, l);
    }
  }

  lemma FreedCoalesced(bs: Tiles, o: nat)
    requires Coalesced(bs) && o in bs
    ensures CoalescedBut(bs[o := Free(bs[o].size)], {o})
  {
    assert forall p | p in bs :: Step(bs[o := Free(bs[o].size)], p) == Step(bs, p);
  }

  lemma LeftEdgeFacts(bs: Tiles, lo: nat, hi: nat, o: nat)
    requires Tiled(bs, lo, hi) && o in bs
    ensures var l := LeftEdge(bs, o);
            l in bs && BlockOk(bs[l]) && BlockOk(bs[o]) && (l != o ==> bs[l].Free? && Step(bs, l) == o && l < o)
  {
    hide Adjoining, Apart;
  }

  lemma JoinedLeftAlone(bs: Tiles, lo: nat, hi: nat, o: nat)
    requires Tiled(bs, lo, hi) && Coalesced(bs) && o in bs && bs[o].Used?
    ensures forall p: nat :: !FreeLeftOf(JoinedLeft(bs, o), p, LeftEdge(bs, o))
  {
    var l, left := LeftEdge(bs, o), JoinedLeft(bs, o);
    forall p: nat | FreeLeftOf(left, p, l)
      ensures false
    {
      assert Step(bs, p) == Step(left, p);
      assert FreeLeftOf(bs, p, l);
    }
  }

  lemma JoinTotal(bs: Tiles, o: nat)
    requires o in bs && Step(bs, o) in bs && bs[o].Free? && bs[Step(bs, o)].Free? && bs[o].size > 0
    ensures Total(FreeWords, Join(bs, o)) == Total(FreeWords, bs)
  {
    hide Total;
    var n := Step(bs, o);
    TotalDrop(FreeWords, bs, n);
    TotalPut(FreeWords, bs - {n}, o, Free(bs[o].size + bs[n].size));
  }

  /** Freeing keeps the tiling and leaves no two free blocks side by side; exactly the
      words of the freed block become free. */
  lemma ReleaseKeepsTiling(bs: Tiles, lo: nat, hi: nat, o: nat)
    requires Tiled(bs, lo, hi) && Coalesced(bs) && o in bs && bs[o].Used?
    ensures var after := ReleaseAt(bs, o);
            && Tiled(after, lo, hi) && Coalesced(after)
            && Total(FreeWords, after) == Total(FreeWords, bs) + bs[o].size
  {
    hide Tiled, Coalesced, CoalescedBut, Total, JoinedLeft, JoinFree, LeftEdge;
    JoinedLeftTiled(bs, lo, hi, o);
    JoinFreeRight(JoinedLeft(bs, o), lo, hi, LeftEdge(bs, o));
  }

  lemma JoinFreeRight(bs: Tiles, lo: nat, hi: nat, l: nat)
    requires Tiled(bs, lo, hi) && CoalescedBut(bs, {l}) && l in bs && bs[l].Free?
    requires forall p: nat :: !FreeLeftOf(bs, p, l)
    ensures Tiled(JoinFree(bs, l), lo, hi) && Coalesced(JoinFree(bs, l))
    ensures Total(FreeWords, JoinFree(bs, l)) == Total(FreeWords, bs)
  {
    JoinFreeCoalesced(bs, lo, hi, l);
    hide Total, CoalescedBut, Apart, Adjoining;
    if Step(bs, l) in bs && bs[Step(bs, l)].Free? {
      JoinTiled(bs, lo, hi, l);
      JoinTotal(bs, l);
    }
  }

  lemma JoinFreeCoalesced(bs: Tiles, lo: nat, hi: nat, l: nat)
    requires Tiled(bs, lo, hi) && CoalescedBut(bs, {l}) && l in bs && bs[l].Free?
    requires forall p: nat :: !FreeLeftOf(bs, p, l)
    ensures Coalesced(JoinFree(bs, l))
  {
    var after, n := JoinFree(bs, l), Step(bs, l);
    if n in bs {
      assert Step(bs, n) == hi || Step(bs, n) in bs;
    }
    forall p | p in after && after[p].Free? && Step(after, p) in after
      ensures after[Step(after, p)].Used?
    {
      if p != l {
        assert Step(bs, p) == Step(after, p);
        assert !FreeLeftOf(bs, p, l);
      }
    }
  }

  /** The allocated blocks of a tiling, with their sizes and used words. */
  ghost function UsedPart(bs: Tiles): Tiles {
    map o | o in bs && bs[o].Used? :: bs[o]
  }

  lemma AllocUsedPart(bs: Tiles, lo: nat, hi: nat, o: nat, realsize: nat, minBlock: nat)
    requires Tiled(bs, lo, hi) && CanAlloc(bs, o, realsize, minBlock)
    ensures var after := AllocAt(bs, o, realsize, minBlock);
            UsedPart(after) == UsedPart(bs)[o := after[o]]
  {
  }

  lemma JoinUsedPart(bs: Tiles, o: nat)
    requires o in bs && bs[o].Free? && Step(bs, o) in bs && bs[Step(bs, o)].Free?
    ensures UsedPart(Join(bs, o)) == UsedPart(bs)
  {
  }

  lemma JoinedLeftUsedPart(bs: Tiles, lo: nat, hi: nat, o: nat)
    requires o in bs && bs[o].Used?
    ensures UsedPart(JoinedLeft(bs, o)) == UsedPart(bs) - {o}
  {
    var l, freed := LeftEdge(bs, o), bs[o := Free(bs[o].size)];
    assert UsedPart(freed) == UsedPart(bs) - {o};
    hide UsedPart;
    if l != o {
      assert Step(freed, l) == o;
      JoinUsedPart(freed, l);
    }
  }

  lemma ReleaseUsedPart(bs: Tiles, lo: nat, hi: nat, o: nat)
    requires Tiled(bs, lo, hi) && Coalesced(bs) && o in bs && bs[o].Used?
    ensures UsedPart(ReleaseAt(bs, o)) == UsedPart(bs) - {o}
  {
    hide Tiled, CoalescedBut, UsedPart, JoinedLeft, Total;
    var l, left := LeftEdge(bs, o), JoinedLeft(bs, o);
    JoinedLeftTiled(bs, lo, hi, o);
    JoinedLeftUsedPart(bs, lo, hi, o);
    if Step(left, l) in left && left[Step(left, l)].Free? {
      JoinUsedPart(left, l);
    }
  }

  /** A fully coalesced tiling without allocated blocks is one free block. */
  lemma AllFreeIsOneBlock(bs: Tiles, lo: nat, hi: nat)
    requires Tiled(bs, lo, hi) && Coalesced(bs)
    requires forall o | o in bs :: bs[o].Free?
    ensures bs == map[lo := Free(hi - lo)]
  {
    assert Step(bs, lo) == hi;
    assert forall o | o in bs :: o == lo;
  }

  // ----- The allocated blocks determine the free ones -----

  lemma {:induction false} SameStart(bs: Tiles, bs1: Tiles, lo: nat, hi: nat, o: nat)
    requires Tiled(bs, lo, hi) && Coalesced(bs) && Tiled(bs1, lo, hi) && UsedPart(bs) == UsedPart(bs1) && o in bs
    ensures o in bs1
    decreases o
  {
    hide Ranged, Apart;
    if o != lo {
      RangedAt(bs, lo, hi, o);
      var p := Predecessor(bs, lo, hi, o);
      RangedAt(bs, lo, hi, p);
      SameStart(bs, bs1, lo, hi, p);
      if bs[p].Used? {
        assert p in UsedPart(bs);
        assert Step(bs1, p) == o;
      } else {
        assert o in UsedPart(bs);
      }
    }
  }

  lemma RangedAt(bs: Tiles, lo: nat, hi: nat, o: nat)
    requires Ranged(bs, lo, hi) && o in bs
    ensures lo <= o < hi && bs[o].size > 0 && o < Step(bs, o) <= hi
  {
  }

  /** Two tilings in which no free blocks touch are the same if their allocated blocks are. */
  lemma UsedDetermines(bs: Tiles, bs1: Tiles, lo: nat, hi: nat)
    requires Tiled(bs, lo, hi) && Coalesced(bs) && Tiled(bs1, lo, hi) && Coalesced(bs1)
    requires UsedPart(bs) == UsedPart(bs1)
    ensures bs == bs1
  {
    hide CoalescedBut, Adjoining, Ranged, Apart;
    forall o | o in bs
      ensures o in bs1
    {
      SameStart(bs, bs1, lo, hi, o);
    }
    forall o | o in bs1
      ensures o in bs
    {
      SameStart(bs1, bs, lo, hi, o);
    }
    forall o | o in bs
      ensures bs1[o] == bs[o]
    {
      if bs[o].Used? {
        assert o in UsedPart(bs);
      } else {
        assert o !in UsedPart(bs);
        NextSame(bs, bs1, lo, hi, o);
      }
    }
  }

  lemma NextSame(bs: Tiles, bs1: Tiles, lo: nat, hi: nat, o: nat)
    requires Tiled(bs, lo, hi) && Tiled(bs1, lo, hi) && bs.Keys == bs1.Keys && o in bs
    ensures bs1[o].size == bs[o].size
  {
    RangedAt(bs, lo, hi, o);
    RangedAt(bs1, lo, hi, o);
    assert Step(bs, o) == hi || Step(bs, o) in bs1;
    assert Step(bs1, o) == hi || Step(bs1, o) in bs;
  }
}
