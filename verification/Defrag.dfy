/** One step of the defragmenter: sliding an allocated block over the free block on its
    left, and what the headers look like while the sweep is under way. */
module DefragModel {
  import opened Blocks
  import opened Segment
  import opened FreeList
  import opened HeapModel
  import opened HeapImage

  // ----- Blocks -----

  /** The free block `cur` and the allocated block behind it change places; the slack of
      the allocated block goes to the free block. */
  ghost predicate CanSlide(bs: Tiles, lo: nat, hi: nat, cur: nat) {
    && Tiled(bs, lo, hi) && Coalesced(bs)
    && cur in bs && bs[cur].Free? && Step(bs, cur) in bs && bs[Step(bs, cur)].Used?
  }

  /** Where the free block starts after the slide. */
  ghost function Gap(bs: Tiles, cur: nat): nat
    requires cur in bs && Step(bs, cur) in bs && bs[Step(bs, cur)].Used?
  {
    cur + bs[Step(bs, cur)].need
  }

  ghost function Slide(bs: Tiles, cur: nat): Tiles
    requires cur in bs && Step(bs, cur) in bs && bs[Step(bs, cur)].Used?
    requires BlockOk(bs[Step(bs, cur)])
  {
    var need := bs[Step(bs, cur)].need;
    Cut(Join(bs, cur), cur, need)[cur := Used(need, need)]
  }

  lemma SlideTiled(bs: Tiles, lo: nat, hi: nat, cur: nat)
    requires CanSlide(bs, lo, hi, cur)
    ensures BlockOk(bs[Step(bs, cur)]) && BlockOk(bs[cur])
    ensures Tiled(Slide(bs, cur), lo, hi)
  {
    hide Adjoining, Apart, CoalescedBut;
    var need := bs[Step(bs, cur)].need;
    JoinTiled(bs, lo, hi, cur);
    CutTiled(Join(bs, cur), lo, hi, cur, need);
    RetagTiled(Cut(Join(bs, cur), cur, need), lo, hi, cur, Used(need, need));
  }

  /** The blocks of a slide one by one. */
  lemma SlideBlocks(bs: Tiles, lo: nat, hi: nat, cur: nat)
    requires CanSlide(bs, lo, hi, cur) && BlockOk(bs[Step(bs, cur)])
    ensures var n, g, after := Step(bs, cur), Gap(bs, cur), Slide(bs, cur);
            && cur < g < Step(bs, n) && cur < n < Step(bs, n) && B <= bs[cur].size
            && after.Keys == bs.Keys - {n} + {g}
            && after[cur] == Used(bs[n].need, bs[n].need)
            && after[g] == Free(Step(bs, n) - g)
            && (forall p | p in bs && p != cur && p != n :: p in after && p != g && after[p] == bs[p])
  {
    hide Adjoining, CoalescedBut;
  }

  /** A free block elsewhere ends neither at the new gap nor at the block that moves. */
  lemma SlideNeighbour(bs: Tiles, lo: nat, hi: nat, cur: nat, p: nat)
    requires CanSlide(bs, lo, hi, cur) && BlockOk(bs[Step(bs, cur)])
    requires p in bs && bs[p].Free? && p != cur
    ensures Step(bs, p) != Gap(bs, cur) && Step(bs, p) != Step(bs, cur)
    ensures Step(bs, p) in bs ==> bs[Step(bs, p)].Used?
  {
    hide Adjoining;
    var n := Step(bs, cur);
    assert p < cur || n < p;
  }

  lemma SlideCoalesced(bs: Tiles, lo: nat, hi: nat, cur: nat)
    requires CanSlide(bs, lo, hi, cur) && BlockOk(bs[Step(bs, cur)])
    ensures CoalescedBut(Slide(bs, cur), {Gap(bs, cur)})
    ensures forall p: nat :: !FreeLeftOf(Slide(bs, cur), p, Gap(bs, cur))
  {
    hide Slide, Tiled;
    var after, g := Slide(bs, cur), Gap(bs, cur);
    SlideBlocks(bs, lo, hi, cur);
    forall p | p in after && after[p].Free? && p != g
      ensures Step(after, p) != g
      ensures Step(after, p) in after ==> after[Step(after, p)].Used?
    {
      assert Step(after, p) == Step(bs, p);
      SlideNeighbour(bs, lo, hi, cur, p);
    }
  }

  lemma SlideTotal(bs: Tiles, lo: nat, hi: nat, cur: nat)
    requires CanSlide(bs, lo, hi, cur) && BlockOk(bs[Step(bs, cur)])
    ensures var n := Step(bs, cur);
            Total(FreeWords, Slide(bs, cur)) == Total(FreeWords, bs) + (bs[n].size - bs[n].need)
  {
    hide Total, Adjoining, CoalescedBut;
    var n, need := Step(bs, cur), bs[Step(bs, cur)].need;
    var all := bs[cur].size + bs[n].size;
    TotalDrop(FreeWords, bs, n);
    TotalPut(FreeWords, bs - {n}, cur, Free(all));
    TotalPut(FreeWords, Join(bs, cur), cur, Free(need));
    assert cur + need !in Join(bs, cur);
    TotalPut(FreeWords, Join(bs, cur)[cur := Free(need)], cur + need, Free(all - need));
    TotalPut(FreeWords, Cut(Join(bs, cur), cur, need), cur, Used(need, need));
  }

  /** After the slide the free block is joined with a free block on its right. */
  ghost function SlideAndJoin(bs: Tiles, cur: nat): Tiles
    requires cur in bs && Step(bs, cur) in bs && bs[Step(bs, cur)].Used?
    requires BlockOk(bs[Step(bs, cur)])
  {
    if Gap(bs, cur) in Slide(bs, cur) then JoinFree(Slide(bs, cur), Gap(bs, cur)) else Slide(bs, cur)
  }

  lemma SlideAndJoinKeeps(bs: Tiles, lo: nat, hi: nat, cur: nat)
    requires CanSlide(bs, lo, hi, cur)
    ensures BlockOk(bs[Step(bs, cur)])
    ensures var after, n := SlideAndJoin(bs, cur), Step(bs, cur);
            && Tiled(after, lo, hi) && Coalesced(after)
            && Total(FreeWords, after) == Total(FreeWords, bs) + (bs[n].size - bs[n].need)
  {
    hide Adjoining, Apart, Coalesced, CoalescedBut, Total, Slide, JoinFree;
    SlideTiled(bs, lo, hi, cur);
    SlideBlocks(bs, lo, hi, cur);
    SlideCoalesced(bs, lo, hi, cur);
    SlideTotal(bs, lo, hi, cur);
    JoinFreeRight(Slide(bs, cur), lo, hi, Gap(bs, cur));
  }

  // ----- The segment during the sweep -----

  /** While the sweep stands at a free block, the tags before and behind it are out of date. */
  ghost function Loose(bs: Tiles, cur: nat): set<nat> {
    if cur in bs && bs[cur].Free? then set o | o in bs && (o == cur || Step(bs, o) == cur) else {}
  }

  /** The blocks the sweep has not reached; free ones among them are not listed. */
  ghost function From(bs: Tiles, cur: nat): set<nat> {
    set o | o in bs && cur <= o
  }

  ghost predicate Sweeping(hd: Headers, pay: Payloads, bs: Tiles, fl: seq<nat>, lo: nat, hi: nat, cur: nat) {
    && 4 < lo <= hi && Tiled(bs, lo, hi) && Coalesced(bs) && (cur in bs || cur == hi)
    && Shape(hd, bs, lo, hi, {}, Loose(bs, cur)) && Listed(hd, bs, lo, hi, fl, From(bs, cur))
    && PayloadsFit(pay, bs)
  }

  /** Listing depends on the exemptions of free blocks only. */
  lemma ListedBut(hd: Headers, bs: Tiles, lo: nat, hi: nat, fl: seq<nat>, but: set<nat>, but1: set<nat>)
    requires Listed(hd, bs, lo, hi, fl, but)
    requires forall o: nat | o in bs && bs[o].Free? :: o in but <==> o in but1
    ensures Listed(hd, bs, lo, hi, fl, but1)
  {
    hide Chain, Distinct;
  }

  ghost function Emptied(hd: Headers, lo: nat, hi: nat): Headers
    requires 4 <= lo && lo - 4 in hd && hi in hd
  {
    var hd1 := hd[lo - 4 := hd[lo - 4].(fnext := hi)];
    hd1[hi := hd1[hi].(fprev := lo - 4)]
  }

  lemma SweepStart(hd: Headers, pay: Payloads, h: Heap, lo: nat, hi: nat)
    requires Represents(hd, pay, h, lo, hi)
    ensures lo - 4 in hd && hi in hd
    ensures Sweeping(Emptied(hd, lo, hi), pay, h.blocks, [], lo, hi, lo)
  {
    hide CoalescedBut, Adjoining, Apart, PayloadsFit;
    var hd1 := Emptied(hd, lo, hi);
    LastLink(hd, lo, hi, h.fl);
    assert Spine(lo, hi, []) == [lo - 4, hi];
    EmptiedShape(hd, h.blocks, lo, hi);
    hide Heads, Tags;
    assert forall o: nat | o in h.blocks :: o in From(h.blocks, lo);
  }

  lemma EmptiedShape(hd: Headers, bs: Tiles, lo: nat, hi: nat)
    requires Shape(hd, bs, lo, hi, {}, {}) && Ranged(bs, lo, hi)
    ensures Shape(Emptied(hd, lo, hi), bs, lo, hi, {}, Loose(bs, lo))
  {
    var hd1 := Emptied(hd, lo, hi);
    assert lo - 4 !in bs && hi !in bs;
    assert Tags(hd1, bs, {});
  }

  lemma SweepEnd(hd: Headers, pay: Payloads, bs: Tiles, fl: seq<nat>, lo: nat, hi: nat)
    requires Sweeping(hd, pay, bs, fl, lo, hi, hi)
    ensures Represents(hd, pay, Heap(bs, fl), lo, hi)
  {
    hide CoalescedBut, Adjoining, Apart, PayloadsFit, Tags, Heads, Chain;
    assert hi !in bs;
    ListedBut(hd, bs, lo, hi, fl, From(bs, hi), {});
  }

  lemma SweepAdvance(hd: Headers, pay: Payloads, bs: Tiles, fl: seq<nat>, lo: nat, hi: nat, cur: nat)
    requires Sweeping(hd, pay, bs, fl, lo, hi, cur) && cur in bs && bs[cur].Used?
    ensures Sweeping(hd, pay, bs, fl, lo, hi, Step(bs, cur))
  {
    hide CoalescedBut, Heads, Chain, PayloadsFit, Lists;
    var n := Step(bs, cur);
    ShapeWeaken(hd, bs, lo, hi, {}, {}, {}, Loose(bs, n));
    assert forall o: nat | o in bs && bs[o].Free? :: o in From(bs, cur) <==> o in From(bs, n);
    ListedBut(hd, bs, lo, hi, fl, From(bs, cur), From(bs, n));
  }

  /** At a block, `fnext` tells free from allocated; the last sentinel has size 0. */
  lemma SweepReads(hd: Headers, pay: Payloads, bs: Tiles, fl: seq<nat>, lo: nat, hi: nat, cur: nat)
    requires Sweeping(hd, pay, bs, fl, lo, hi, cur)
    ensures cur in hd && (hd[cur].size == 0 <==> cur == hi) && cur <= hi && (cur in bs || cur == hi)
    ensures cur in bs ==>
      && hd[cur].size == bs[cur].size >= B && (hd[cur].fnext != 0 <==> bs[cur].Free?)
      && (bs[cur].Used? ==> hd[cur].fprev == bs[cur].need && B <= bs[cur].need <= bs[cur].size)
      && cur < Step(bs, cur) <= hi && (Step(bs, cur) in bs || Step(bs, cur) == hi)
      && Step(bs, cur) in hd
      && (Step(bs, cur) == hi <==> hd[Step(bs, cur)].size == 0)
      && (Step(bs, cur) in bs ==>
            hd[Step(bs, cur)].size == bs[Step(bs, cur)].size >= B && Step(bs, Step(bs, cur)) <= hi)
  {
    hide CoalescedBut, Tags, Chain, PayloadsFit, Lists;
  }

  ghost function RefusedHeaders(hd: Headers, dst: nat, cur: nat, n: nat, size: nat): Headers
    requires dst in hd && cur in hd && hd[dst].fnext in hd && n in hd
  {
    var hd1 := LinkedAfter(hd, dst, cur);
    var hd2 := hd1[cur := hd1[cur].(prevSize := 0)];
    hd2[n := hd2[n].(prevSize := size)]
  }

  /** The headers with the tags of the free block at `cur` and of its successor set. */
  ghost function TagsSet(hd: Headers, cur: nat, n: nat, size: nat): Headers
    requires cur in hd && n in hd
  {
    var hd2 := hd[cur := hd[cur].(prevSize := 0)];
    hd2[n := hd2[n].(prevSize := size)]
  }

  lemma RefuseTags(hd1: Headers, bs: Tiles, lo: nat, hi: nat, cur: nat)
    requires Tiled(bs, lo, hi) && Coalesced(bs) && Tags(hd1, bs, Loose(bs, cur))
    requires cur in bs && bs[cur].Free? && Step(bs, cur) in hd1 && cur in hd1
    ensures Tags(TagsSet(hd1, cur, Step(bs, cur), bs[cur].size), bs, {})
  {
    hide Adjoining;
    var n := Step(bs, cur);
    var hd3 := TagsSet(hd1, cur, n, bs[cur].size);
    forall o | o in bs
      ensures Step(bs, o) in hd3 && hd3[Step(bs, o)].prevSize == FreeSize(bs[o])
    {
      if o != cur {
        StepsDiffer(bs, lo, hi, o, cur);
      }
    }
  }

  lemma StepsDiffer(bs: Tiles, lo: nat, hi: nat, o: nat, p: nat)
    requires Tiled(bs, lo, hi) && o in bs && p in bs && o != p
    ensures Step(bs, o) != Step(bs, p) && Step(bs, o) > o && Step(bs, p) > p
  {
    hide Adjoining;
  }

  lemma RefuseShape(hd1: Headers, bs: Tiles, lo: nat, hi: nat, cur: nat)
    requires Tiled(bs, lo, hi) && Coalesced(bs) && Shape(hd1, bs, lo, hi, {}, Loose(bs, cur))
    requires cur in bs && bs[cur].Free? && Step(bs, cur) in hd1
    ensures cur in hd1
    ensures var n := Step(bs, cur);
            var hd2 := hd1[cur := hd1[cur].(prevSize := 0)];
            Shape(hd2[n := hd2[n].(prevSize := bs[cur].size)], bs, lo, hi, {}, {})
  {
    hide Tags, Adjoining, CoalescedBut, Apart;
    RefuseTags(hd1, bs, lo, hi, cur);
  }

  lemma SweepRefuse(hd: Headers, pay: Payloads, bs: Tiles, fl: seq<nat>, lo: nat, hi: nat, cur: nat)
    requires Sweeping(hd, pay, bs, fl, lo, hi, cur) && cur in bs && bs[cur].Free?
    ensures var n := Step(bs, cur);
            && lo - 4 in hd && cur in hd && n in hd && hd[lo - 4].fnext in hd
            && Sweeping(RefusedHeaders(hd, lo - 4, cur, n, bs[cur].size), pay, bs, [cur] + fl, lo, hi,
                        if n in bs then Step(bs, n) else hi)
  {
    hide PayloadsFit, Heads, Tags, Chain, LinkedAfter, CoalescedBut, Lists;
    var n, next := Step(bs, cur), if Step(bs, cur) in bs then Step(bs, Step(bs, cur)) else hi;
    LinkStep(hd, bs, lo, hi, fl, cur, From(bs, cur), {}, Loose(bs, cur));
    assert {} - {cur} == {};
    var hd1 := LinkedAfter(hd, lo - 4, cur);
    RefuseShape(hd1, bs, lo, hi, cur);
    var hd2 := RefusedHeaders(hd, lo - 4, cur, n, bs[cur].size);
    SweepRefuseListed(hd1, hd2, bs, fl, lo, hi, cur);
    ShapeWeaken(hd2, bs, lo, hi, {}, {}, {}, Loose(bs, next));
  }

  lemma SweepRefuseListed(hd1: Headers, hd2: Headers, bs: Tiles, fl: seq<nat>, lo: nat, hi: nat, cur: nat)
    requires Tiled(bs, lo, hi) && Coalesced(bs) && cur in bs && bs[cur].Free?
    requires Listed(hd1, bs, lo, hi, [cur] + fl, From(bs, cur) - {cur})
    requires hd1.Keys == hd2.Keys && forall p | p in hd1 :: hd1[p].fnext == hd2[p].fnext && hd1[p].fprev == hd2[p].fprev
    ensures var n := Step(bs, cur);
            Listed(hd2, bs, lo, hi, [cur] + fl, From(bs, if n in bs then Step(bs, n) else hi))
  {
    hide Chain, Lists;
    var n, next := Step(bs, cur), if Step(bs, cur) in bs then Step(bs, Step(bs, cur)) else hi;
    assert n == hi || n in bs;
    assert n in bs ==> bs[n].Used?;
    ListedBut(hd1, bs, lo, hi, [cur] + fl, From(bs, cur) - {cur}, From(bs, next));
    assert Lists([cur] + fl, bs, From(bs, next));
    ListedFrame(hd1, hd2, bs, bs, lo, hi, [cur] + fl, From(bs, next), From(bs, next));
  }

  /** The headers after the move, with the new header of the free block at `g`. */
  ghost function SlidHeaders(hd: Headers, cur: nat, n: nat, need: nat, size: nat, garbage: Header): Headers
    requires cur in hd && n in hd
  {
    var hd1 := hd[n := hd[n].(size := need)];
    var hd2 := MovedHeaders(hd1, cur, n);
    var hd3 := hd2[cur := hd2[cur].(prevSize := 0)];
    hd3[cur + need := garbage.(size := size, fnext := 1)]
  }

  ghost function SlidAt(hd: Headers, bs: Tiles, cur: nat, garbage: Header): Headers
    requires cur in bs && Step(bs, cur) in bs && bs[Step(bs, cur)].Used? && BlockOk(bs[Step(bs, cur)])
    requires cur in hd && Step(bs, cur) in hd
  {
    var n := Step(bs, cur);
    SlidHeaders(hd, cur, n, bs[n].need, bs[cur].size + (bs[n].size - bs[n].need), garbage)
  }

  /** What the slide does to each header. */
  lemma SlidHeadersAre(hd: Headers, bs: Tiles, lo: nat, hi: nat, cur: nat, garbage: Header)
    requires CanSlide(bs, lo, hi, cur) && BlockOk(bs[Step(bs, cur)]) && cur in hd && Step(bs, cur) in hd
    ensures var n, g, hd1 := Step(bs, cur), Gap(bs, cur), SlidAt(hd, bs, cur, garbage);
            && hd1.Keys == hd.Keys - {n} + {g}
            && hd1[cur] == hd[n].(size := bs[n].need, prevSize := 0)
            && hd1[g].size == Step(bs, n) - g && hd1[g].fnext == 1
            && (forall p | p in hd && p != cur && p != n && p != g :: p in hd1 && hd1[p] == hd[p])
  {
    SlideBlocks(bs, lo, hi, cur);
    hide Tiled, CoalescedBut, Slide;
  }

  lemma SlidTags(hd: Headers, bs: Tiles, lo: nat, hi: nat, cur: nat, garbage: Header)
    requires CanSlide(bs, lo, hi, cur) && BlockOk(bs[Step(bs, cur)]) && cur in hd && Step(bs, cur) in hd
    requires Tags(hd, bs, Loose(bs, cur))
    ensures Tags(SlidAt(hd, bs, cur, garbage), Slide(bs, cur), {Gap(bs, cur), cur})
  {
    hide SlidAt, Slide;
    var n, g, bs1, hd1 := Step(bs, cur), Gap(bs, cur), Slide(bs, cur), SlidAt(hd, bs, cur, garbage);
    SlideBlocks(bs, lo, hi, cur);
    SlidHeadersAre(hd, bs, lo, hi, cur, garbage);
    forall p | p in bs1 && p !in {g, cur}
      ensures Step(bs1, p) in hd1 && hd1[Step(bs1, p)].prevSize == FreeSize(bs1[p])
    {
      assert p in bs && p != n && Step(bs, p) == Step(bs1, p) && Step(bs, p) != n;
      assert Step(bs, p) == cur ==> bs[p].Used?;
      assert Step(bs, p) != g;
    }
  }

  lemma SlidHeads(hd: Headers, bs: Tiles, lo: nat, hi: nat, cur: nat, garbage: Header)
    requires CanSlide(bs, lo, hi, cur) && BlockOk(bs[Step(bs, cur)]) && cur in hd && Step(bs, cur) in hd
    requires Heads(hd, bs, {})
    ensures Heads(SlidAt(hd, bs, cur, garbage), Slide(bs, cur), {})
  {
    hide SlidAt, Slide, Tiled, CoalescedBut;
    SlideBlocks(bs, lo, hi, cur);
    SlidHeadersAre(hd, bs, lo, hi, cur, garbage);
  }

  lemma SlidEnds(hd: Headers, bs: Tiles, lo: nat, hi: nat, cur: nat, garbage: Header)
    requires CanSlide(bs, lo, hi, cur) && BlockOk(bs[Step(bs, cur)]) && cur in hd && Step(bs, cur) in hd
    requires Ends(hd, bs, lo, hi)
    ensures Ends(SlidAt(hd, bs, cur, garbage), Slide(bs, cur), lo, hi)
  {
    hide SlidAt, Slide, CoalescedBut, Adjoining, Apart;
    SlideBlocks(bs, lo, hi, cur);
    SlidHeadersAre(hd, bs, lo, hi, cur, garbage);
    assert lo <= cur;
  }

  lemma SlidListed(hd: Headers, bs: Tiles, lo: nat, hi: nat, cur: nat, fl: seq<nat>, garbage: Header)
    requires CanSlide(bs, lo, hi, cur) && BlockOk(bs[Step(bs, cur)]) && cur in hd && Step(bs, cur) in hd
    requires Listed(hd, bs, lo, hi, fl, From(bs, cur))
    ensures Listed(SlidAt(hd, bs, cur, garbage), Slide(bs, cur), lo, hi, fl, From(Slide(bs, cur), Gap(bs, cur)))
  {
    hide SlidAt, Slide, CoalescedBut, Adjoining, Chain, Distinct;
    var g, bs1 := Gap(bs, cur), Slide(bs, cur);
    SlideTiled(bs, lo, hi, cur);
    SlideBlocks(bs, lo, hi, cur);
    SlidHeadersAre(hd, bs, lo, hi, cur, garbage);
    SlidLists(bs, lo, hi, cur, fl);
    ListedFrame(hd, SlidAt(hd, bs, cur, garbage), bs, bs1, lo, hi, fl, From(bs, cur), From(bs1, g));
  }

  lemma SlidLists(bs: Tiles, lo: nat, hi: nat, cur: nat, fl: seq<nat>)
    requires CanSlide(bs, lo, hi, cur) && BlockOk(bs[Step(bs, cur)])
    requires Lists(fl, bs, From(bs, cur))
    ensures Lists(fl, Slide(bs, cur), From(Slide(bs, cur), Gap(bs, cur)))
  {
    hide Slide, CoalescedBut, Adjoining, Distinct;
    SlideBlocks(bs, lo, hi, cur);
    var g, bs1 := Gap(bs, cur), Slide(bs, cur);
    forall o: nat
      ensures o in fl <==> o in bs1 && bs1[o].Free? && o !in From(bs1, g)
    {
      if o in bs && o > cur {
        assert o >= Step(bs, cur);
      }
    }
  }

  lemma SlidPayloads(pay: Payloads, bs: Tiles, lo: nat, hi: nat, cur: nat)
    requires CanSlide(bs, lo, hi, cur) && BlockOk(bs[Step(bs, cur)]) && PayloadsFit(pay, bs)
    ensures Step(bs, cur) + B in pay && |pay[Step(bs, cur) + B]| == bs[Step(bs, cur)].need - B
    ensures PayloadsFit(MovedPayloads(pay, cur, Step(bs, cur)), Slide(bs, cur))
  {
    hide Slide, CoalescedBut, Adjoining, Apart;
    var n, bs1 := Step(bs, cur), Slide(bs, cur);
    SlideBlocks(bs, lo, hi, cur);
    assert HasPayload(pay, n, bs[n]);
    var pay1 := MovedPayloads(pay, cur, n);
    forall o | o in bs1
      ensures HasPayload(pay1, o, bs1[o])
    {
      if o in bs && o != cur {
        assert HasPayload(pay, o, bs[o]);
      }
    }
    forall e | e in pay1
      ensures InUsedBlock(bs1, e)
    {
      if e != cur + B {
        assert InUsedBlock(bs, e);
      }
    }
  }

  /** The state after the move, before a free right neighbour is joined. */
  ghost predicate Slid(hd: Headers, pay: Payloads, bs: Tiles, fl: seq<nat>, lo: nat, hi: nat, cur: nat) {
    && 4 < lo <= hi && CanSlide(bs, lo, hi, cur) && BlockOk(bs[Step(bs, cur)])
    && Shape(hd, Slide(bs, cur), lo, hi, {}, {Gap(bs, cur), cur})
    && Listed(hd, Slide(bs, cur), lo, hi, fl, From(Slide(bs, cur), Gap(bs, cur)))
    && PayloadsFit(pay, Slide(bs, cur))
  }

  lemma SweepSlide(hd: Headers, pay: Payloads, bs: Tiles, fl: seq<nat>, lo: nat, hi: nat, cur: nat, garbage: Header)
    requires Sweeping(hd, pay, bs, fl, lo, hi, cur) && CanSlide(bs, lo, hi, cur)
    ensures BlockOk(bs[Step(bs, cur)]) && cur in hd && Step(bs, cur) in hd && Step(bs, cur) + B in pay
    ensures |pay[Step(bs, cur) + B]| == bs[Step(bs, cur)].need - B
    ensures Slid(SlidAt(hd, bs, cur, garbage), MovedPayloads(pay, cur, Step(bs, cur)), bs, fl, lo, hi, cur)
  {
    hide Heads, Tags, Chain, PayloadsFit, CoalescedBut, SlidAt, Slide, Lists, Adjoining, Apart, MovedPayloads;
    SweepReads(hd, pay, bs, fl, lo, hi, cur);
    SlideTiled(bs, lo, hi, cur);
    SlidTags(hd, bs, lo, hi, cur, garbage);
    SlidHeads(hd, bs, lo, hi, cur, garbage);
    SlidEnds(hd, bs, lo, hi, cur, garbage);
    SlidListed(hd, bs, lo, hi, cur, fl, garbage);
    SlidPayloads(pay, bs, lo, hi, cur);
  }

  /** Joining a free right neighbour of the gap, or nothing if there is none. */
  lemma SweepJoin(hd: Headers, pay: Payloads, bs: Tiles, fl: seq<nat>, lo: nat, hi: nat, cur: nat)
    requires Slid(hd, pay, bs, fl, lo, hi, cur)
    ensures var g, n2 := Gap(bs, cur), Step(bs, Step(bs, cur));
            && g < n2 && g in hd && n2 in hd && hd[g].size == n2 - g
            && if hd[n2].fnext == 0 then Sweeping(hd, pay, SlideAndJoin(bs, cur), fl, lo, hi, g)
               else Sweeping(JoinHeaders(hd, g, n2), pay, SlideAndJoin(bs, cur), fl, lo, hi, g)
  {
    hide Tags, PayloadsFit, CoalescedBut, Lists, Adjoining, Apart, Slide, Spine, Total, JoinHeaders;
    var g, n2, bs1 := Gap(bs, cur), Step(bs, Step(bs, cur)), Slide(bs, cur);
    SlideBlocks(bs, lo, hi, cur);
    SlideTiled(bs, lo, hi, cur);
    SlideAndJoinKeeps(bs, lo, hi, cur);
    GapFacts(hd, pay, bs, fl, lo, hi, cur);
    hide Chain, Heads;
    if n2 in bs1 && bs1[n2].Free? {
      SweepJoinFree(hd, pay, bs1, fl, lo, hi, cur, g);
    } else {
      LooseGap(bs, lo, hi, cur);
      ShapeWeaken(hd, bs1, lo, hi, {}, {g, cur}, {}, Loose(bs1, g));
    }
  }

  lemma LooseGap(bs: Tiles, lo: nat, hi: nat, cur: nat)
    requires CanSlide(bs, lo, hi, cur) && BlockOk(bs[Step(bs, cur)])
    ensures {Gap(bs, cur), cur} <= Loose(Slide(bs, cur), Gap(bs, cur))
  {
    hide Slide, Tiled, CoalescedBut;
    SlideBlocks(bs, lo, hi, cur);
    assert Step(Slide(bs, cur), cur) == Gap(bs, cur);
  }

  lemma GapFacts(hd: Headers, pay: Payloads, bs: Tiles, fl: seq<nat>, lo: nat, hi: nat, cur: nat)
    requires Slid(hd, pay, bs, fl, lo, hi, cur)
    ensures var g, n2, bs1 := Gap(bs, cur), Step(bs, Step(bs, cur)), Slide(bs, cur);
            && g in bs1 && bs1[g].Free? && Step(bs1, g) == n2 && g in hd && n2 in hd && hd[g].size == n2 - g
            && cur in bs1 && Step(bs1, cur) == g && cur < g
            && (hd[n2].fnext != 0 <==> n2 in bs1 && bs1[n2].Free?)
  {
    hide Tags, PayloadsFit, CoalescedBut, Lists, Apart, Slide, Spine;
    var g, n2, bs1 := Gap(bs, cur), Step(bs, Step(bs, cur)), Slide(bs, cur);
    SlideBlocks(bs, lo, hi, cur);
    SlideTiled(bs, lo, hi, cur);
    LastLink(hd, lo, hi, fl);
    assert Step(bs1, g) == n2;
  }

  lemma SweepJoinFree(hd: Headers, pay: Payloads, bs1: Tiles, fl: seq<nat>, lo: nat, hi: nat, cur: nat, g: nat)
    requires 4 < lo <= hi && Tiled(bs1, lo, hi) && cur in bs1 && Step(bs1, cur) == g && cur < g
    requires g in bs1 && bs1[g].Free? && Step(bs1, g) in bs1 && bs1[Step(bs1, g)].Free?
    requires Shape(hd, bs1, lo, hi, {}, {g, cur}) && Listed(hd, bs1, lo, hi, fl, From(bs1, g)) && PayloadsFit(pay, bs1)
    requires Coalesced(Join(bs1, g))
    ensures g in hd && Step(bs1, g) in hd
    ensures Sweeping(JoinHeaders(hd, g, Step(bs1, g)), pay, Join(bs1, g), fl, lo, hi, g)
  {
    hide Tags, CoalescedBut, Adjoining, Apart, Chain, Distinct;
    var n2, bs2 := Step(bs1, g), Join(bs1, g);
    assert {g, cur} <= {g, n2} + {cur};
    ShapeWeaken(hd, bs1, lo, hi, {}, {g, cur}, {g, n2}, {g, n2} + {cur});
    JoinShape(hd, bs1, lo, hi, g, {cur});
    JoinTiled(bs1, lo, hi, g);
    var hd2 := JoinHeaders(hd, g, n2);
    assert n2 in From(bs1, g) && n2 !in fl && n2 < hi;
    JoinedSweepShape(hd, hd2, bs1, lo, hi, cur, g);
    JoinSweepLists(fl, bs1, lo, hi, g);
    ListedFrame(hd, hd2, bs1, bs2, lo, hi, fl, From(bs1, g), From(bs2, g));
    JoinPayloads(pay, bs1, g);
  }

  lemma JoinedSweepShape(hd: Headers, hd2: Headers, bs1: Tiles, lo: nat, hi: nat, cur: nat, g: nat)
    requires g in bs1 && bs1[g].Free? && Step(bs1, g) in bs1 && g in hd && Step(bs1, g) in hd
    requires cur in bs1 && Step(bs1, cur) == g && cur < g
    requires hd2 == JoinHeaders(hd, g, Step(bs1, g)) && hd[g].fnext != 0
    requires Shape(hd2, Join(bs1, g), lo, hi, {g}, {g} + {cur})
    ensures Shape(hd2, Join(bs1, g), lo, hi, {}, Loose(Join(bs1, g), g))
  {
    hide Tags;
    var bs2 := Join(bs1, g);
    assert HeadTag(hd2[g], bs2[g]);
    assert Step(bs2, cur) == g;
    assert {g} + {cur} <= Loose(bs2, g);
    TagsWeaken(hd2, bs2, {g} + {cur}, Loose(bs2, g));
  }

  lemma TagsWeaken(hd: Headers, bs: Tiles, tb: set<nat>, tb1: set<nat>)
    requires Tags(hd, bs, tb) && tb <= tb1
    ensures Tags(hd, bs, tb1)
  {
  }

  lemma JoinSweepLists(fl: seq<nat>, bs1: Tiles, lo: nat, hi: nat, g: nat)
    requires Tiled(bs1, lo, hi) && g in bs1 && bs1[g].Free? && Step(bs1, g) in bs1 && Lists(fl, bs1, From(bs1, g))
    ensures Lists(fl, Join(bs1, g), From(Join(bs1, g), g))
  {
    hide Adjoining, Distinct;
  }

  lemma JoinPayloads(pay: Payloads, bs: Tiles, l: nat)
    requires PayloadsFit(pay, bs) && l in bs && bs[l].Free? && Step(bs, l) in bs && bs[Step(bs, l)].Free?
    ensures PayloadsFit(pay, Join(bs, l))
  {
    forall o | o in Join(bs, l)
      ensures HasPayload(pay, o, Join(bs, l)[o])
    {
      assert HasPayload(pay, o, bs[o]);
    }
    forall e | e in pay
      ensures InUsedBlock(Join(bs, l), e)
    {
      assert InUsedBlock(bs, e);
    }
  }

  /** Moving the block down overwrites nothing but the free block, and leaves room for the
      header of the gap. */
  lemma SlideRoom(hd: Headers, pay: Payloads, bs: Tiles, fl: seq<nat>, lo: nat, hi: nat, cur: nat)
    requires Sweeping(hd, pay, bs, fl, lo, hi, cur) && CanSlide(bs, lo, hi, cur)
    ensures var n := Step(bs, cur);
            && BlockOk(bs[n]) && cur < n && Gap(bs, cur) + B <= Step(bs, n) <= hi
            && n + B in pay && |pay[n + B]| == bs[n].need - B
            && OnlyThese(hd, pay, cur, n, n + bs[n].need)
    ensures forall p | p in hd && p != cur && p != Step(bs, cur) :: p + 4 <= cur || Step(bs, Step(bs, cur)) <= p
    ensures forall e | e in pay && e != Step(bs, cur) + B :: e + |pay[e]| <= cur || Step(bs, Step(bs, cur)) <= e
  {
    hide Heads, Tags, Listed, CoalescedBut, Tiled;
    var n: nat := Step(bs, cur);
    assert HasPayload(pay, n, bs[n]);
    forall e | e in pay && e != n + B
      ensures e + |pay[e]| <= cur || Step(bs, n) <= e
    {
      assert InUsedBlock(bs, e) && HasPayload(pay, e - B, bs[e - B]);
      AroundPair(bs, lo, hi, cur, e - B);
    }
    forall p | p in hd && p != cur && p != n
      ensures p + 4 <= cur || Step(bs, n) <= p
    {
      AroundPair(bs, lo, hi, cur, p);
    }
    AroundPair(bs, lo, hi, cur, cur);
  }

  /** The free block and the one that moves over it are side by side. */
  lemma AroundPair(bs: Tiles, lo: nat, hi: nat, cur: nat, p: nat)
    requires CanSlide(bs, lo, hi, cur)
    ensures var n := Step(bs, cur);
            && BlockOk(bs[cur]) && BlockOk(bs[n]) && lo <= cur < n && Step(bs, n) <= hi
            && (p in bs && p != cur && p != n ==> BlockOk(bs[p]) && (Step(bs, p) <= cur || Step(bs, n) <= p))
  {
    hide Adjoining, CoalescedBut;
    assert p in bs ==> p < cur || p == cur || p > cur;
  }

  lemma GapRoom(hd: Headers, pay: Payloads, cur: nat, n: nat, need: nat, end: nat)
    requires cur in hd && n in hd && n + B in pay && |pay[n + B]| == need - B && need >= B
    requires cur + need + B <= end
    requires forall p | p in hd && p != cur && p != n :: p + 4 <= cur || end <= p
    requires forall e | e in pay && e != n + B :: e + |pay[e]| <= cur || end <= e
    ensures NoOverlapAt(MovedHeaders(hd, cur, n), MovedPayloads(pay, cur, n), cur + need, cur + need + 4)
  {
  }

  lemma SweepLinkable(hd: Headers, pay: Payloads, bs: Tiles, fl: seq<nat>, lo: nat, hi: nat, cur: nat)
    requires Sweeping(hd, pay, bs, fl, lo, hi, cur) && cur in bs
    ensures 4 < lo && cur in hd && hd[cur].size == bs[cur].size
    ensures var c := Spine(lo, hi, fl); Chain(hd, c) && Distinct(c) && cur !in c
  {
    hide Heads, Tags, Chain, PayloadsFit, CoalescedBut, Adjoining, Apart;
    SweepReads(hd, pay, bs, fl, lo, hi, cur);
    SpineDistinct(fl, bs, lo, hi, From(bs, cur));
  }

  lemma SweepSlideReads(hd: Headers, pay: Payloads, bs: Tiles, fl: seq<nat>, lo: nat, hi: nat, cur: nat)
    requires Sweeping(hd, pay, bs, fl, lo, hi, cur) && CanSlide(bs, lo, hi, cur)
    ensures var n := Step(bs, cur);
            && BlockOk(bs[n]) && cur in hd && n in hd && hd[cur].size == bs[cur].size
            && hd[n].size == bs[n].size && hd[n].fprev == bs[n].need
  {
    hide Tags, Chain, PayloadsFit, CoalescedBut, Lists, Adjoining, Apart;
  }

  // ----- Where allocations end up -----

  /** From the payload addresses before the sweep to the present ones. */
  type Relocation = map<nat, nat>

  ghost predicate Rising(r: Relocation) {
    && (forall e | e in r :: r[e] <= e)
    && (forall e, f | e in r && f in r && e < f :: r[e] < r[f])
  }

  ghost predicate WordsKept(r: Relocation, pay0: Payloads, pay: Payloads) {
    r.Keys == pay0.Keys && forall e | e in r :: r[e] in pay && |pay[r[e]]| == |pay0[e]|
  }

  ghost predicate Reached(r: Relocation, a: nat) {
    exists e :: e in r && r[e] == a
  }

  ghost predicate AllReached(r: Relocation, pay: Payloads) {
    forall a {:trigger Reached(r, a)} | a in pay :: Reached(r, a)
  }

  ghost predicate BlocksKept(r: Relocation, bs0: Tiles, bs: Tiles) {
    forall e {:trigger BlockKept(r[e], e, bs0, bs)} | e in r :: BlockKept(r[e], e, bs0, bs)
  }

  /** Allocations keep their order and their used words and never move up; a block that
      moved has lost its slack, the others have kept their size. */
  ghost predicate MovedAsNoted(r: Relocation, pay0: Payloads, bs0: Tiles, pay: Payloads, bs: Tiles) {
    Rising(r) && WordsKept(r, pay0, pay) && AllReached(r, pay) && BlocksKept(r, bs0, bs)
  }

  ghost predicate BlockKept(a: nat, e: nat, bs0: Tiles, bs: Tiles) {
    && B <= a && B <= e && a - B in bs && e - B in bs0 && bs[a - B].Used? && bs0[e - B].Used?
    && bs[a - B].need == bs0[e - B].need
    && bs[a - B].size == if a == e then bs0[e - B].size else bs0[e - B].need
  }

  /** Allocations at or behind `cur` are still where they were. */
  ghost predicate Untouched(r: Relocation, pay: Payloads, cur: nat) {
    forall a | a in pay && cur + B <= a :: a in r && r[a] == a
  }

  /** Every free block before `cur` ends at the end of the segment or at an allocation in `stops`. */
  ghost predicate StoppedBy(bs: Tiles, hi: nat, cur: nat, stops: set<nat>) {
    forall o {:trigger Step(bs, o)} | o in bs && bs[o].Free? && o < cur ::
      Step(bs, o) == hi || Step(bs, o) + B in stops
  }

  ghost predicate Stayed(r: Relocation, s: set<nat>) {
    forall a | a in s && a in r :: r[a] == a
  }

  lemma RelocateStart(pay: Payloads, bs: Tiles) returns (r: Relocation)
    requires PayloadsFit(pay, bs)
    ensures MovedAsNoted(r, pay, bs, pay, bs) && Untouched(r, pay, 0) && forall s :: Stayed(r, s)
    ensures r.Keys == pay.Keys && forall e | e in r :: r[e] == e
  {
    r := map e | e in pay :: e;
    forall e | e in pay
      ensures BlockKept(r[e], e, bs, bs) && Reached(r, e)
    {
      assert InUsedBlock(bs, e);
      assert r[e] == e;
    }
  }

  /** All other allocations are before the free block or behind the one that moves. */
  ghost predicate AroundSlide(r: Relocation, to: nat, from: nat) {
    && from in r && r[from] == from && to < from
    && forall e | e in r && e != from :: r[e] < to || r[e] > from
  }

  lemma RelocateAround(r: Relocation, pay0: Payloads, bs0: Tiles, pay: Payloads, bs: Tiles, lo: nat, hi: nat, cur: nat)
    requires Rising(r) && BlocksKept(r, bs0, bs) && Untouched(r, pay, cur) && CanSlide(bs, lo, hi, cur)
    requires Step(bs, cur) + B in pay
    ensures AroundSlide(r, cur + B, Step(bs, cur) + B)
  {
    hide CoalescedBut, Adjoining;
    var n := Step(bs, cur);
    forall e | e in r && e != n + B
      ensures r[e] < cur + B || r[e] > n + B
    {
      assert BlockKept(r[e], e, bs0, bs);
      assert e < n + B ==> r[e] < r[n + B];
    }
  }

  lemma RisingSlide(r: Relocation, to: nat, from: nat)
    requires Rising(r) && AroundSlide(r, to, from)
    ensures Rising(r[from := to])
  {
  }

  lemma ReachedSlide(r: Relocation, pay: Payloads, to: nat, from: nat)
    requires AllReached(r, pay) && AroundSlide(r, to + B, from + B) && from + B in pay
    ensures AllReached(r[from + B := to + B], MovedPayloads(pay, to, from))
  {
    var r1, pay1 := r[from + B := to + B], MovedPayloads(pay, to, from);
    forall a | a in pay1
      ensures Reached(r1, a)
    {
      if a == to + B {
        assert r1[from + B] == a;
      } else {
        assert Reached(r, a);
        var e :| e in r && r[e] == a;
        assert r1[e] == a;
      }
    }
  }

  lemma WordsSlide(r: Relocation, pay0: Payloads, pay: Payloads, to: nat, from: nat)
    requires WordsKept(r, pay0, pay) && AroundSlide(r, to + B, from + B) && from + B in pay
    ensures WordsKept(r[from + B := to + B], pay0, MovedPayloads(pay, to, from))
  {
  }

  lemma BlocksSlide(r: Relocation, bs0: Tiles, bs: Tiles, lo: nat, hi: nat, cur: nat)
    requires BlocksKept(r, bs0, bs) && CanSlide(bs, lo, hi, cur) && AroundSlide(r, cur + B, Step(bs, cur) + B)
    requires BlockOk(bs[Step(bs, cur)])
    ensures BlocksKept(r[Step(bs, cur) + B := cur + B], bs0, SlideAndJoin(bs, cur))
  {
    hide Tiled, CoalescedBut, SlideAndJoin;
    var n, after := Step(bs, cur), SlideAndJoin(bs, cur);
    var r1 := r[n + B := cur + B];
    SlideUsed(bs, lo, hi, cur);
    forall e | e in r1
      ensures BlockKept(r1[e], e, bs0, after)
    {
      assert BlockKept(r[e], e, bs0, bs);
    }
  }

  lemma RelocateSlide(r: Relocation, pay0: Payloads, bs0: Tiles, pay: Payloads, bs: Tiles, lo: nat, hi: nat, cur: nat)
    requires MovedAsNoted(r, pay0, bs0, pay, bs) && Untouched(r, pay, cur)
    requires CanSlide(bs, lo, hi, cur) && BlockOk(bs[Step(bs, cur)]) && Step(bs, cur) + B in pay
    ensures AroundSlide(r, cur + B, Step(bs, cur) + B)
    ensures MovedAsNoted(r[Step(bs, cur) + B := cur + B], pay0, bs0, MovedPayloads(pay, cur, Step(bs, cur)),
                      SlideAndJoin(bs, cur))
    ensures Untouched(r[Step(bs, cur) + B := cur + B], MovedPayloads(pay, cur, Step(bs, cur)), Gap(bs, cur))
  {
    hide Tiled, CoalescedBut, SlideAndJoin, Rising, WordsKept, AllReached, BlocksKept;
    var n := Step(bs, cur);
    SlideUsed(bs, lo, hi, cur);
    RelocateAround(r, pay0, bs0, pay, bs, lo, hi, cur);
    RisingSlide(r, cur + B, n + B);
    ReachedSlide(r, pay, cur, n);
    WordsSlide(r, pay0, pay, cur, n);
    BlocksSlide(r, bs0, bs, lo, hi, cur);
  }

  lemma SlideUsed(bs: Tiles, lo: nat, hi: nat, cur: nat)
    requires CanSlide(bs, lo, hi, cur)
    ensures BlockOk(bs[Step(bs, cur)])
    ensures var n, after := Step(bs, cur), SlideAndJoin(bs, cur);
            && cur < Gap(bs, cur) && cur < n && cur in after && after[cur] == Used(bs[n].need, bs[n].need)
            && forall p | p in bs && p != n && bs[p].Used? :: p in after && after[p] == bs[p]
  {
    hide CoalescedBut, Adjoining, Apart;
    SlideTiled(bs, lo, hi, cur);
    SlideBlocks(bs, lo, hi, cur);
  }

  lemma SlideBelow(bs: Tiles, lo: nat, hi: nat, cur: nat)
    requires CanSlide(bs, lo, hi, cur) && BlockOk(bs[Step(bs, cur)])
    ensures var after := SlideAndJoin(bs, cur);
            && cur in after && after[cur].Used?
            && forall o | o in after && o < Gap(bs, cur) && o != cur :: o in bs && o < cur && after[o] == bs[o]
  {
    hide Slide, CoalescedBut, Adjoining, Tiled;
    SlideBlocks(bs, lo, hi, cur);
    SlideTiled(bs, lo, hi, cur);
    JoinAtGap(Slide(bs, cur), Gap(bs, cur));
    forall o | o in SlideAndJoin(bs, cur) && o < Gap(bs, cur) && o != cur
      ensures o in bs && o < cur && SlideAndJoin(bs, cur)[o] == bs[o]
    {
      assert o in Slide(bs, cur);
      AroundPair(bs, lo, hi, cur, o);
    }
  }

  /** Joining on the right changes nothing before the block. */
  lemma JoinAtGap(bs: Tiles, g: nat)
    requires g in bs && bs[g].size > 0
    ensures forall o | o < g :: (o in JoinFree(bs, g) <==> o in bs) && (o in bs ==> JoinFree(bs, g)[o] == bs[o])
  {
  }

  lemma StoppedSlide(bs: Tiles, lo: nat, hi: nat, cur: nat, stops: set<nat>)
    requires CanSlide(bs, lo, hi, cur) && BlockOk(bs[Step(bs, cur)]) && StoppedBy(bs, hi, cur, stops)
    ensures StoppedBy(SlideAndJoin(bs, cur), hi, Gap(bs, cur), stops)
  {
    hide Tiled, CoalescedBut, SlideAndJoin;
    SlideBelow(bs, lo, hi, cur);
    var g, after := Gap(bs, cur), SlideAndJoin(bs, cur);
    forall o | o in after && after[o].Free? && o < g
      ensures Step(after, o) == hi || Step(after, o) + B in stops
    {
      assert Step(after, o) == Step(bs, o);
    }
  }

  lemma StoppedAdvance(bs: Tiles, lo: nat, hi: nat, cur: nat, next: nat, stops: set<nat>)
    requires Tiled(bs, lo, hi) && StoppedBy(bs, hi, cur, stops) && cur in bs
    requires bs[cur].Used? ==> next == Step(bs, cur)
    requires bs[cur].Free? ==>
      var n := Step(bs, cur);
      if n in bs then bs[n].Used? && n + B in stops && next == Step(bs, n) else next == hi
    ensures StoppedBy(bs, hi, next, stops)
  {
    var n := Step(bs, cur);
    assert n == hi || n in bs;
  }

  // ----- The callback -----

  type Move = (seq<int>, nat, nat) --> (bool, seq<int>)

  /** The payload at `from` is from now on found at `to`. */
  ghost function Renamed(pay: Payloads, to: nat, from: nat): Payloads {
    if from in pay then (pay - {from})[to := pay[from]] else pay
  }

  /** The allocation at `from` may be asked to move down to `to`: nothing lies in between.
      No payload is below `base`. */
  ghost predicate MayAsk(pay: Payloads, base: nat, to: nat, from: nat) {
    from in pay && base <= to < from && forall e | e in pay && e != from :: e + |pay[e]| <= to || from <= e
  }

  /** What is expected of a move callback.  Asked about the allocation at `from`, it refuses
      and leaves memory alone if that one is `pinned`.  Otherwise it accepts, having changed
      payload words only, in a way that makes the client's invariant hold once the
      allocation is found at `to`. */
  ghost predicate MoveOk(move: Move, patch: (Payloads, nat, nat) -> Payloads, inv: Payloads -> bool, pinned: set<nat>,
                         base: nat) {
    forall m: seq<int>, hd: Headers, pay: Payloads, to: nat, from: nat
      {:trigger MoveOkAt(move, patch, inv, pinned, m, hd, pay, to, from)} |
      Laid(m, hd, pay) && inv(pay) && MayAsk(pay, base, to, from) ::
      MoveOkAt(move, patch, inv, pinned, m, hd, pay, to, from)
  }

  ghost predicate MoveOkAt(move: Move, patch: (Payloads, nat, nat) -> Payloads, inv: Payloads -> bool, pinned: set<nat>,
                           m: seq<int>, hd: Headers, pay: Payloads, to: nat, from: nat) {
    && move.requires(m, from, to)
    && var (ok, m1) := move(m, from, to);
    && (ok <==> from !in pinned)
    && if ok then
      var pay1 := patch(pay, from, to);
      && from in pay1 && |m1| == |m| && Laid(m1, hd, pay1) && SameLengths(pay, pay1)
      && inv(Renamed(pay1, to, from))
    else m1 == m
  }

  // ----- The sweep with its bookkeeping -----

  /** What is recorded about a sweep: the payloads and blocks it started from, where each
      allocation is now, and which allocations must not move. */
  datatype Log = Log(pay0: Payloads, bs0: Tiles, r: Relocation, pinned: set<nat>)

  ghost predicate Recorded(l: Log, pay: Payloads, bs: Tiles, hi: nat, cur: nat) {
    && MovedAsNoted(l.r, l.pay0, l.bs0, pay, bs) && Untouched(l.r, pay, cur)
    && StoppedBy(bs, hi, cur, l.pinned) && Stayed(l.r, l.pinned)
  }

  lemma RecordStart(hd: Headers, pay: Payloads, h: Heap, lo: nat, hi: nat, pinned: set<nat>) returns (l: Log)
    requires Represents(hd, pay, h, lo, hi)
    ensures l.pay0 == pay && l.bs0 == h.blocks && l.pinned == pinned && Recorded(l, pay, h.blocks, hi, lo)
            && SameWords(l, pay)
  {
    hide Heads, Tags, Chain, Lists, CoalescedBut, Adjoining, Apart, MovedAsNoted;
    var r := RelocateStart(pay, h.blocks);
    l := Log(pay, h.blocks, r, pinned);
  }

  lemma RecordAdvance(l: Log, hd: Headers, pay: Payloads, bs: Tiles, fl: seq<nat>, lo: nat, hi: nat, cur: nat)
    requires Sweeping(hd, pay, bs, fl, lo, hi, cur) && Recorded(l, pay, bs, hi, cur) && cur in bs && bs[cur].Used?
    ensures Sweeping(hd, pay, bs, fl, lo, hi, Step(bs, cur)) && Recorded(l, pay, bs, hi, Step(bs, cur))
  {
    hide Tiled, Shape, Listed, CoalescedBut, MovedAsNoted, StoppedBy, Stayed, PayloadsFit;
    SweepReads(hd, pay, bs, fl, lo, hi, cur);
    SweepAdvance(hd, pay, bs, fl, lo, hi, cur);
    StoppedAdvance(bs, lo, hi, cur, Step(bs, cur), l.pinned);
  }

  lemma RecordRefusal(l: Log, pay: Payloads, bs: Tiles, lo: nat, hi: nat, cur: nat)
    requires Recorded(l, pay, bs, hi, cur) && Tiled(bs, lo, hi) && Coalesced(bs)
    requires cur in bs && bs[cur].Free? && (Step(bs, cur) in bs ==> Step(bs, cur) + B in l.pinned)
    ensures Recorded(l, pay, bs, hi, if Step(bs, cur) in bs then Step(bs, Step(bs, cur)) else hi)
  {
    hide MovedAsNoted, Stayed;
    var n: nat := Step(bs, cur);
    assert n == hi || n in bs;
    StoppedAdvance(bs, lo, hi, cur, if n in bs then Step(bs, n) else hi, l.pinned);
    assert n in bs ==> Step(bs, n) > n > cur;
  }

  lemma RecordSlide(l: Log, pay: Payloads, bs: Tiles, lo: nat, hi: nat, cur: nat)
    requires Recorded(l, pay, bs, hi, cur) && CanSlide(bs, lo, hi, cur) && BlockOk(bs[Step(bs, cur)])
    requires Step(bs, cur) + B in pay && Step(bs, cur) + B !in l.pinned
    ensures Recorded(l.(r := l.r[Step(bs, cur) + B := cur + B]), MovedPayloads(pay, cur, Step(bs, cur)),
                     SlideAndJoin(bs, cur), hi, Gap(bs, cur))
  {
    hide Tiled, CoalescedBut, MovedAsNoted, StoppedBy, Untouched, SlideAndJoin;
    RelocateSlide(l.r, l.pay0, l.bs0, pay, bs, lo, hi, cur);
    StoppedSlide(bs, lo, hi, cur, l.pinned);
    SlideUsed(bs, lo, hi, cur);
  }

  // ----- Callbacks that change nothing -----

  ghost predicate Inert(patch: (Payloads, nat, nat) -> Payloads) {
    forall pay: Payloads, from: nat, to: nat {:trigger patch(pay, from, to)} :: patch(pay, from, to) == pay
  }

  /** Every allocation has the words that it had before the sweep. */
  ghost predicate SameWords(l: Log, pay: Payloads) {
    forall e | e in l.r :: e in l.pay0 && l.r[e] in pay && pay[l.r[e]] == l.pay0[e]
  }

  lemma SlideKeepsWords(l: Log, hd: Headers, pay: Payloads, bs: Tiles, fl: seq<nat>, lo: nat, hi: nat, cur: nat)
    requires Sweeping(hd, pay, bs, fl, lo, hi, cur) && CanSlide(bs, lo, hi, cur) && Recorded(l, pay, bs, hi, cur)
    requires Step(bs, cur) + B in pay
    ensures SameWords(l, pay) ==>
              SameWords(l.(r := l.r[Step(bs, cur) + B := cur + B]), MovedPayloads(pay, cur, Step(bs, cur)))
  {
    hide Tiled, CoalescedBut, Shape, Listed, StoppedBy, Stayed, WordsKept, AllReached;
    FreeHasNoPayload(pay, bs, cur);
    RelocateAround(l.r, l.pay0, l.bs0, pay, bs, lo, hi, cur);
  }

  lemma SweepPatch(hd: Headers, pay: Payloads, pay1: Payloads, bs: Tiles, fl: seq<nat>, lo: nat, hi: nat, cur: nat)
    requires Sweeping(hd, pay, bs, fl, lo, hi, cur) && SameLengths(pay, pay1)
    ensures Sweeping(hd, pay1, bs, fl, lo, hi, cur)
  {
    hide Shape, Listed, Tiled, CoalescedBut;
    forall o | o in bs
      ensures HasPayload(pay1, o, bs[o])
    {
      assert HasPayload(pay, o, bs[o]);
    }
  }

  lemma RecordPatch(l: Log, pay: Payloads, pay1: Payloads, bs: Tiles, hi: nat, cur: nat)
    requires Recorded(l, pay, bs, hi, cur) && SameLengths(pay, pay1)
    ensures Recorded(l, pay1, bs, hi, cur)
  {
    hide StoppedBy, Stayed, Rising, BlocksKept;
    assert AllReached(l.r, pay1);
  }

  lemma MayAskHere(hd: Headers, pay: Payloads, bs: Tiles, fl: seq<nat>, lo: nat, hi: nat, cur: nat)
    requires Sweeping(hd, pay, bs, fl, lo, hi, cur) && CanSlide(bs, lo, hi, cur)
    ensures MayAsk(pay, lo + B, cur + B, Step(bs, cur) + B)
  {
    hide Sweeping, CoalescedBut, Adjoining, Apart;
    SlideRoom(hd, pay, bs, fl, lo, hi, cur);
  }

  lemma SlideKeepsSum(bs: Tiles, lo: nat, hi: nat, cur: nat)
    requires CanSlide(bs, lo, hi, cur)
    ensures BlockOk(bs[Step(bs, cur)])
    ensures var n := Step(bs, cur);
            Total(FreeWords, SlideAndJoin(bs, cur)) == Total(FreeWords, bs) + (bs[n].size - bs[n].need)
  {
    hide Tiled, CoalescedBut, Total, SlideAndJoin;
    SlideAndJoinKeeps(bs, lo, hi, cur);
  }

  /** The sweep stands at the free block `cur`, with the allocated block `nxt` behind it. */
  ghost predicate AtSlide(hd: Headers, pay: Payloads, bs: Tiles, fl: seq<nat>, lo: nat, hi: nat, cur: nat, nxt: nat,
                          l: Log) {
    && Sweeping(hd, pay, bs, fl, lo, hi, cur) && CanSlide(bs, lo, hi, cur) && nxt == Step(bs, cur)
    && Recorded(l, pay, bs, hi, cur)
  }

  /** The sweep stands at `cur`. */
  ghost predicate InSweep(hd: Headers, pay: Payloads, bs: Tiles, fl: seq<nat>, lo: nat, hi: nat, cur: nat, l: Log) {
    Sweeping(hd, pay, bs, fl, lo, hi, cur) && Recorded(l, pay, bs, hi, cur)
  }

  lemma SweepCanSlide(hd: Headers, pay: Payloads, bs: Tiles, fl: seq<nat>, lo: nat, hi: nat, cur: nat)
    requires Sweeping(hd, pay, bs, fl, lo, hi, cur) && cur in bs && bs[cur].Free?
    ensures Tiled(bs, lo, hi) && Coalesced(bs) && PayloadsFit(pay, bs)
    ensures Step(bs, cur) in bs ==> CanSlide(bs, lo, hi, cur) && bs[Step(bs, cur)].Used?
  {
    hide Shape, Listed, Tiled, PayloadsFit;
  }

  lemma InSweepAdvance(hd: Headers, pay: Payloads, bs: Tiles, fl: seq<nat>, lo: nat, hi: nat, cur: nat, l: Log)
    requires InSweep(hd, pay, bs, fl, lo, hi, cur, l)
    ensures cur in hd && (hd[cur].size == 0 <==> cur == hi) && cur <= hi
    ensures cur != hi ==> cur in bs && hd[cur].size == bs[cur].size && cur < Step(bs, cur) <= hi
    ensures cur != hi && hd[cur].fnext == 0 ==> InSweep(hd, pay, bs, fl, lo, hi, Step(bs, cur), l)
    ensures cur != hi && hd[cur].fnext != 0 ==>
      && bs[cur].Free? && Step(bs, cur) in hd
      && (hd[Step(bs, cur)].size != 0 ==> AtSlide(hd, pay, bs, fl, lo, hi, cur, Step(bs, cur), l))
      && (hd[Step(bs, cur)].size == 0 ==> Step(bs, cur) == hi && hi !in bs)
  {
    hide Sweeping, Recorded;
    SweepReads(hd, pay, bs, fl, lo, hi, cur);
    if cur != hi {
      if hd[cur].fnext == 0 {
        RecordAdvance(l, hd, pay, bs, fl, lo, hi, cur);
      } else {
        SweepCanSlide(hd, pay, bs, fl, lo, hi, cur);
      }
    }
  }

  // ----- What a finished sweep means -----

  /** If no allocation had to stay, all free words are in one block at the end. */
  lemma SweptClean(l: Log, pay: Payloads, h: Heap, lo: nat, hi: nat)
    requires Recorded(l, pay, h.blocks, hi, hi) && WellFormed(h, lo, hi) && l.pinned == {}
    ensures Avail(h) > 0 ==> exists o :: o in h.blocks && h.blocks[o] == Free(Avail(h)) && Step(h.blocks, o) == hi
  {
    hide MovedAsNoted, Stayed, CoalescedBut;
    var bs := h.blocks;
    assert forall o | o in bs && bs[o].Free? :: o < hi && Step(bs, o) == hi;
    OneFree(bs);
  }

  lemma {:induction false} OneFree(bs: Tiles)
    requires forall o, p | o in bs && p in bs && bs[o].Free? && bs[p].Free? :: o == p
    ensures Total(FreeWords, bs) > 0 ==> exists o :: o in bs && bs[o] == Free(Total(FreeWords, bs))
    decreases |bs|
  {
    hide Total;
    if bs == map[] {
      TotalEmpty(FreeWords);
    } else if o :| o in bs && bs[o].Free? {
      TotalRemove(FreeWords, bs, o);
      NoneFree(bs - {o});
    } else {
      NoneFree(bs);
    }
  }

  lemma {:induction false} NoneFree(bs: Tiles)
    requires forall o | o in bs :: bs[o].Used?
    ensures Total(FreeWords, bs) == 0
    decreases |bs|
  {
    hide Total;
    if bs == map[] {
      TotalEmpty(FreeWords);
    } else {
      var o :| o in bs;
      TotalRemove(FreeWords, bs, o);
      NoneFree(bs - {o});
    }
  }

  // ----- What a sweep reclaims -----

  ghost function Slack(bs0: Tiles, e: nat, a: nat): nat {
    if a != e && B <= e && e - B in bs0 && bs0[e - B].Used? && bs0[e - B].size >= bs0[e - B].need
    then bs0[e - B].size - bs0[e - B].need else 0
  }

  /** The slack of all blocks that have moved. */
  ghost function Reclaimed(r: Relocation, bs0: Tiles): nat
    decreases |r|
  {
    if r == map[] then 0
    else
      var e :| e in r;
      Slack(bs0, e, r[e]) + Reclaimed(r - {e}, bs0)
  }

  ghost predicate OneToOne(r: Relocation) {
    forall e, f | e in r && f in r && e != f :: r[e] != r[f]
  }

  ghost predicate PairKept(r: Relocation, bs0: Tiles, bs: Tiles, e: nat) {
    e in r && BlockKept(r[e], e, bs0, bs) && BlockOk(bs0[e - B])
  }

  ghost predicate Covered(r: Relocation, b: Block, o: nat) {
    b.Used? ==> o + B in r
  }

  ghost predicate CoveredAfter(r: Relocation, b: Block, o: nat) {
    b.Used? ==> Reached(r, o + B)
  }

  /** The used blocks before and after are those of the relocated allocations. */
  ghost predicate Pairs(r: Relocation, bs0: Tiles, bs: Tiles) {
    && OneToOne(r)
    && (forall e {:trigger PairKept(r, bs0, bs, e)} | e in r :: PairKept(r, bs0, bs, e))
    && (forall o {:trigger Covered(r, bs0[o], o)} | o in bs0 :: Covered(r, bs0[o], o))
    && (forall o {:trigger CoveredAfter(r, bs[o], o)} | o in bs :: CoveredAfter(r, bs[o], o))
  }

  lemma PairsLess(r: Relocation, bs0: Tiles, bs: Tiles, e: nat)
    requires Pairs(r, bs0, bs) && e in r
    ensures B <= e && B <= r[e] && Pairs(r - {e}, bs0 - {e - B}, bs - {r[e] - B})
  {
    assert PairKept(r, bs0, bs, e);
    var r1, bs01, bs1 := r - {e}, bs0 - {e - B}, bs - {r[e] - B};
    forall f | f in r1
      ensures PairKept(r1, bs01, bs1, f)
    {
      assert PairKept(r, bs0, bs, f);
    }
    forall o | o in bs01
      ensures Covered(r1, bs01[o], o)
    {
      assert Covered(r, bs0[o], o);
    }
    forall o | o in bs1
      ensures CoveredAfter(r1, bs1[o], o)
    {
      assert CoveredAfter(r, bs[o], o);
      if bs1[o].Used? {
        var f :| f in r && r[f] == o + B;
        assert f in r1 && r1[f] == o + B;
      }
    }
  }

  lemma NothingUsed(bs0: Tiles, bs: Tiles)
    requires Pairs(map[], bs0, bs)
    ensures (forall o | o in bs0 :: bs0[o].Free?) && (forall o | o in bs :: bs[o].Free?)
  {
    forall o | o in bs0
      ensures bs0[o].Free?
    {
      assert Covered(map[], bs0[o], o);
    }
    forall o | o in bs
      ensures bs[o].Free?
    {
      assert CoveredAfter(map[], bs[o], o);
    }
  }

  lemma {:induction false} NoneUsed(bs: Tiles)
    requires forall o | o in bs :: bs[o].Free?
    ensures Total(UsedWords, bs) == 0
    decreases |bs|
  {
    hide Total;
    if bs == map[] {
      TotalEmpty(UsedWords);
    } else {
      var o :| o in bs;
      TotalRemove(UsedWords, bs, o);
      NoneUsed(bs - {o});
    }
  }

  lemma {:induction false} ReclaimedSum(r: Relocation, bs0: Tiles, bs: Tiles)
    requires Pairs(r, bs0, bs)
    ensures Total(UsedWords, bs0) == Total(UsedWords, bs) + Reclaimed(r, bs0)
    decreases |r|
  {
    hide Total, Pairs;
    if r == map[] {
      NothingUsed(bs0, bs);
      NoneUsed(bs0);
      NoneUsed(bs);
    } else {
      var e :| e in r && Reclaimed(r, bs0) == Slack(bs0, e, r[e]) + Reclaimed(r - {e}, bs0);
      hide Reclaimed;
      PairsLess(r, bs0, bs, e);
      PairWords(r, bs0, bs, e);
      TotalRemove(UsedWords, bs0, e - B);
      TotalRemove(UsedWords, bs, r[e] - B);
      ReclaimedSum(r - {e}, bs0 - {e - B}, bs - {r[e] - B});
      OtherSlack(r, bs0, e);
      SameSlack(r - {e}, bs0, bs0 - {e - B});
    }
  }

  lemma PairWords(r: Relocation, bs0: Tiles, bs: Tiles, e: nat)
    requires Pairs(r, bs0, bs) && e in r
    ensures B <= e && B <= r[e] && e - B in bs0 && r[e] - B in bs
    ensures Weight(UsedWords, bs0[e - B]) == Weight(UsedWords, bs[r[e] - B]) + Slack(bs0, e, r[e])
  {
    assert PairKept(r, bs0, bs, e);
  }

  lemma OtherSlack(r: Relocation, bs0: Tiles, e: nat)
    requires B <= e
    ensures forall f | f in r - {e} :: Slack(bs0 - {e - B}, f, r[f]) == Slack(bs0, f, r[f])
  {
  }

  lemma {:induction false} SameSlack(r: Relocation, bs0: Tiles, bs1: Tiles)
    requires forall e | e in r :: Slack(bs1, e, r[e]) == Slack(bs0, e, r[e])
    ensures Reclaimed(r, bs1) == Reclaimed(r, bs0)
    decreases |r|
  {
    hide Slack;
    if r != map[] {
      var e :| e in r && Reclaimed(r, bs0) == Slack(bs0, e, r[e]) + Reclaimed(r - {e}, bs0);
      SameSlack(r - {e}, bs0, bs1);
      ReclaimedRemove(r, bs1, e);
    }
  }

  lemma {:induction false} ReclaimedRemove(r: Relocation, bs0: Tiles, e: nat)
    requires e in r
    ensures Reclaimed(r, bs0) == Slack(bs0, e, r[e]) + Reclaimed(r - {e}, bs0)
    decreases |r|
  {
    var f :| f in r && Reclaimed(r, bs0) == Slack(bs0, f, r[f]) + Reclaimed(r - {f}, bs0);
    hide Slack, Reclaimed;
    if f != e {
      ReclaimedRemove(r - {f}, bs0, e);
      assert r - {f} - {e} == r - {e} - {f};
      ReclaimedRemove(r - {e}, bs0, f);
    }
  }

  lemma RecordedPairs(l: Log, pay: Payloads, bs: Tiles, hi: nat, lo: nat)
    requires Recorded(l, pay, bs, hi, hi) && PayloadsFit(l.pay0, l.bs0) && PayloadsFit(pay, bs) && Tiled(l.bs0, lo, hi)
    ensures Pairs(l.r, l.bs0, bs)
  {
    hide Untouched, StoppedBy, Stayed, Adjoining, Apart, Reached;
    forall e | e in l.r
      ensures PairKept(l.r, l.bs0, bs, e)
    {
      assert BlockKept(l.r[e], e, l.bs0, bs);
    }
    forall o | o in l.bs0
      ensures Covered(l.r, l.bs0[o], o)
    {
      assert HasPayload(l.pay0, o, l.bs0[o]);
    }
    forall o | o in bs
      ensures CoveredAfter(l.r, bs[o], o)
    {
      assert HasPayload(pay, o, bs[o]);
      assert o + B in pay ==> Reached(l.r, o + B);
    }
  }

  /** A sweep makes the free memory larger by exactly the slack of the blocks that moved. */
  lemma SweepReclaims(l: Log, pay: Payloads, h: Heap, lo: nat, hi: nat)
    requires Recorded(l, pay, h.blocks, hi, hi) && PayloadsFit(l.pay0, l.bs0) && PayloadsFit(pay, h.blocks)
    requires Tiled(l.bs0, lo, hi) && Tiled(h.blocks, lo, hi)
    ensures Avail(h) == Total(FreeWords, l.bs0) + Reclaimed(l.r, l.bs0)
  {
    hide Recorded, Total, PayloadsFit, Tiled;
    RecordedPairs(l, pay, h.blocks, hi, lo);
    ReclaimedSum(l.r, l.bs0, h.blocks);
    Conservation(l.bs0, lo, hi);
    Conservation(h.blocks, lo, hi);
  }

  // ----- The sweep is determined -----

  /** What the log records is a sweep that ended in the heap `h1`. */
  ghost predicate SweptBy(l: Log, pay: Payloads, h1: Heap, lo: nat, hi: nat) {
    && Recorded(l, pay, h1.blocks, hi, hi) && WellFormed(h1, lo, hi)
    && PayloadsFit(l.pay0, l.bs0) && PayloadsFit(pay, h1.blocks)
  }

  /** A sweep from `h` that left the allocations in `pinned` alone ended in `h1`. */
  ghost predicate Swept(h: Heap, h1: Heap, pinned: set<nat>, lo: nat, hi: nat) {
    exists l, pay :: SweptBy(l, pay, h1, lo, hi) && l.bs0 == h.blocks && l.pinned == pinned
  }

  /** The allocation just before `e` is `f`. */
  ghost predicate Before(r: Relocation, f: nat, e: nat) {
    f in r && e in r && f < e && forall g | g in r :: g <= f || e <= g
  }

  /** No allocation is before `e`. */
  ghost predicate IsFirst(r: Relocation, e: nat) {
    e in r && forall g | g in r :: e <= g
  }

  /** The words of the block of `e` when it is at `a`. */
  ghost function SizeThen(bs0: Tiles, e: nat, a: nat): int {
    if B <= e && e - B in bs0 && bs0[e - B].Used? then (if a == e then bs0[e - B].size else bs0[e - B].need) else 0
  }

  /** An allocation that may move ends up just behind the one before it. */
  lemma PlaceOfNext(l: Log, pay: Payloads, h1: Heap, lo: nat, hi: nat, e: nat) returns (first: bool, f: nat)
    requires SweptBy(l, pay, h1, lo, hi) && e in l.r && e !in l.pinned
    requires forall a | a in l.pinned :: a in l.r
    ensures first ==> IsFirst(l.r, e) && l.r[e] == lo + B
    ensures !first ==> Before(l.r, f, e) && l.r[e] == l.r[f] + SizeThen(l.bs0, f, l.r[f])
  {
    hide CoalescedBut, Lists, Untouched, PayloadsFit, WordsKept;
    var bs := h1.blocks;
    assert BlockKept(l.r[e], e, l.bs0, bs);
    var o: nat := l.r[e] - B;
    RangedAt(bs, lo, hi, o);
    f := 0;
    if o == lo {
      first := true;
      FirstAtStart(l, pay, h1, lo, hi, e);
    } else {
      first := false;
      var p := Predecessor(bs, lo, hi, o);
      RangedAt(bs, lo, hi, p);
      NotAStop(l, bs, hi, e, p);
      f := UsedReached(l, pay, h1, lo, hi, p);
      assert BlockKept(l.r[f], f, l.bs0, bs);
      NoneBetween(l, bs, lo, hi, f, e);
    }
  }

  lemma FirstAtStart(l: Log, pay: Payloads, h1: Heap, lo: nat, hi: nat, e: nat)
    requires SweptBy(l, pay, h1, lo, hi) && e in l.r && l.r[e] == lo + B
    ensures IsFirst(l.r, e)
  {
    hide CoalescedBut, Lists, Untouched, PayloadsFit, WordsKept, AllReached, StoppedBy, Stayed, Adjoining, Apart;
    forall g | g in l.r
      ensures e <= g
    {
      assert BlockKept(l.r[g], g, l.bs0, h1.blocks);
      RangedAt(h1.blocks, lo, hi, l.r[g] - B);
    }
  }

  /** Free memory ends only at an allocation that stayed. */
  lemma NotAStop(l: Log, bs: Tiles, hi: nat, e: nat, p: nat)
    requires StoppedBy(bs, hi, hi, l.pinned) && Stayed(l.r, l.pinned) && Rising(l.r)
    requires e in l.r && e !in l.pinned && forall a | a in l.pinned :: a in l.r
    requires p in bs && p < hi && B <= l.r[e] && Step(bs, p) == l.r[e] - B < hi
    ensures bs[p].Used?
  {
  }

  lemma UsedReached(l: Log, pay: Payloads, h1: Heap, lo: nat, hi: nat, p: nat) returns (f: nat)
    requires SweptBy(l, pay, h1, lo, hi) && p in h1.blocks && h1.blocks[p].Used?
    ensures f in l.r && l.r[f] == p + B
  {
    hide CoalescedBut, Lists, Untouched, WordsKept, Rising, StoppedBy, Stayed, Tiled, BlocksKept;
    assert HasPayload(pay, p, h1.blocks[p]);
    assert Reached(l.r, p + B);
    f :| f in l.r && l.r[f] == p + B;
  }

  lemma NoneBetween(l: Log, bs: Tiles, lo: nat, hi: nat, f: nat, e: nat)
    requires Rising(l.r) && BlocksKept(l.r, l.bs0, bs) && Tiled(bs, lo, hi)
    requires f in l.r && e in l.r && B <= l.r[f] < l.r[e] && l.r[f] - B in bs && Step(bs, l.r[f] - B) == l.r[e] - B
    ensures Before(l.r, f, e)
  {
    hide Adjoining;
    forall g | g in l.r && f < g
      ensures e <= g
    {
      assert BlockKept(l.r[g], g, l.bs0, bs);
    }
  }

  lemma BeforeOnce(r: Relocation, s: Relocation, f: nat, g: nat, e: nat)
    requires Before(r, f, e) && Before(s, g, e) && r.Keys == s.Keys
    ensures f == g
  {
  }

  /** Where an allocation ends up depends only on the heap before the sweep and on which
      allocations are left alone. */
  lemma {:induction false} PlaceDetermined(l: Log, pay: Payloads, h1: Heap, l2: Log, pay2: Payloads, h2: Heap, lo: nat,
                                           hi: nat, e: nat)
    requires SweptBy(l, pay, h1, lo, hi) && SweptBy(l2, pay2, h2, lo, hi)
    requires l2.bs0 == l.bs0 && l2.pinned == l.pinned && l2.r.Keys == l.r.Keys
    requires e in l.r && forall a | a in l.pinned :: a in l.r
    ensures l2.r[e] == l.r[e]
    decreases e
  {
    hide SweptBy;
    if e in l.pinned {
      SweptStayed(l, pay, h1, lo, hi, e);
      SweptStayed(l2, pay2, h2, lo, hi, e);
    } else {
      var first, f := PlaceOfNext(l, pay, h1, lo, hi, e);
      var first2, f2 := PlaceOfNext(l2, pay2, h2, lo, hi, e);
      if !first && !first2 {
        BeforeOnce(l.r, l2.r, f, f2, e);
        PlaceDetermined(l, pay, h1, l2, pay2, h2, lo, hi, f);
      }
    }
  }

  lemma SweptStayed(l: Log, pay: Payloads, h1: Heap, lo: nat, hi: nat, e: nat)
    requires SweptBy(l, pay, h1, lo, hi) && e in l.pinned && e in l.r
    ensures l.r[e] == e
  {
    hide MovedAsNoted, WellFormed, PayloadsFit, StoppedBy;
  }

  lemma SweptKeys(l: Log, pay: Payloads, h1: Heap, lo: nat, hi: nat)
    requires SweptBy(l, pay, h1, lo, hi)
    ensures forall e | e in l.r :: B <= e && e - B in UsedPart(l.bs0)
    ensures forall o | o in UsedPart(l.bs0) :: o + B in l.r
  {
    hide SweptBy;
    forall e | e in l.r
      ensures B <= e && e - B in UsedPart(l.bs0)
    {
      KeptIn(l, pay, h1, lo, hi, e);
    }
    UsedHavePlaces(l, pay, h1, lo, hi);
  }

  lemma UsedHavePlaces(l: Log, pay: Payloads, h1: Heap, lo: nat, hi: nat)
    requires SweptBy(l, pay, h1, lo, hi)
    ensures forall o | o in UsedPart(l.bs0) :: o + B in l.r
  {
    hide WellFormed, StoppedBy, Stayed, Untouched, Rising, AllReached, BlocksKept;
    forall o | o in UsedPart(l.bs0)
      ensures o + B in l.r
    {
      assert HasPayload(l.pay0, o, l.bs0[o]);
    }
  }

  lemma SameUsedPart(l: Log, pay: Payloads, h1: Heap, l2: Log, pay2: Payloads, h2: Heap, lo: nat, hi: nat)
    requires SweptBy(l, pay, h1, lo, hi) && SweptBy(l2, pay2, h2, lo, hi) && l2.r == l.r && l2.bs0 == l.bs0
    ensures forall o | o in UsedPart(h1.blocks) :: o in UsedPart(h2.blocks) && h2.blocks[o] == h1.blocks[o]
  {
    hide SweptBy;
    forall o | o in UsedPart(h1.blocks)
      ensures o in UsedPart(h2.blocks) && h2.blocks[o] == h1.blocks[o]
    {
      var f := UsedReached(l, pay, h1, lo, hi, o);
      KeptIn(l, pay, h1, lo, hi, f);
      KeptIn(l2, pay2, h2, lo, hi, f);
    }
  }

  lemma KeptIn(l: Log, pay: Payloads, h1: Heap, lo: nat, hi: nat, f: nat)
    requires SweptBy(l, pay, h1, lo, hi) && f in l.r
    ensures BlockKept(l.r[f], f, l.bs0, h1.blocks)
  {
    hide WellFormed, PayloadsFit, StoppedBy, Stayed, Untouched, Rising, AllReached, WordsKept;
  }

  /** The sweep is determined: from one heap, with the same allocations left alone, it always
      ends in the same blocks. */
  lemma SweptUnique(h: Heap, h1: Heap, h2: Heap, pinned: set<nat>, lo: nat, hi: nat)
    requires Swept(h, h1, pinned, lo, hi) && Swept(h, h2, pinned, lo, hi)
    requires forall a | a in pinned :: B <= a && a - B in UsedPart(h.blocks)
    ensures h1.blocks == h2.blocks
  {
    hide SweptBy, UsedPart;
    var l, pay :| SweptBy(l, pay, h1, lo, hi) && l.bs0 == h.blocks && l.pinned == pinned;
    var l2, pay2 :| SweptBy(l2, pay2, h2, lo, hi) && l2.bs0 == h.blocks && l2.pinned == pinned;
    SweptKeys(l, pay, h1, lo, hi);
    SweptKeys(l2, pay2, h2, lo, hi);
    forall e | e in l.r
      ensures e in l2.r
    {
      assert e - B + B in l2.r;
    }
    forall e | e in l2.r
      ensures e in l.r
    {
      assert e - B + B in l.r;
    }
    forall a | a in pinned
      ensures a in l.r
    {
      assert a - B + B in l.r;
    }
    assert l2.r.Keys == l.r.Keys;
    forall e | e in l.r
      ensures l2.r[e] == l.r[e]
    {
      PlaceDetermined(l, pay, h1, l2, pay2, h2, lo, hi, e);
    }
    assert l2.r == l.r;
    SameUsedPart(l, pay, h1, l2, pay2, h2, lo, hi);
    SameUsedPart(l2, pay2, h2, l, pay, h1, lo, hi);
    SameBlocks(l, pay, h1, l2, pay2, h2, lo, hi);
  }

  lemma SameBlocks(l: Log, pay: Payloads, h1: Heap, l2: Log, pay2: Payloads, h2: Heap, lo: nat, hi: nat)
    requires SweptBy(l, pay, h1, lo, hi) && SweptBy(l2, pay2, h2, lo, hi)
    requires forall o | o in UsedPart(h1.blocks) :: o in UsedPart(h2.blocks) && h2.blocks[o] == h1.blocks[o]
    requires forall o | o in UsedPart(h2.blocks) :: o in UsedPart(h1.blocks) && h1.blocks[o] == h2.blocks[o]
    ensures h1.blocks == h2.blocks
  {
    hide Recorded, PayloadsFit, Tiled, CoalescedBut, Lists;
    assert UsedPart(h1.blocks) == UsedPart(h2.blocks);
    UsedDetermines(h1.blocks, h2.blocks, lo, hi);
  }
}
