/** How the headers and payloads in the segment represent the state of the allocator, and
    how the header writes of allocating and freeing carry that over to the next state. */
module HeapImage {
  import opened Blocks
  import opened Segment
  import opened FreeList
  import opened HeapModel

  // ----- Payloads and blocks -----

  ghost predicate HasPayload(pay: Payloads, o: nat, b: Block) {
    b.Used? ==> B <= b.need && o + B in pay && |pay[o + B]| == b.need - B
  }

  ghost predicate InUsedBlock(bs: Tiles, e: nat) {
    B <= e && e - B in bs && bs[e - B].Used?
  }

  /** Exactly the allocated blocks have a payload, just behind their header. */
  ghost predicate PayloadsFit(pay: Payloads, bs: Tiles) {
    && (forall o {:trigger HasPayload(pay, o, bs[o])} | o in bs :: HasPayload(pay, o, bs[o]))
    && (forall e {:trigger InUsedBlock(bs, e)} | e in pay :: InUsedBlock(bs, e))
  }

  lemma FreeInsideHeaders(hd: Headers, bs: Tiles, lo: nat, hi: nat, o: nat, a: nat, z: nat)
    requires Tiled(bs, lo, hi) && 4 < lo && hd.Keys == bs.Keys + {lo - 4, hi}
    requires o in bs && o + B <= a <= z <= Step(bs, o)
    ensures forall p | p in hd :: p + 4 <= a || z <= p
  {
    forall p | p in hd
      ensures p + 4 <= a || z <= p
    {
      assert p in bs || p == lo - 4 || p == hi;
    }
  }

  lemma FreeInsidePayloads(pay: Payloads, bs: Tiles, lo: nat, hi: nat, o: nat, a: nat, z: nat)
    requires Ranged(bs, lo, hi) && Apart(bs) && PayloadsFit(pay, bs)
    requires o in bs && bs[o].Free? && o + B <= a <= z <= Step(bs, o)
    ensures forall e | e in pay :: e + |pay[e]| <= a || z <= e
  {
    forall e | e in pay
      ensures e + |pay[e]| <= a || z <= e
    {
      assert InUsedBlock(bs, e);
      assert HasPayload(pay, e - B, bs[e - B]);
    }
  }

  /** The inside of a free block holds neither headers nor payloads. */
  lemma FreeInside(hd: Headers, pay: Payloads, bs: Tiles, lo: nat, hi: nat, o: nat, a: nat, z: nat)
    requires Tiled(bs, lo, hi) && PayloadsFit(pay, bs) && 4 < lo && hd.Keys == bs.Keys + {lo - 4, hi}
    requires o in bs && bs[o].Free? && o + B <= a <= z <= Step(bs, o)
    ensures NoOverlapAt(hd, pay, a, z)
  {
    FreeInsideHeaders(hd, bs, lo, hi, o, a, z);
    FreeInsidePayloads(pay, bs, lo, hi, o, a, z);
    hide Ranged, Adjoining, Apart, PayloadsFit;
  }

  // ----- Steps of the list -----

  ghost predicate Listed(hd: Headers, bs: Tiles, lo: nat, hi: nat, fl: seq<nat>, but: set<nat>) {
    4 < lo <= hi && Ranged(bs, lo, hi) && Chain(hd, Spine(lo, hi, fl)) && Lists(fl, bs, but)
  }

  lemma UnlinkList(hd: Headers, bs: Tiles, lo: nat, hi: nat, fl: seq<nat>, i: nat, but: set<nat>)
    requires Ends(hd, bs, lo, hi) && Listed(hd, bs, lo, hi, fl, but) && i < |fl|
    ensures var c, cur := Spine(lo, hi, fl), fl[i];
            && c[i + 1] == cur && cur in hd && hd[cur].fprev == c[i] && hd[cur].fnext == c[i + 2]
            && c[i] in hd && c[i + 2] in hd
            && Chain(Unlinked(hd, cur), Spine(lo, hi, Without(fl, cur)))
            && LinksOnly(hd, Unlinked(hd, cur), Elements(c) - {cur})
  {
    hide Without, Spine, Chain, Distinct, LinksOnly, Elements, Unlinked;
    assert 0 !in hd;
    var c := Spine(lo, hi, fl);
    ListsDistinct(fl, bs, but);
    SpineDistinct(fl, bs, lo, hi, but);
    SpineWithout(lo, hi, fl, i);
    ChainIn(hd, c, i);
    ChainIn(hd, c, i + 1);
    ChainIn(hd, c, i + 2);
    UnlinkChain(hd, c, i + 1);
    UnlinkFrame(hd, c, i + 1);
  }

  lemma ListsDistinct(fl: seq<nat>, bs: Tiles, but: set<nat>)
    requires Lists(fl, bs, but)
    ensures Distinct(fl)
  {
  }

  lemma ChainIn(hd: Headers, c: seq<nat>, k: nat)
    requires Chain(hd, c) && k < |c|
    ensures c[k] in hd
  {
  }

  lemma SpineWithout(lo: nat, hi: nat, fl: seq<nat>, i: nat)
    requires Distinct(fl) && i < |fl| && 4 <= lo
    ensures var c := Spine(lo, hi, fl);
            && |c| == |fl| + 2 && c[i + 1] == fl[i]
            && c[..i + 1] + c[i + 2..] == Spine(lo, hi, Without(fl, fl[i]))
  {
    hide Without, Distinct;
    WithoutAt(fl, i);
    Splice(lo - 4, fl, hi, i);
  }

  lemma Splice(a: nat, s: seq<nat>, z: nat, i: nat)
    requires i < |s|
    ensures ([a] + s + [z])[i + 1] == s[i]
    ensures ([a] + s + [z])[..i + 1] + ([a] + s + [z])[i + 2..] == [a] + (s[..i] + s[i + 1..]) + [z]
  {
    var c := [a] + s + [z];
    assert c[..i + 1] == [a] + s[..i];
    assert c[i + 2..] == s[i + 1..] + [z];
  }

  lemma UnlinkStep(hd: Headers, bs: Tiles, lo: nat, hi: nat, fl: seq<nat>, cur: nat, but: set<nat>, hb: set<nat>,
                   tb: set<nat>)
    requires Shape(hd, bs, lo, hi, hb, tb) && Listed(hd, bs, lo, hi, fl, but) && cur in fl
    ensures cur in hd && hd[cur].fprev in hd && hd[cur].fnext in hd
    ensures Listed(Unlinked(hd, cur), bs, lo, hi, Without(fl, cur), but + {cur})
    ensures Shape(Unlinked(hd, cur), bs, lo, hi, hb, tb)
  {
    var i :| 0 <= i < |fl| && fl[i] == cur;
    UnlinkList(hd, bs, lo, hi, fl, i, but);
    SpineDistinct(fl, bs, lo, hi, but);
    WithoutLists(fl, cur);
    hide Spine, Elements, Unlinked, LinksOnly, Chain, Distinct, Heads, Tags, Ends;
    LinksKeepShape(hd, Unlinked(hd, cur), Elements(Spine(lo, hi, fl)) - {cur}, bs, lo, hi, hb, tb);
  }

  lemma LinkList(hd: Headers, bs: Tiles, lo: nat, hi: nat, fl: seq<nat>, cur: nat, but: set<nat>)
    requires Ends(hd, bs, lo, hi) && Listed(hd, bs, lo, hi, fl, but)
    requires cur in bs && cur in but
    ensures var c := Spine(lo, hi, fl);
            && hd[lo - 4].fnext == c[1] && c[1] in hd
            && Chain(LinkedAfter(hd, lo - 4, cur), Spine(lo, hi, [cur] + fl))
            && LinksOnly(hd, LinkedAfter(hd, lo - 4, cur), Elements(c) + {cur})
            && LinkedAfter(hd, lo - 4, cur)[cur].fnext != 0
  {
    var c := Spine(lo, hi, fl);
    SpineDistinct(fl, bs, lo, hi, but);
    assert cur !in c;
    hide Ranged, Lists;
    LinkChain(hd, c, cur);
    LinkFrame(hd, c, cur);
    assert [c[0], cur] + c[1..] == Spine(lo, hi, [cur] + fl);
  }

  lemma LinkStep(hd: Headers, bs: Tiles, lo: nat, hi: nat, fl: seq<nat>, cur: nat, but: set<nat>, hb: set<nat>,
                 tb: set<nat>)
    requires Shape(hd, bs, lo, hi, hb, tb) && Listed(hd, bs, lo, hi, fl, but)
    requires cur in bs && bs[cur].Free? && cur in but
    ensures lo - 4 in hd && cur in hd && hd[lo - 4].fnext in hd
    ensures Listed(LinkedAfter(hd, lo - 4, cur), bs, lo, hi, [cur] + fl, but - {cur})
    ensures Shape(LinkedAfter(hd, lo - 4, cur), bs, lo, hi, hb - {cur}, tb)
  {
    var c := Spine(lo, hi, fl);
    LinkList(hd, bs, lo, hi, fl, cur, but);
    var hd1 := LinkedAfter(hd, lo - 4, cur);
    SpineDistinct(fl, bs, lo, hi, but);
    DistinctCons(cur, fl);
    hide Spine, Elements, LinkedAfter, LinksOnly, Chain, Distinct, Tags, Ends;
    LinksKeepShape(hd, hd1, Elements(c) + {cur}, bs, lo, hi, hb, tb);
    assert HeadTag(hd1[cur], bs[cur]);
  }

  /** Writes that leave the links of the listed nodes alone keep the list. */
  lemma ListedFrame(hd: Headers, hd1: Headers, bs: Tiles, bs1: Tiles, lo: nat, hi: nat, fl: seq<nat>, but: set<nat>,
                    but1: set<nat>)
    requires Listed(hd, bs, lo, hi, fl, but)
    requires forall p | p in hd && (p in fl || p == lo - 4 || p == hi) ::
             p in hd1 && hd1[p].fnext == hd[p].fnext && hd1[p].fprev == hd[p].fprev
    requires Ranged(bs1, lo, hi) && Lists(fl, bs1, but1)
    ensures Listed(hd1, bs1, lo, hi, fl, but1)
  {
    var c := Spine(lo, hi, fl);
    forall k | 0 <= k < |c|
      ensures c[k] in hd && (c[k] in fl || c[k] == lo - 4 || c[k] == hi)
    {
      if 0 < k < |c| - 1 {
        assert c[k] == fl[k - 1];
      }
    }
  }

  lemma PokeFits(pay: Payloads, bs: Tiles, e: nat, i: nat, x: int)
    requires PayloadsFit(pay, bs) && e in pay && i < |pay[e]|
    ensures PayloadsFit(pay[e := pay[e][i := x]], bs)
  {
    forall o | o in bs
      ensures HasPayload(pay[e := pay[e][i := x]], o, bs[o])
    {
      assert HasPayload(pay, o, bs[o]);
    }
    forall f | f in pay[e := pay[e][i := x]]
      ensures InUsedBlock(bs, f)
    {
      assert InUsedBlock(bs, f);
    }
  }

  /** The headers and payloads of the segment are those of the heap `h`. */
  ghost predicate Represents(hd: Headers, pay: Payloads, h: Heap, lo: nat, hi: nat) {
    && 4 < lo <= hi && WellFormed(h, lo, hi)
    && Shape(hd, h.blocks, lo, hi, {}, {})
    && Listed(hd, h.blocks, lo, hi, h.fl, {})
    && PayloadsFit(pay, h.blocks)
  }

  lemma RepresentsParts(hd: Headers, pay: Payloads, h: Heap, lo: nat, hi: nat)
    requires Represents(hd, pay, h, lo, hi)
    ensures PayloadsFit(pay, h.blocks) && Tiled(h.blocks, lo, hi)
  {
    hide PayloadsFit, Tiled, Shape, Listed, Coalesced, Lists;
  }

  // ----- Tags after allocating -----

  ghost function WholeHeaders(hd: Headers, cur: nat, n: nat, realsize: nat): Headers
    requires cur in hd && n in hd
  {
    var hd1 := hd[n := hd[n].(prevSize := 0)];
    hd1[cur := hd1[cur].(fnext := 0, fprev := realsize)]
  }

  lemma WholeTags(hd: Headers, bs: Tiles, lo: nat, hi: nat, cur: nat, realsize: nat)
    requires Tiled(bs, lo, hi) && Tags(hd, bs, {}) && cur in bs && bs[cur].Free? && cur in hd
    ensures Step(bs, cur) in hd
    ensures Tags(WholeHeaders(hd, cur, Step(bs, cur), realsize), bs[cur := Used(bs[cur].size, realsize)], {})
  {
    var bs1 := bs[cur := Used(bs[cur].size, realsize)];
    assert Step(bs, cur) in hd;
    forall o | o in bs1
      ensures var hd1 := WholeHeaders(hd, cur, Step(bs, cur), realsize);
              Step(bs1, o) in hd1 && hd1[Step(bs1, o)].prevSize == FreeSize(bs1[o])
    {
      assert Step(bs, o) == Step(bs1, o);
      assert o != cur ==> Step(bs, o) != Step(bs, cur);
    }
  }

  lemma WholeShape(hd: Headers, bs: Tiles, lo: nat, hi: nat, cur: nat, realsize: nat)
    requires Tiled(bs, lo, hi) && Shape(hd, bs, lo, hi, {}, {}) && cur in bs && bs[cur].Free?
    ensures Step(bs, cur) in hd
    ensures Shape(WholeHeaders(hd, cur, Step(bs, cur), realsize), bs[cur := Used(bs[cur].size, realsize)], lo, hi, {},
                  {})
  {
    WholeTags(hd, bs, lo, hi, cur, realsize);
    WholeHeads(hd, bs, lo, hi, cur, realsize);
    hide Tags, Adjoining, Apart, Heads;
  }

  lemma WholeHeads(hd: Headers, bs: Tiles, lo: nat, hi: nat, cur: nat, realsize: nat)
    requires Heads(hd, bs, {}) && cur in bs && bs[cur].Free? && Step(bs, cur) in hd && bs[cur].size > 0
    requires Adjoining(bs, hi) && Apart(bs) && Ranged(bs, lo, hi)
    ensures Heads(WholeHeaders(hd, cur, Step(bs, cur), realsize), bs[cur := Used(bs[cur].size, realsize)], {})
  {
  }

  ghost function SplitHeaders(hd: Headers, cur: nat, realsize: nat, size: nat, h: Header): Headers
    requires cur in hd && cur + size in hd && realsize <= size
  {
    var hd1 := hd[cur := hd[cur].(size := realsize)];
    var hd2 := hd1[cur + realsize := h.(size := size - realsize, prevSize := 0)];
    hd2[cur + size := hd2[cur + size].(prevSize := size - realsize)]
  }

  lemma SplitTags(hd: Headers, bs: Tiles, lo: nat, hi: nat, cur: nat, realsize: nat, minBlock: nat, h: Header)
    requires Tiled(bs, lo, hi) && Shape(hd, bs, lo, hi, {}, {}) && CanAlloc(bs, cur, realsize, minBlock)
    requires Splits(bs[cur].size, realsize, minBlock) && Step(bs, cur) in hd
    ensures Tags(SplitHeaders(hd, cur, realsize, bs[cur].size, h), AllocAt(bs, cur, realsize, minBlock), {})
  {
    var hd1, bs1, n := SplitHeaders(hd, cur, realsize, bs[cur].size, h), AllocAt(bs, cur, realsize, minBlock),
        cur + realsize;
    forall o | o in bs1
      ensures Step(bs1, o) in hd1 && hd1[Step(bs1, o)].prevSize == FreeSize(bs1[o])
    {
      if o != cur && o != n {
        assert Step(bs, o) == Step(bs1, o);
        assert Step(bs, o) != Step(bs, cur) && Step(bs, o) != n;
      }
    }
  }

  lemma SplitHeads(hd: Headers, bs: Tiles, lo: nat, hi: nat, cur: nat, realsize: nat, minBlock: nat, h: Header)
    requires Tiled(bs, lo, hi) && Shape(hd, bs, lo, hi, {}, {}) && CanAlloc(bs, cur, realsize, minBlock)
    requires Splits(bs[cur].size, realsize, minBlock) && Step(bs, cur) in hd
    ensures Heads(SplitHeaders(hd, cur, realsize, bs[cur].size, h), AllocAt(bs, cur, realsize, minBlock),
                  {cur, cur + realsize})
  {
    hide Tags, Adjoining;
  }

  lemma SplitEnds(hd: Headers, bs: Tiles, lo: nat, hi: nat, cur: nat, realsize: nat, minBlock: nat, h: Header)
    requires Tiled(bs, lo, hi) && Shape(hd, bs, lo, hi, {}, {}) && CanAlloc(bs, cur, realsize, minBlock)
    requires Splits(bs[cur].size, realsize, minBlock) && Step(bs, cur) in hd
    ensures cur + realsize !in bs && cur + realsize !in hd
    ensures Ends(SplitHeaders(hd, cur, realsize, bs[cur].size, h), AllocAt(bs, cur, realsize, minBlock), lo, hi)
  {
    hide Tags, Adjoining, Heads;
    assert cur + realsize !in bs && lo <= cur && cur + realsize < hi;
    SplitKeys(hd, bs, lo, hi, cur, realsize, minBlock, h);
    hide Ranged, Apart;
  }

  lemma SplitKeys(hd: Headers, bs: Tiles, lo: nat, hi: nat, cur: nat, realsize: nat, minBlock: nat, h: Header)
    requires CanAlloc(bs, cur, realsize, minBlock) && Splits(bs[cur].size, realsize, minBlock)
    requires cur in hd && Step(bs, cur) in hd && hd.Keys == bs.Keys + {lo - 4, hi}
    ensures SplitHeaders(hd, cur, realsize, bs[cur].size, h).Keys == AllocAt(bs, cur, realsize,
        minBlock).Keys + {lo - 4, hi}
  {
  }

  lemma SplitShape(hd: Headers, bs: Tiles, lo: nat, hi: nat, cur: nat, realsize: nat, minBlock: nat, h: Header)
    requires Tiled(bs, lo, hi) && Shape(hd, bs, lo, hi, {}, {}) && CanAlloc(bs, cur, realsize, minBlock)
    requires Splits(bs[cur].size, realsize, minBlock)
    ensures Step(bs, cur) in hd && cur + realsize !in bs && cur + realsize !in hd
    ensures Shape(SplitHeaders(hd, cur, realsize, bs[cur].size, h), AllocAt(bs, cur, realsize, minBlock), lo, hi,
                  {cur, cur + realsize}, {})
  {
    assert Step(bs, cur) in hd;
    hide Tags, Heads, Ends, Tiled, SplitHeaders, AllocAt;
    SplitTags(hd, bs, lo, hi, cur, realsize, minBlock, h);
    SplitHeads(hd, bs, lo, hi, cur, realsize, minBlock, h);
    SplitEnds(hd, bs, lo, hi, cur, realsize, minBlock, h);
  }

  lemma SetAllocated(hd: Headers, bs: Tiles, lo: nat, hi: nat, cur: nat)
    requires Shape(hd, bs, lo, hi, {cur}, {}) && cur in bs && bs[cur].Used? && lo <= cur < hi
    ensures Shape(hd[cur := hd[cur].(fnext := 0, fprev := bs[cur].need)], bs, lo, hi, {}, {})
  {
  }

  // ----- Heap and segment after allocating -----

  /** The state after unlinking the block `cur` that is about to be allocated. */
  ghost predicate Unlinkable(hd: Headers, pay: Payloads, h: Heap, lo: nat, hi: nat, cur: nat, realsize: nat,
                             minBlock: nat) {
    && WellFormed(h, lo, hi) && PayloadsFit(pay, h.blocks) && CanAlloc(h.blocks, cur, realsize, minBlock)
    && Shape(hd, h.blocks, lo, hi, {}, {}) && Listed(hd, h.blocks, lo, hi, Without(h.fl, cur), {cur})
    && cur in h.fl && cur !in Without(h.fl, cur) && cur + h.blocks[cur].size <= hi
    && cur in hd && cur + h.blocks[cur].size in hd && hd[cur].size == h.blocks[cur].size
    && NoOverlapAt(hd, pay, cur + B, cur + h.blocks[cur].size)
  }

  lemma AllocFacts(hd: Headers, pay: Payloads, h: Heap, lo: nat, hi: nat, cur: nat, realsize: nat, minBlock: nat)
    returns (i: nat)
    requires Represents(hd, pay, h, lo, hi) && CanAlloc(h.blocks, cur, realsize, minBlock) && cur in h.fl
    ensures i < |h.fl| && Spine(lo, hi, h.fl)[i + 1] == cur
    ensures Chain(hd, Spine(lo, hi, h.fl)) && Distinct(Spine(lo, hi, h.fl))
    ensures cur in hd && hd[cur].fprev in hd && hd[cur].fnext in hd
    ensures Unlinkable(Unlinked(hd, cur), pay, h, lo, hi, cur, realsize, minBlock)
  {
    hide Tags, Coalesced, CoalescedBut, Without, Unlinked, NoOverlapAt, PayloadsFit, Apart, Chain;
    i :| 0 <= i < |h.fl| && h.fl[i] == cur;
    SpineDistinct(h.fl, h.blocks, lo, hi, {});
    UnlinkStep(hd, h.blocks, lo, hi, h.fl, cur, {}, {}, {});
    assert {} + {cur} == {cur};
    assert Step(h.blocks, cur) in h.blocks || Step(h.blocks, cur) == hi;
    FreeInside(Unlinked(hd, cur), pay, h.blocks, lo, hi, cur, cur + B, Step(h.blocks, cur));
    WithoutLists(h.fl, cur);
  }

  lemma AllocPayloads(pay: Payloads, bs: Tiles, lo: nat, hi: nat, cur: nat, realsize: nat, minBlock: nat, ws: seq<int>)
    requires Tiled(bs, lo, hi) && PayloadsFit(pay, bs) && CanAlloc(bs, cur, realsize, minBlock)
    requires |ws| == realsize - B
    ensures PayloadsFit(pay[cur + B := ws], AllocAt(bs, cur, realsize, minBlock))
  {
    var pay1, bs1 := pay[cur + B := ws], AllocAt(bs, cur, realsize, minBlock);
    hide Adjoining;
    forall o | o in bs1
      ensures HasPayload(pay1, o, bs1[o])
    {
      if o in bs {
        assert HasPayload(pay, o, bs[o]);
      }
    }
    forall e | e in pay1
      ensures InUsedBlock(bs1, e)
    {
      if e != cur + B {
        assert InUsedBlock(bs, e);
      }
    }
  }

  lemma AllocWhole(hd1: Headers, pay: Payloads, h: Heap, lo: nat, hi: nat, cur: nat, realsize: nat, minBlock: nat,
                   ws: seq<int>)
    requires WellFormed(h, lo, hi) && PayloadsFit(pay, h.blocks) && CanAlloc(h.blocks, cur, realsize, minBlock)
    requires !Splits(h.blocks[cur].size, realsize, minBlock) && |ws| == realsize - B
    requires Shape(hd1, h.blocks, lo, hi, {}, {}) && Listed(hd1, h.blocks, lo, hi, Without(h.fl, cur), {cur})
    requires Step(h.blocks, cur) in hd1 && cur !in Without(h.fl, cur)
    ensures Represents(WholeHeaders(hd1, cur, Step(h.blocks, cur), realsize), pay[cur + B := ws],
                       AllocHeap(h, cur, realsize, minBlock), lo, hi)
  {
    hide Chain, Lists, Coalesced, CoalescedBut, Tags, Heads, Adjoining, Apart, PayloadsFit, Total, UsedPart, Without;
    var h1 := AllocHeap(h, cur, realsize, minBlock);
    WholeShape(hd1, h.blocks, lo, hi, cur, realsize);
    AllocPayloads(pay, h.blocks, lo, hi, cur, realsize, minBlock, ws);
    AllocKeepsWellFormed(h, lo, hi, cur, realsize, minBlock);
    ListedFrame(hd1, WholeHeaders(hd1, cur, Step(h.blocks, cur), realsize), h.blocks, h1.blocks, lo, hi, h1.fl, {cur},
                {});
  }

  /** The free block `cur` is unlinked and large enough to be split. */
  ghost predicate ReadyToSplit(hd: Headers, h: Heap, lo: nat, hi: nat, cur: nat, realsize: nat, minBlock: nat) {
    && WellFormed(h, lo, hi) && CanAlloc(h.blocks, cur, realsize, minBlock)
    && Splits(h.blocks[cur].size, realsize, minBlock) && cur in h.fl
    && Shape(hd, h.blocks, lo, hi, {}, {}) && Listed(hd, h.blocks, lo, hi, Without(h.fl, cur), {cur})
    && cur in hd && cur + h.blocks[cur].size in hd && hd[cur].size == h.blocks[cur].size
  }

  /** The remainder is a block of its own, but not yet linked. */
  ghost predicate HasRemainder(hd: Headers, h: Heap, lo: nat, hi: nat, cur: nat, realsize: nat, minBlock: nat) {
    && CanAlloc(h.blocks, cur, realsize, minBlock) && Splits(h.blocks[cur].size, realsize, minBlock)
    && Shape(hd, AllocAt(h.blocks, cur, realsize, minBlock), lo, hi, {cur, cur + realsize}, {})
    && Listed(hd, AllocAt(h.blocks, cur, realsize, minBlock), lo, hi, Without(h.fl, cur), {cur + realsize})
    && lo - 4 in hd && hd[lo - 4].fnext in hd && cur in hd && cur + realsize in hd
  }

  /** `hd1` is `hd2` with the remainder linked at the start of the free list. */
  ghost predicate RemainderLinked(hd1: Headers, hd2: Headers, lo: nat, nxt: nat) {
    && 4 <= lo && lo - 4 in hd2 && nxt in hd2 && hd2[lo - 4].fnext in hd2
    && hd1 == LinkedAfter(hd2, lo - 4, nxt)
  }

  lemma RemainderLinkable(hd: Headers, h: Heap, lo: nat, hi: nat, cur: nat, realsize: nat, minBlock: nat)
    requires HasRemainder(hd, h, lo, hi, cur, realsize, minBlock)
    ensures 4 <= lo
    ensures var c := Spine(lo, hi, Without(h.fl, cur)); Chain(hd, c) && Distinct(c) && cur + realsize !in c
  {
    hide Heads, Tags, Without, Chain;
    SpineDistinct(Without(h.fl, cur), AllocAt(h.blocks, cur, realsize, minBlock), lo, hi, {cur + realsize});
  }

  lemma SplitListed(hd1: Headers, h: Heap, lo: nat, hi: nat, cur: nat, realsize: nat, minBlock: nat, garbage: Header)
    requires ReadyToSplit(hd1, h, lo, hi, cur, realsize, minBlock)
    requires cur + realsize !in hd1 && Tiled(AllocAt(h.blocks, cur, realsize, minBlock), lo, hi)
    ensures Listed(SplitHeaders(hd1, cur, realsize, h.blocks[cur].size, garbage),
                   AllocAt(h.blocks, cur, realsize, minBlock), lo, hi,
                   Without(h.fl, cur), {cur + realsize})
  {
    hide Coalesced, CoalescedBut, Shape, Adjoining, Apart, Without, Chain, AllocAt;
    var hd2 := SplitHeaders(hd1, cur, realsize, h.blocks[cur].size, garbage);
    SplitLists(h, lo, hi, cur, realsize, minBlock);
    ListedFrame(hd1, hd2, h.blocks, AllocAt(h.blocks, cur, realsize, minBlock), lo, hi, Without(h.fl, cur), {cur},
                {cur + realsize});
  }

  lemma AllocSplitStage(hd1: Headers, h: Heap, lo: nat, hi: nat, cur: nat, realsize: nat, minBlock: nat,
                        garbage: Header)
    requires ReadyToSplit(hd1, h, lo, hi, cur, realsize, minBlock)
    ensures HasRemainder(SplitHeaders(hd1, cur, realsize, h.blocks[cur].size, garbage), h, lo, hi, cur, realsize,
                         minBlock)
  {
    hide Tiled, Coalesced, CoalescedBut, Shape, Without, Lists, Chain, Spine, AllocAt;
    SplitShape(hd1, h.blocks, lo, hi, cur, realsize, minBlock, garbage);
    AllocKeepsTiling(h.blocks, lo, hi, cur, realsize, minBlock);
    SplitListed(hd1, h, lo, hi, cur, realsize, minBlock, garbage);
    FirstLinked(SplitHeaders(hd1, cur, realsize, h.blocks[cur].size, garbage), lo, hi, Without(h.fl, cur));
  }

  lemma LinkedKeeps(hd: Headers, dst: nat, cur: nat, p: nat)
    requires dst in hd && cur in hd && hd[dst].fnext in hd && p in hd
    ensures var hd1 := LinkedAfter(hd, dst, cur); p in hd1 && hd1[p].size == hd[p].size
  {
  }

  lemma FirstLinked(hd: Headers, lo: nat, hi: nat, fl: seq<nat>)
    requires 4 <= lo && Chain(hd, Spine(lo, hi, fl))
    ensures lo - 4 in hd && hd[lo - 4].fnext in hd
  {
    var c := Spine(lo, hi, fl);
    assert hd[c[0]].fnext == c[1];
  }

  lemma SplitLists(h: Heap, lo: nat, hi: nat, cur: nat, realsize: nat, minBlock: nat)
    requires WellFormed(h, lo, hi) && CanAlloc(h.blocks, cur, realsize, minBlock)
    requires Splits(h.blocks[cur].size, realsize, minBlock) && cur in h.fl
    ensures Lists(Without(h.fl, cur), AllocAt(h.blocks, cur, realsize, minBlock), {cur + realsize})
    ensures cur + realsize !in Without(h.fl, cur)
  {
    hide Adjoining, Coalesced, CoalescedBut;
    WithoutLists(h.fl, cur);
    assert cur + realsize !in h.blocks;
  }

  lemma AllocSplit(hd2: Headers, pay: Payloads, h: Heap, lo: nat, hi: nat, cur: nat, realsize: nat, minBlock: nat,
                   ws: seq<int>)
    requires HasRemainder(hd2, h, lo, hi, cur, realsize, minBlock)
    requires WellFormed(h, lo, hi) && PayloadsFit(pay, h.blocks) && |ws| == realsize - B && cur !in Without(h.fl, cur)
    ensures var hd3 := LinkedAfter(hd2, lo - 4, cur + realsize);
            var hd4 := hd3[cur := hd3[cur].(fnext := 0, fprev := realsize)];
            Represents(hd4, pay[cur + B := ws], AllocHeap(h, cur, realsize, minBlock), lo, hi)
  {
    hide Chain, Lists, Coalesced, CoalescedBut, Tags, Heads, Adjoining, Apart, PayloadsFit, Total, UsedPart, Without,
         LinkedAfter;
    var h1, nxt := AllocHeap(h, cur, realsize, minBlock), cur + realsize;
    AllocPayloads(pay, h.blocks, lo, hi, cur, realsize, minBlock, ws);
    AllocKeepsWellFormed(h, lo, hi, cur, realsize, minBlock);
    LinkStep(hd2, h1.blocks, lo, hi, Without(h.fl, cur), nxt, {nxt}, {cur, nxt}, {});
    assert {nxt} - {nxt} == {} && {cur, nxt} - {nxt} == {cur};
    var hd3 := LinkedAfter(hd2, lo - 4, nxt);
    SetAllocated(hd3, h1.blocks, lo, hi, cur);
    ListedFrame(hd3, hd3[cur := hd3[cur].(fnext := 0, fprev := realsize)], h1.blocks, h1.blocks, lo, hi, h1.fl, {}, {});
  }

  /** The allocated words belong to no header and no other payload. */
  lemma AllocRoom(hd: Headers, pay: Payloads, pay1: Payloads, h: Heap, lo: nat, hi: nat, cur: nat, realsize: nat,
                  minBlock: nat)
    requires WellFormed(h, lo, hi) && PayloadsFit(pay, h.blocks) && CanAlloc(h.blocks, cur, realsize, minBlock)
    requires Represents(hd, pay1, AllocHeap(h, cur, realsize, minBlock), lo, hi)
    ensures NoOverlapAt(hd, pay, cur + B, cur + realsize) && cur + realsize <= hi
  {
    hide Lists, CoalescedBut, Chain, Heads, Tags, PayloadsFit;
    FreeInsideHeaders(hd, AllocAt(h.blocks, cur, realsize, minBlock), lo, hi, cur, cur + B, cur + realsize);
    FreeInsidePayloads(pay, h.blocks, lo, hi, cur, cur + B, cur + realsize);
  }

  // ----- Heap and segment while freeing -----

  /** Headers after the block at `n` joined the one at `l`. */
  ghost function JoinHeaders(hd: Headers, l: nat, n: nat): Headers
    requires l in hd && n in hd
  {
    hd[l := hd[l].(size := hd[l].size + hd[n].size)] - {n}
  }

  lemma JoinTags(hd: Headers, bs: Tiles, lo: nat, hi: nat, l: nat, x: set<nat>)
    requires Tiled(bs, lo, hi) && l in bs && bs[l].Free? && Step(bs, l) in bs && l in hd && Step(bs, l) in hd
    requires Tags(hd, bs, {l, Step(bs, l)} + x)
    ensures Tags(JoinHeaders(hd, l, Step(bs, l)), Join(bs, l), {l} + x)
  {
    var n, bs1 := Step(bs, l), Join(bs, l);
    forall p | p in bs1 && p !in {l} + x
      ensures var hd1 := JoinHeaders(hd, l, n);
              Step(bs1, p) in hd1 && hd1[Step(bs1, p)].prevSize == FreeSize(bs1[p])
    {
      assert Step(bs, p) == Step(bs1, p);
      assert Step(bs, p) != n;
    }
  }

  lemma JoinHeads(hd: Headers, bs: Tiles, l: nat)
    requires l in bs && bs[l].Free? && Step(bs, l) in bs && bs[l].size > 0 && l in hd && Step(bs, l) in hd
    requires Heads(hd, bs, {l, Step(bs, l)})
    ensures Heads(JoinHeaders(hd, l, Step(bs, l)), Join(bs, l), {l})
  {
  }

  lemma JoinShape(hd: Headers, bs: Tiles, lo: nat, hi: nat, l: nat, x: set<nat>)
    requires Tiled(bs, lo, hi) && l in bs && bs[l].Free? && Step(bs, l) in bs
    requires Shape(hd, bs, lo, hi, {l, Step(bs, l)}, {l, Step(bs, l)} + x)
    ensures l in hd && Step(bs, l) in hd
    ensures Shape(JoinHeaders(hd, l, Step(bs, l)), Join(bs, l), lo, hi, {l}, {l} + x)
  {
    hide Tags, Heads, Adjoining, Apart;
    var n := Step(bs, l);
    JoinTags(hd, bs, lo, hi, l, x);
    JoinHeads(hd, bs, l);
    assert lo <= l < n < hi;
  }

  lemma ShapeWeaken(hd: Headers, bs: Tiles, lo: nat, hi: nat, hb: set<nat>, tb: set<nat>, hb1: set<nat>, tb1: set<nat>)
    requires Shape(hd, bs, lo, hi, hb, tb) && hb <= hb1 && tb <= tb1
    ensures Shape(hd, bs, lo, hi, hb1, tb1)
  {
  }

  lemma JoinListed(hd: Headers, bs: Tiles, lo: nat, hi: nat, fl: seq<nat>, l: nat)
    requires Tiled(bs, lo, hi) && l in bs && bs[l].Free? && Step(bs, l) in bs && bs[Step(bs, l)].Free?
    requires Listed(hd, bs, lo, hi, fl, {l, Step(bs, l)}) && l in hd && Step(bs, l) in hd
    ensures Listed(JoinHeaders(hd, l, Step(bs, l)), Join(bs, l), lo, hi, fl, {l})
  {
    hide Chain, Adjoining;
    JoinTiled(bs, lo, hi, l);
    assert Lists(fl, Join(bs, l), {l});
    ListedFrame(hd, JoinHeaders(hd, l, Step(bs, l)), bs, Join(bs, l), lo, hi, fl, {l, Step(bs, l)}, {l});
  }

  /** Unlinks the listed one of two free neighbours and joins them. */
  lemma UnlinkAndJoin(hd: Headers, bs: Tiles, lo: nat, hi: nat, fl: seq<nat>, l: nat, listed: nat, other: nat)
    requires Tiled(bs, lo, hi) && l in bs && bs[l].Free? && Step(bs, l) in bs && bs[Step(bs, l)].Free?
    requires {listed, other} == {l, Step(bs, l)} && listed in fl
    requires Shape(hd, bs, lo, hi, {other}, {other}) && Listed(hd, bs, lo, hi, fl, {other})
    ensures listed in hd && hd[listed].fprev in hd && hd[listed].fnext in hd
    ensures var hd1, n := Unlinked(hd, listed), Step(bs, l);
            && l in hd1 && n in hd1 && hd1[l].size == bs[l].size && hd1[n].size == bs[n].size
            && Shape(JoinHeaders(hd1, l, n), Join(bs, l), lo, hi, {l}, {l})
            && Listed(JoinHeaders(hd1, l, n), Join(bs, l), lo, hi, Without(fl, listed), {l})
  {
    hide Chain, Adjoining, Apart, Tags, Lists, Without, Unlinked, JoinHeaders;
    UnlinkStep(hd, bs, lo, hi, fl, listed, {other}, {other}, {other});
    var hd1 := Unlinked(hd, listed);
    assert {other} + {listed} == {l, Step(bs, l)};
    ShapeWeaken(hd1, bs, lo, hi, {other}, {other}, {l, Step(bs, l)}, {l, Step(bs, l)});
    assert {l, Step(bs, l)} + {} == {l, Step(bs, l)} && {l} + {} == {l};
    JoinShape(hd1, bs, lo, hi, l, {});
    JoinListed(hd1, bs, lo, hi, Without(fl, listed), l);
  }

  /** The block `o` is free and joined with a free left neighbour, but not yet linked. */
  ghost predicate FreedLeft(hd: Headers, h: Heap, lo: nat, hi: nat, o: nat) {
    && WellFormed(h, lo, hi) && o in h.blocks && h.blocks[o].Used?
    && Shape(hd, JoinedLeft(h.blocks, o), lo, hi, {LeftEdge(h.blocks, o)}, {LeftEdge(h.blocks, o)})
    && Listed(hd, JoinedLeft(h.blocks, o), lo, hi, ListLeft(h, o), {LeftEdge(h.blocks, o)})
  }

  /** The block `o` is free and joined with both free neighbours, but not yet linked. */
  ghost predicate FreedBoth(hd: Headers, h: Heap, lo: nat, hi: nat, o: nat) {
    && WellFormed(h, lo, hi) && o in h.blocks && h.blocks[o].Used?
    && Shape(hd, ReleaseAt(h.blocks, o), lo, hi, {LeftEdge(h.blocks, o)}, {LeftEdge(h.blocks, o)})
    && Listed(hd, ReleaseAt(h.blocks, o), lo, hi, ListAround(h, o), {LeftEdge(h.blocks, o)})
  }

  lemma RetaggedShape(hd: Headers, bs: Tiles, lo: nat, hi: nat, o: nat)
    requires o in bs && Shape(hd, bs, lo, hi, {}, {})
    ensures Shape(hd, bs[o := Free(bs[o].size)], lo, hi, {o}, {o})
  {
    var freed := bs[o := Free(bs[o].size)];
    assert forall p | p in freed :: Step(freed, p) == Step(bs, p);
  }

  lemma RetaggedLists(fl: seq<nat>, bs: Tiles, o: nat)
    requires o in bs && bs[o].Used? && Lists(fl, bs, {})
    ensures Lists(fl, bs[o := Free(bs[o].size)], {o})
  {
  }

  lemma Retagged(hd: Headers, h: Heap, lo: nat, hi: nat, o: nat)
    requires WellFormed(h, lo, hi) && o in h.blocks && h.blocks[o].Used?
    requires Shape(hd, h.blocks, lo, hi, {}, {}) && Listed(hd, h.blocks, lo, hi, h.fl, {})
    ensures var freed := h.blocks[o := Free(h.blocks[o].size)];
            && Tiled(freed, lo, hi)
            && Shape(hd, freed, lo, hi, {o}, {o}) && Listed(hd, freed, lo, hi, h.fl, {o})
  {
    hide Coalesced, CoalescedBut, Shape, Lists, Adjoining, Apart, Chain;
    var bs, freed := h.blocks, h.blocks[o := Free(h.blocks[o].size)];
    RetagTiled(bs, lo, hi, o, Free(bs[o].size));
    RetaggedShape(hd, bs, lo, hi, o);
    RetaggedLists(h.fl, bs, o);
  }

  /** `prev_size` of an allocated block leads to the free block on its left, if there is one. */
  lemma LeftTag(hd: Headers, h: Heap, lo: nat, hi: nat, o: nat)
    requires WellFormed(h, lo, hi) && Shape(hd, h.blocks, lo, hi, {}, {}) && o in h.blocks && h.blocks[o].Used?
    ensures o in hd
    ensures var l := LeftEdge(h.blocks, o);
            if hd[o].prevSize == 0 then l == o else l == o - hd[o].prevSize && l < o && FreeLeftOf(h.blocks, l, o)
  {
    hide Heads, CoalescedBut;
    var l := LeftEdge(h.blocks, o);
    if o == lo {
      assert forall p: nat :: !FreeLeftOf(h.blocks, p, o);
    } else {
      var p := Predecessor(h.blocks, lo, hi, o);
      if h.blocks[p].Free? {
        assert FreeLeftOf(h.blocks, p, o);
      } else {
        assert forall q | q in h.blocks && Step(h.blocks, q) == o :: q == p;
      }
    }
  }

  lemma StartFree(hd: Headers, h: Heap, lo: nat, hi: nat, o: nat)
    requires WellFormed(h, lo, hi) && o in h.blocks && h.blocks[o].Used?
    requires Shape(hd, h.blocks, lo, hi, {}, {}) && Listed(hd, h.blocks, lo, hi, h.fl, {})
    ensures var l := LeftEdge(h.blocks, o);
            if l == o then FreedLeft(hd, h, lo, hi, o)
            else
              && l in h.fl && l in hd && hd[l].fprev in hd && hd[l].fnext in hd
              && l in Unlinked(hd, l) && o in Unlinked(hd, l)
              && Unlinked(hd, l)[l].size == h.blocks[l].size && Unlinked(hd, l)[o].size == h.blocks[o].size
              && FreedLeft(JoinHeaders(Unlinked(hd, l), l, o), h, lo, hi, o)
  {
    hide Tiled, Shape, Listed, CoalescedBut, Lists, Unlinked, JoinHeaders, Without;
    var bs, l := h.blocks, LeftEdge(h.blocks, o);
    var freed := bs[o := Free(bs[o].size)];
    Retagged(hd, h, lo, hi, o);
    if l != o {
      assert FreeLeftOf(bs, l, o) && Step(freed, l) == o && {l, o} == {l, Step(freed, l)};
      ListsHas(h.fl, bs, l);
      UnlinkAndJoin(hd, freed, lo, hi, h.fl, l, l, o);
    }
  }

  lemma ListsHas(fl: seq<nat>, bs: Tiles, o: nat)
    requires Lists(fl, bs, {}) && o in bs && bs[o].Free?
    ensures o in fl
  {
  }

  lemma StillListed(h: Heap, lo: nat, hi: nat, o: nat, n: nat)
    requires WellFormed(h, lo, hi) && o in h.blocks && n in h.blocks && h.blocks[n].Free? && Step(h.blocks, o) == n
    ensures n in ListLeft(h, o)
  {
    hide Adjoining, CoalescedBut;
    var l := LeftEdge(h.blocks, o);
    assert l == o || FreeLeftOf(h.blocks, l, o);
    if l != o {
      WithoutLists(h.fl, l);
    }
  }

  lemma JoinRightFree(hd: Headers, h: Heap, lo: nat, hi: nat, o: nat)
    requires FreedLeft(hd, h, lo, hi, o)
    ensures o in h.blocks
    ensures var l, n := LeftEdge(h.blocks, o), Step(h.blocks, o);
            && l < n && l in hd && n in hd && hd[l].size == n - l
            && if hd[n].fnext == 0 then FreedBoth(hd, h, lo, hi, o)
               else
                 && n in ListLeft(h, o) && hd[n].fprev in hd && hd[n].fnext in hd
                 && l in Unlinked(hd, n) && n in Unlinked(hd, n)
                 && Unlinked(hd, n)[l].size == hd[l].size && Unlinked(hd, n)[n].size == hd[n].size
                 && FreedBoth(JoinHeaders(Unlinked(hd, n), l, n), h, lo, hi, o)
  {
    hide Tiled, Coalesced, CoalescedBut, Lists, Unlinked, JoinHeaders, Without, JoinedLeft, Total, Tags, Chain;
    var bs, l, n, left := h.blocks, LeftEdge(h.blocks, o), Step(h.blocks, o), JoinedLeft(h.blocks, o);
    JoinedLeftTiled(bs, lo, hi, o);
    RightTag(hd, h, lo, hi, o);
    if n in left && left[n].Free? {
      StillListed(h, lo, hi, o, n);
      assert {l, n} == {n, l};
      UnlinkAndJoin(hd, left, lo, hi, ListLeft(h, o), l, n, l);
    }
  }

  lemma RightTag(hd: Headers, h: Heap, lo: nat, hi: nat, o: nat)
    requires FreedLeft(hd, h, lo, hi, o)
    ensures var l, n, left := LeftEdge(h.blocks, o), Step(h.blocks, o), JoinedLeft(h.blocks, o);
            && l < n && l in left && left[l].Free? && Step(left, l) == n
            && l in hd && n in hd && hd[l].size == n - l
            && (hd[n].fnext != 0 <==> n in left && left[n].Free?)
            && (n in left && left[n].Free? <==> n in h.blocks && h.blocks[n].Free?)
  {
    hide CoalescedBut, Total, Tags, Lists, Spine;
    var l, n, left := LeftEdge(h.blocks, o), Step(h.blocks, o), JoinedLeft(h.blocks, o);
    JoinedLeftTiled(h.blocks, lo, hi, o);
    assert Step(left, l) == hi || Step(left, l) in left;
    LastLink(hd, lo, hi, ListLeft(h, o));
    assert FreeLeftOf(h.blocks, l, o) || l == o;
  }

  lemma LastLink(hd: Headers, lo: nat, hi: nat, fl: seq<nat>)
    requires 4 <= lo && Chain(hd, Spine(lo, hi, fl))
    ensures hi in hd && hd[hi].fnext == 0
  {
    var c := Spine(lo, hi, fl);
    assert c[|c| - 1] == hi;
  }

  lemma ListedAt(hd: Headers, bs: Tiles, lo: nat, hi: nat, fl: seq<nat>, but: set<nat>, p: nat) returns (i: nat)
    requires Listed(hd, bs, lo, hi, fl, but) && p in fl
    ensures 0 < i < |fl| + 1 && Spine(lo, hi, fl)[i] == p
    ensures Chain(hd, Spine(lo, hi, fl)) && Distinct(Spine(lo, hi, fl))
  {
    hide Chain;
    SpineDistinct(fl, bs, lo, hi, but);
    var k :| 0 <= k < |fl| && fl[k] == p;
    i := k + 1;
  }

  lemma FreedLeftListed(hd: Headers, h: Heap, lo: nat, hi: nat, o: nat, p: nat) returns (i: nat)
    requires FreedLeft(hd, h, lo, hi, o) && o in h.blocks && p in ListLeft(h, o)
    ensures o in h.blocks && 4 <= lo && 0 < i < |ListLeft(h, o)| + 1 && Spine(lo, hi, ListLeft(h, o))[i] == p
    ensures Chain(hd, Spine(lo, hi, ListLeft(h, o))) && Distinct(Spine(lo, hi, ListLeft(h, o)))
  {
    hide Chain, Shape, WellFormed, Lists, ListLeft, LeftEdge, JoinedLeft;
    i := ListedAt(hd, JoinedLeft(h.blocks, o), lo, hi, ListLeft(h, o), {LeftEdge(h.blocks, o)}, p);
  }

  /** A free block has no payload. */
  lemma FreeHasNoPayload(pay: Payloads, bs: Tiles, o: nat)
    requires PayloadsFit(pay, bs) && o in bs && bs[o].Free?
    ensures o + B !in pay
  {
    assert o + B in pay ==> InUsedBlock(bs, o + B);
  }

  lemma UsedFacts(hd: Headers, pay: Payloads, h: Heap, lo: nat, hi: nat, offset: nat)
    requires Represents(hd, pay, h, lo, hi) && offset in pay
    ensures B <= offset && offset - B in h.blocks && h.blocks[offset - B].Used?
    ensures offset - B in hd && hd[offset - B].size == h.blocks[offset - B].size
  {
    hide Chain, Tags, Tiled, CoalescedBut, Lists;
    assert InUsedBlock(h.blocks, offset);
  }

  lemma FreedBothFacts(hd: Headers, h: Heap, lo: nat, hi: nat, o: nat)
    requires FreedBoth(hd, h, lo, hi, o)
    ensures var l, bs := LeftEdge(h.blocks, o), ReleaseAt(h.blocks, o);
            && 4 <= lo && l in bs && bs[l].Free? && l in hd && hd[l].size == bs[l].size && Step(bs, l) in hd
            && Tiled(bs, lo, hi) && Coalesced(bs)
            && Chain(hd, Spine(lo, hi, ListAround(h, o))) && Distinct(Spine(lo, hi, ListAround(h, o)))
            && l !in Spine(lo, hi, ListAround(h, o))
  {
    hide CoalescedBut, Total, Tags, Spine, Chain, ListAround, Lists;
    var l, bs := LeftEdge(h.blocks, o), ReleaseAt(h.blocks, o);
    ReleaseKeepsTiling(h.blocks, lo, hi, o);
    ReleaseBlocks(h.blocks, lo, hi, o);
    assert Step(bs, l) == hi || Step(bs, l) in bs;
    SpineDistinct(ListAround(h, o), bs, lo, hi, {l});
    NotInSpine(ListAround(h, o), bs, lo, hi, l);
  }

  lemma NotInSpine(fl: seq<nat>, bs: Tiles, lo: nat, hi: nat, l: nat)
    requires Lists(fl, bs, {l}) && Ranged(bs, lo, hi) && l in bs && 4 <= lo
    ensures l !in Spine(lo, hi, fl)
  {
  }

  lemma SetTag(hd: Headers, bs: Tiles, lo: nat, hi: nat, l: nat)
    requires Tiled(bs, lo, hi) && l in bs && Step(bs, l) in hd && Shape(hd, bs, lo, hi, {l}, {l})
    ensures var n := Step(bs, l); Shape(hd[n := hd[n].(prevSize := FreeSize(bs[l]))], bs, lo, hi, {l}, {})
  {
    var n := Step(bs, l);
    var hd1 := hd[n := hd[n].(prevSize := FreeSize(bs[l]))];
    assert Tags(hd1, bs, {}) by {
      forall p | p in bs
        ensures Step(bs, p) in hd1 && hd1[Step(bs, p)].prevSize == FreeSize(bs[p])
      {
        assert p != l ==> Step(bs, p) != n;
      }
    }
    hide Tags, Adjoining;
  }

  lemma ReleasePayloads(pay: Payloads, bs: Tiles, bs1: Tiles, o: nat)
    requires PayloadsFit(pay, bs) && o in bs && bs[o].Used? && UsedPart(bs1) == UsedPart(bs) - {o}
    ensures PayloadsFit(pay - {o + B}, bs1)
  {
    var pay1 := pay - {o + B};
    forall p | p in bs1
      ensures HasPayload(pay1, p, bs1[p])
    {
      if bs1[p].Used? {
        assert p in UsedPart(bs1) && UsedPart(bs1)[p] == bs1[p];
        assert HasPayload(pay, p, bs[p]);
      }
    }
    forall e | e in pay1
      ensures InUsedBlock(bs1, e)
    {
      assert InUsedBlock(bs, e);
      assert e - B in UsedPart(bs1);
    }
  }

  lemma TagAndLink(hd2: Headers, pay: Payloads, h: Heap, lo: nat, hi: nat, o: nat)
    requires FreedBoth(hd2, h, lo, hi, o) && PayloadsFit(pay, h.blocks)
    ensures var l, bs := LeftEdge(h.blocks, o), ReleaseAt(h.blocks, o);
            && l in bs && Step(bs, l) in hd2 && 4 <= lo
            && var hd3 := hd2[Step(bs, l) := hd2[Step(bs, l)].(prevSize := bs[l].size)];
            && Chain(hd3, Spine(lo, hi, ListAround(h, o)))
            && lo - 4 in hd3 && l in hd3 && hd3[lo - 4].fnext in hd3
            && Represents(LinkedAfter(hd3, lo - 4, l), pay - {o + B}, FreeHeap(h, o), lo, hi)
  {
    hide CoalescedBut, Total, Tags, Heads, Adjoining, Apart, Spine, Chain, ListAround, Lists, PayloadsFit, LinkedAfter,
         UsedPart, ReleaseAt, LeftEdge;
    var l, bs, fl := LeftEdge(h.blocks, o), ReleaseAt(h.blocks, o), ListAround(h, o);
    FreedBothFacts(hd2, h, lo, hi, o);
    SetTag(hd2, bs, lo, hi, l);
    var hd3 := hd2[Step(bs, l) := hd2[Step(bs, l)].(prevSize := bs[l].size)];
    ListedFrame(hd2, hd3, bs, bs, lo, hi, fl, {l}, {l});
    LinkStep(hd3, bs, lo, hi, fl, l, {l}, {l}, {});
    assert {l} - {l} == {};
    FreeKeepsWellFormed(h, lo, hi, o);
    ReleasePayloads(pay, h.blocks, bs, o);
  }

  // ----- Looking at the image -----

  lemma InitialRepresents(hd: Headers, lo: nat, hi: nat)
    requires 4 < lo && lo + B <= hi
    requires hd.Keys == {lo - 4, lo, hi}
    requires hd[lo - 4] == Header(0, 0, lo, 0)
    requires hd[lo] == Header(hi - lo, 0, hi, lo - 4)
    requires hd[hi] == Header(0, hi - lo, 0, lo)
    ensures Represents(hd, map[], Fresh(lo, hi), lo, hi)
    ensures Avail(Fresh(lo, hi)) == hi - lo
  {
    FreshWellFormed(lo, hi);
    var h := Fresh(lo, hi);
    assert forall o | o in h.blocks :: Step(h.blocks, o) == hi;
    assert h.fl[0] in h.fl;
    assert Spine(lo, hi, h.fl) == [lo - 4, lo, hi];
  }

  /** Following the links visits the free list in order. */
  lemma NodeFacts(hd: Headers, h: Heap, lo: nat, hi: nat, k: nat)
    requires WellFormed(h, lo, hi) && Shape(hd, h.blocks, lo, hi, {}, {}) && Listed(hd, h.blocks, lo, hi, h.fl, {})
    requires k < |h.fl| + 2
    ensures var c := Spine(lo, hi, h.fl);
            && |c| == |h.fl| + 2 && c[0] == lo - 4 && c[k] in hd
            && (hd[c[k]].fnext != 0 <==> k < |c| - 1)
            && (k < |c| - 1 ==> hd[c[k]].fnext == c[k + 1] && c[k + 1] in hd)
            && (1 <= k <= |h.fl| ==> c[k] == h.fl[k - 1] && hd[c[k]].size == SizeAt(h, k - 1))
            && (k == |c| - 1 ==> hd[c[k]].size == 0)
  {
    var c := Spine(lo, hi, h.fl);
    assert c[k] in hd;
    hide Tiled, CoalescedBut, Tags;
    if k < |c| - 1 {
      assert hd[c[k]].fnext == c[k + 1];
      assert c[k + 1] in hd;
      if k > 0 {
        assert h.fl[k - 1] in h.fl;
      }
    }
  }

  /** The search stands at `node`, `t` links behind the first fit `i`; `best` is entry `j`. */
  ghost predicate Looking(hd: Headers, h: Heap, lo: nat, hi: nat, realsize: nat, i: nat, j: nat, t: nat, node: nat,
                          best: nat) {
    && 4 < lo && i + t < |h.fl| + 1 && node == Spine(lo, hi, h.fl)[i + 1 + t] && node in hd
    && BestUpTo(h, realsize, i, j, i + t) && best == h.fl[j] && best in hd && hd[best].size == SizeAt(h, j)
    && (hd[node].fnext != 0 <==> i + t < |h.fl|)
  }

  lemma LookFirst(hd: Headers, h: Heap, lo: nat, hi: nat, realsize: nat, i: nat)
    requires WellFormed(h, lo, hi) && Shape(hd, h.blocks, lo, hi, {}, {}) && Listed(hd, h.blocks, lo, hi, h.fl, {})
    requires i < |h.fl| && SizeAt(h, i) >= realsize && forall l: nat | l < i :: SizeAt(h, l) < realsize
    ensures Looking(hd, h, lo, hi, realsize, i, i, 0, h.fl[i], h.fl[i])
  {
    NodeFacts(hd, h, lo, hi, i + 1);
    BestStart(h, realsize, i);
    hide WellFormed, Shape, Spine, SizeAt, BestUpTo;
  }

  lemma LookingAt(hd: Headers, h: Heap, lo: nat, hi: nat, realsize: nat, i: nat, j: nat, t: nat, node: nat, best: nat)
    requires Looking(hd, h, lo, hi, realsize, i, j, t, node, best)
    ensures node in hd && best in hd
    ensures t == BEST_FIT_LIMIT || (t < BEST_FIT_LIMIT && hd[node].fnext == 0) ==> Chosen(h, realsize) == Some(best)
  {
    hide BestUpTo, Spine, SizeAt, Chosen;
    if t == BEST_FIT_LIMIT || (t < BEST_FIT_LIMIT && hd[node].fnext == 0) {
      BestEnd(h, realsize, i, j, i + t);
    }
  }

  lemma LookNext(hd: Headers, h: Heap, lo: nat, hi: nat, realsize: nat, i: nat, j: nat, t: nat, node: nat, best: nat)
    requires WellFormed(h, lo, hi) && Shape(hd, h.blocks, lo, hi, {}, {}) && Listed(hd, h.blocks, lo, hi, h.fl, {})
    requires realsize > 0 && Looking(hd, h, lo, hi, realsize, i, j, t, node, best) && hd[node].fnext != 0
    ensures hd[node].fnext in hd && best in hd
    ensures var next: nat := hd[node].fnext;
            if hd[next].size >= realsize && hd[next].size < hd[best].size
            then Looking(hd, h, lo, hi, realsize, i, i + t + 1, t + 1, next, next)
            else Looking(hd, h, lo, hi, realsize, i, j, t + 1, next, best)
  {
    hide WellFormed, Shape, Listed, Spine, SizeAt, BestUpTo;
    NodeFacts(hd, h, lo, hi, i + 1 + t);
    NodeFacts(hd, h, lo, hi, i + 2 + t);
    if i + t + 1 < |h.fl| {
      BestStep(h, realsize, i, j, i + t);
    } else {
      BestBeyond(h, realsize, i, j, i + t);
    }
  }

  lemma NotAvailable(h: Heap, lo: nat, hi: nat, realsize: nat)
    requires WellFormed(h, lo, hi) && Avail(h) < realsize
    ensures Chosen(h, realsize).None?
  {
    ChosenComplete(h, lo, hi, realsize);
    if SomeFits(h.blocks, realsize) {
      var o :| o in h.blocks && h.blocks[o].Free? && h.blocks[o].size >= realsize;
      SizeAtMostTotal(h.blocks, o);
    }
  }

  lemma NoneFits(h: Heap, realsize: nat)
    requires forall k: nat | k < |h.fl| :: SizeAt(h, k) < realsize
    ensures Chosen(h, realsize).None?
  {
  }
}
