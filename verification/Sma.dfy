/** The shared memory allocator: boundary tags and free list in a flat segment. */
module Sma {
  import opened Blocks
  import opened Segment
  import opened FreeList
  import opened HeapModel
  import opened HeapImage
  import opened DefragModel

  /** Bytes of a machine word. */
  const WORD: nat := 8

  /** The words that `n` bytes take. */
  function WordsFor(n: nat): (words: nat)
    ensures n <= words * WORD < n + WORD
  {
    (n + WORD - 1) / WORD
  }

  /** The words of a block that holds `n` bytes, with its header. */
  function RealSize(n: nat): nat {
    B + WordsFor(n)
  }

  // ----- The allocator -----

  const DEFAULT_SEGSIZE: nat := 30 * 1024 * 1024

  function SegmentWords(size: nat): nat {
    WordsFor(if size > 0 then size else DEFAULT_SEGSIZE)
  }

  /** Writes the two sentinels and the one free block between them. */
  method LayOut(seg: Words, first: nat, empty: nat, last: nat)
    requires seg.Valid() && seg.hd == map[] && seg.pay == map[]
    requires first + B == empty && empty + B <= last && last + B == seg.words.Length
    modifies seg, seg.words
    ensures seg.Valid() && seg.pay == map[]
    ensures seg.hd.Keys == {first, empty, last}
    ensures seg.hd[first] == Header(0, 0, empty, 0)
    ensures seg.hd[empty] == Header(last - empty, 0, last, first)
    ensures seg.hd[last] == Header(0, last - empty, 0, empty)
  {
    hide Laid;
    seg.AddHeader(first);
    seg.AddHeader(empty);
    seg.AddHeader(last);
    seg.SetHeader(first, 0, 0, empty, 0);
    seg.SetHeader(empty, last - empty, 0, last, first);
    seg.SetHeader(last, 0, last - empty, 0, empty);
  }

  class Allocator {
    const seg: Words
    const lo: nat         // offset of the first block
    const hi: nat         // offset of the last, zero-sized block
    const minBlock: nat   // smallest remainder worth a block of its own, in words
    var avail: int        // free words, not necessarily contiguous
    ghost var heap: Heap

    ghost predicate Valid()
      reads this, seg, seg.words
    {
      && seg.Valid() && Represents(seg.hd, seg.pay, heap, lo, hi)
      && seg.words.Length == hi + 4 && minBlock >= B
      && avail == Avail(heap)
    }

    /** Sets up a segment of `size` bytes that starts with `headerWords` words of its own. */
    constructor (headerWords: nat, size: nat, minAllocSize: nat)
      requires headerWords > 0 && SegmentWords(size) >= headerWords + 3 * B
      ensures Valid() && fresh(seg) && fresh(seg.words)
      ensures lo == headerWords + B && hi + B == SegmentWords(size)
      ensures heap == Fresh(lo, hi) && avail == hi - lo && seg.pay == map[]
      ensures minBlock == B + (if minAllocSize > 0 then WordsFor(minAllocSize) else 1)
    {
      var total := SegmentWords(size);
      var first, empty, last := headerWords, headerWords + B, total - B;
      seg := new Words(total);
      lo, hi := empty, last;
      minBlock := B + (if minAllocSize > 0 then WordsFor(minAllocSize) else 1);
      avail := last - empty;
      heap := Heap(map[empty := Free(last - empty)], [empty]);
      new;
      hide Represents, Total, Segment.Laid;
      LayOut(seg, first, empty, last);
      InitialRepresents(seg.hd, lo, hi);
    }

    method Unlink(cur: nat, ghost c: seq<nat>, ghost i: nat)
      requires seg.Valid() && Chain(seg.hd, c) && Distinct(c) && 0 < i < |c| - 1 && c[i] == cur
      modifies seg, seg.words
      ensures seg.Valid() && seg.pay == old(seg.pay)
      ensures var hd := old(seg.hd);
              cur in hd && hd[cur].fprev in hd && hd[cur].fnext in hd && seg.hd == Unlinked(hd, cur)
    {
      hide Laid;
      assert cur in seg.hd && c[i - 1] in seg.hd && c[i + 1] in seg.hd;
      var p: nat, n: nat := seg.Fprev(cur), seg.Fnext(cur);
      seg.SetFnext(p, n);
      seg.SetFprev(n, p);
    }

    method LinkAtStart(cur: nat, ghost c: seq<nat>)
      requires seg.Valid() && Chain(seg.hd, c) && Distinct(c) && |c| >= 2 && 4 <= lo && c[0] == lo - 4
      requires cur in seg.hd && cur !in c
      modifies seg, seg.words
      ensures seg.Valid() && seg.pay == old(seg.pay)
      ensures var hd := old(seg.hd);
              c[0] in hd && hd[c[0]].fnext in hd && seg.hd == LinkedAfter(hd, c[0], cur)
    {
      hide Laid, Distinct;
      assert c[0] in seg.hd && c[1] in seg.hd && seg.hd[c[0]].fnext == c[1];
      var dst := lo - 4;
      seg.SetFnext(cur, seg.Fnext(dst));
      seg.SetFprev(cur, dst);
      seg.SetFnext(dst, cur);
      seg.SetFprev(seg.Fnext(cur), seg.Fnext(dst));
    }

    method FindBlock(realsize: nat) returns (found: Option<nat>)
      requires Valid() && realsize > 0
      ensures found == Chosen(heap, realsize)
    {
      hide WellFormed, Shape, Listed, Chosen, Spine, SizeAt, Laid, Total, PayloadsFit;
      if avail < realsize {
        NotAvailable(heap, lo, hi, realsize);
        return None;
      }
      ghost var c, hd, h := Spine(lo, hi, heap.fl), seg.hd, heap;
      NodeFacts(hd, h, lo, hi, 0);
      var cur: nat := lo - B;
      ghost var k: nat := 0;
      found := None;
      while seg.Fnext(cur) != 0
        invariant k < |c| && cur == c[k] && cur in hd && found.None?
        invariant forall l: nat | l < k && l < |h.fl| :: SizeAt(h, l) < realsize
        decreases |c| - k
      {
        NodeFacts(hd, h, lo, hi, k);
        NodeFacts(hd, h, lo, hi, k + 1);
        cur, k := seg.Fnext(cur), k + 1;
        if seg.Size(cur) >= realsize {
          found := Some(cur);
          break;
        }
      }
      NodeFacts(hd, h, lo, hi, k);
      if found.Some? {
        found := Improve(realsize, cur, k - 1);
      } else {
        NoneFits(h, realsize);
      }
    }

    /** Looks at up to three list successors of the first fit `cur`, entry `i` of the list. */
    method Improve(realsize: nat, cur: nat, ghost i: nat) returns (found: Option<nat>)
      requires Valid() && realsize > 0 && i < |heap.fl| && cur == heap.fl[i]
      requires SizeAt(heap, i) >= realsize && forall l: nat | l < i :: SizeAt(heap, l) < realsize
      ensures found == Chosen(heap, realsize)
    {
      hide WellFormed, Shape, Listed, Chosen, SizeAt, Laid, Total, PayloadsFit, Looking;
      ghost var hd, h := seg.hd, heap;
      LookFirst(hd, h, lo, hi, realsize, i);
      var t, node, best := 0, cur, cur;
      ghost var j: nat := i;
      LookingAt(hd, h, lo, hi, realsize, i, j, t, node, best);
      while t < BEST_FIT_LIMIT && seg.Fnext(node) != 0
        invariant 0 <= t <= BEST_FIT_LIMIT && node in hd && best in hd
        invariant Looking(hd, h, lo, hi, realsize, i, j, t, node, best)
      {
        LookNext(hd, h, lo, hi, realsize, i, j, t, node, best);
        node := seg.Fnext(node);
        if seg.Size(node) >= realsize && seg.Size(node) < seg.Size(best) {
          best, j := node, i + t + 1;
        }
        t := t + 1;
      }
      LookingAt(hd, h, lo, hi, realsize, i, j, t, node, best);
      found := Some(best);
    }

    /** Cuts the unlinked free block at `cur` in two. */
    method Cut(cur: nat, realsize: nat, ghost h: Heap) returns (nxt: nat)
      requires seg.Valid() && ReadyToSplit(seg.hd, h, lo, hi, cur, realsize, minBlock)
      requires NoOverlapAt(seg.hd, seg.pay, cur + B, cur + h.blocks[cur].size)
               && cur + h.blocks[cur].size <= seg.words.Length
      modifies seg, seg.words
      ensures seg.Valid() && seg.pay == old(seg.pay) && nxt == cur + realsize
      ensures HasRemainder(seg.hd, h, lo, hi, cur, realsize, minBlock)
      ensures cur in seg.hd && seg.hd[cur].size == realsize
    {
      hide WellFormed, Shape, Listed, Laid, HasRemainder, AllocAt, Without, NoOverlapAt;
      ghost var hd1 := seg.hd;
      var oldsize := seg.Size(cur);
      seg.SetSize(cur, realsize);
      nxt := cur + realsize;
      NoOverlapWithin(hd1, seg.hd, seg.pay, cur + B, cur + h.blocks[cur].size, nxt, nxt + B);
      ghost var garbage := HeaderAt(seg.words[..], nxt);
      seg.AddHeader(nxt);
      seg.SetPrevSize(nxt, 0);
      seg.SetSize(nxt, oldsize - realsize);
      seg.SetPrevSize(nxt + (oldsize - realsize), oldsize - realsize);
      AllocSplitStage(hd1, h, lo, hi, cur, realsize, minBlock, garbage);
      assert seg.hd == SplitHeaders(hd1, cur, realsize, h.blocks[cur].size, garbage);
    }

    /** Cuts the unlinked free block at `cur` in two and links the remainder. */
    method Split(cur: nat, realsize: nat, ghost h: Heap) returns (ghost hd2: Headers)
      requires seg.Valid() && ReadyToSplit(seg.hd, h, lo, hi, cur, realsize, minBlock)
      requires NoOverlapAt(seg.hd, seg.pay, cur + B, cur + h.blocks[cur].size)
               && cur + h.blocks[cur].size <= seg.words.Length
      modifies seg, seg.words
      ensures seg.Valid() && seg.pay == old(seg.pay)
      ensures HasRemainder(hd2, h, lo, hi, cur, realsize, minBlock) && RemainderLinked(seg.hd, hd2, lo, cur + realsize)
      ensures cur in seg.hd && seg.hd[cur].size == realsize
    {
      hide ReadyToSplit, NoOverlapAt, Shape, Listed, Laid, LinkedAfter, Spine, Chain, Distinct, AllocAt, Without;
      var nxt := Cut(cur, realsize, h);
      hd2 := seg.hd;
      RemainderLinkable(hd2, h, lo, hi, cur, realsize, minBlock);
      LinkAtStart(nxt, Spine(lo, hi, Without(h.fl, cur)));
      LinkedKeeps(hd2, lo - 4, nxt, cur);
    }

    /** Allocates the unlinked free block at `cur`, which is too small to split. */
    method TakeWhole(cur: nat, realsize: nat, ghost h: Heap)
      requires seg.Valid() && Unlinkable(seg.hd, seg.pay, h, lo, hi, cur, realsize, minBlock)
      requires !Splits(h.blocks[cur].size, realsize, minBlock) && seg.words.Length == hi + 4
      modifies seg, seg.words
      ensures seg.Valid() && seg.pay == old(seg.pay) && cur in seg.hd && cur + realsize <= hi
      ensures seg.hd[cur].size == h.blocks[cur].size
      ensures Represents(seg.hd, seg.pay[cur + B := seg.words[cur + B..cur + realsize]],
                         AllocHeap(h, cur, realsize, minBlock), lo, hi)
    {
      hide WellFormed, Shape, Listed, Laid, AllocHeap, Without, Represents, PayloadsFit, NoOverlapAt;
      ghost var hd := seg.hd;
      seg.SetPrevSize(cur + seg.Size(cur), 0);
      seg.SetFnext(cur, 0);
      seg.SetFprev(cur, realsize);
      assert seg.hd == WholeHeaders(hd, cur, Step(h.blocks, cur), realsize);
      AllocWhole(hd, seg.pay, h, lo, hi, cur, realsize, minBlock, seg.words[cur + B..cur + realsize]);
    }

    /** Allocates the start of the unlinked free block at `cur` and links the remainder. */
    method TakeSplit(cur: nat, realsize: nat, ghost h: Heap)
      requires seg.Valid() && Unlinkable(seg.hd, seg.pay, h, lo, hi, cur, realsize, minBlock)
      requires Splits(h.blocks[cur].size, realsize, minBlock) && seg.words.Length == hi + 4
      modifies seg, seg.words
      ensures seg.Valid() && seg.pay == old(seg.pay) && cur in seg.hd && cur + realsize <= hi
      ensures seg.hd[cur].size == realsize
      ensures Represents(seg.hd, seg.pay[cur + B := seg.words[cur + B..cur + realsize]],
                         AllocHeap(h, cur, realsize, minBlock), lo, hi)
    {
      hide WellFormed, Shape, Listed, Laid, AllocHeap, Without, Represents, PayloadsFit, HasRemainder, LinkedAfter;
      ghost var hd2 := Split(cur, realsize, h);
      ghost var hd3 := seg.hd;
      seg.SetFnext(cur, 0);
      seg.SetFprev(cur, realsize);
      assert seg.hd == hd3[cur := hd3[cur].(fnext := 0, fprev := realsize)];
      AllocSplit(hd2, seg.pay, h, lo, hi, cur, realsize, minBlock, seg.words[cur + B..cur + realsize]);
    }

    /** Takes a block for `n` bytes; the result is the offset of its payload. */
    method Allocate(n: nat) returns (off: Option<nat>)
      requires Valid()
      modifies this, seg, seg.words
      ensures Valid()
      ensures Chosen(old(heap), RealSize(n)).None? ==>
        off.None? && heap == old(heap) && seg.pay == old(seg.pay) && avail == old(avail)
      ensures Chosen(old(heap), RealSize(n)).Some? ==>
        var o := Chosen(old(heap), RealSize(n)).value;
        && off == Some(o + B)
        && CanAlloc(old(heap).blocks, o, RealSize(n), minBlock)
        && heap == AllocHeap(old(heap), o, RealSize(n), minBlock)
        && o + B !in old(seg.pay) && o + B in seg.pay && |seg.pay[o + B]| == WordsFor(n)
        && seg.pay == old(seg.pay)[o + B := seg.pay[o + B]]
      ensures off.Some? ==> TookBlock(old(heap), heap, off.value, RealSize(n), minBlock, old(avail) - avail)
    {
      hide WellFormed, Shape, Listed, Chosen, Laid, Total, PayloadsFit, Unlinked, Spine, Without, NoOverlapAt, UsedPart,
           TookBlock;
      ghost var h, hd, pay := heap, seg.hd, seg.pay;
      var realsize := RealSize(n);
      var block := FindBlock(realsize);
      ChosenComplete(h, lo, hi, realsize);
      if block.None? {
        return None;
      }
      var cur := block.value;
      FreeHasNoPayload(pay, h.blocks, cur);
      ghost var i := AllocFacts(hd, pay, h, lo, hi, cur, realsize, minBlock);
      Unlink(cur, Spine(lo, hi, h.fl), i + 1);
      if seg.Size(cur) >= realsize && seg.Size(cur) < realsize + minBlock {
        TakeWhole(cur, realsize, h);
      } else {
        TakeSplit(cur, realsize, h);
      }
      heap := AllocHeap(h, cur, realsize, minBlock);
      AllocRoom(seg.hd, pay, pay[cur + B := seg.words[cur + B..cur + realsize]], h, lo, hi, cur, realsize, minBlock);
      seg.AddPayload(cur + B, realsize - B);
      AllocKeepsWellFormed(h, lo, hi, cur, realsize, minBlock);
      AllocTakes(h, lo, hi, cur, realsize, minBlock);
      avail := avail - seg.Size(cur);
      off := Some(cur + B);
    }

    /** Joins the block at `o` with a free block on its left; the result is where the joined block starts. */
    method MergeLeft(o: nat, ghost h: Heap) returns (cur: nat)
      requires seg.Valid() && WellFormed(h, lo, hi) && o in h.blocks && h.blocks[o].Used?
      requires Shape(seg.hd, h.blocks, lo, hi, {}, {}) && Listed(seg.hd, h.blocks, lo, hi, h.fl, {})
      modifies seg, seg.words
      ensures seg.Valid() && seg.pay == old(seg.pay)
      ensures cur == LeftEdge(h.blocks, o) && FreedLeft(seg.hd, h, lo, hi, o)
    {
      hide Tiled, Shape, Listed, Coalesced, CoalescedBut, Lists, Laid, FreedLeft, LeftEdge, Chain, Spine, Distinct;
      cur := o;
      ghost var hd := seg.hd;
      LeftTag(hd, h, lo, hi, o);
      StartFree(hd, h, lo, hi, o);
      if seg.PrevSize(cur) != 0 {
        var prv: nat := cur - seg.PrevSize(cur);
        ghost var i := ListedAt(hd, h.blocks, lo, hi, h.fl, {}, prv);
        Unlink(prv, Spine(lo, hi, h.fl), i);
        seg.SetSize(prv, seg.Size(prv) + seg.Size(cur));
        seg.DropHeader(cur);
        cur := prv;
      }
    }

    /** Joins the free block at `cur` with a free block on its right. */
    method MergeRight(cur: nat, ghost o: nat, ghost h: Heap)
      requires seg.Valid() && FreedLeft(seg.hd, h, lo, hi, o) && o in h.blocks && cur == LeftEdge(h.blocks, o)
      modifies seg, seg.words
      ensures seg.Valid() && seg.pay == old(seg.pay) && FreedBoth(seg.hd, h, lo, hi, o)
    {
      hide FreedLeft, FreedBoth, LeftEdge, Laid, Chain, Spine, Distinct;
      ghost var hd := seg.hd;
      JoinRightFree(hd, h, lo, hi, o);
      var nxt: nat := cur + seg.Size(cur);
      if seg.Fnext(nxt) != 0 {
        ghost var i := FreedLeftListed(hd, h, lo, hi, o, nxt);
        Unlink(nxt, Spine(lo, hi, ListLeft(h, o)), i);
        seg.SetSize(cur, seg.Size(cur) + seg.Size(nxt));
        seg.DropHeader(nxt);
      }
    }

    /** Frees the allocation whose payload starts at `offset`; returns the words of its block. */
    method Deallocate(offset: nat) returns (size: nat)
      requires Valid() && offset in seg.pay
      modifies this, seg, seg.words
      ensures Valid()
      ensures Freed(old(heap), heap, offset, size)
      ensures seg.pay == old(seg.pay) - {offset} && avail == old(avail) + size
    {
      hide WellFormed, Shape, Listed, Laid, Total, PayloadsFit, FreedLeft, FreedBoth, LeftEdge, ReleaseAt, ListAround,
           UsedPart, Spine, Chain, Distinct;
      ghost var h, pay := heap, seg.pay;
      UsedFacts(seg.hd, pay, h, lo, hi, offset);
      var o := offset - B;
      size := seg.Size(o);
      avail := avail + size;
      var cur := MergeLeft(o, h);
      MergeRight(cur, o, h);
      FreedBothFacts(seg.hd, h, lo, hi, o);
      ghost var hd2 := seg.hd;
      seg.SetPrevSize(cur + seg.Size(cur), seg.Size(cur));
      TagAndLink(hd2, pay, h, lo, hi, o);
      LinkAtStart(cur, Spine(lo, hi, ListAround(h, o)));
      seg.DropPayload(offset);
      heap := FreeHeap(h, o);
      FreeKeepsWellFormed(h, lo, hi, o);
    }

    /** Whether the free blocks together have room for `n` bytes. */
    method CheckAvail(n: nat) returns (ok: bool)
      requires Valid()
      ensures avail == Avail(heap) && (ok <==> RealSize(n) <= avail)
    {
      ok := avail >= RealSize(n);
    }

    /** Whether one free block has room for `n` bytes: exactly when `Allocate` would succeed. */
    method CheckAvailContiguous(n: nat) returns (ok: bool)
      requires Valid()
      ensures ok <==> Chosen(heap, RealSize(n)).Some?
    {
      hide WellFormed, Shape, Listed, Chosen, Spine, SizeAt, Laid, Total, PayloadsFit;
      var realsize := RealSize(n);
      if avail < realsize {
        NotAvailable(heap, lo, hi, realsize);
        return false;
      }
      ghost var c, hd, h := Spine(lo, hi, heap.fl), seg.hd, heap;
      NodeFacts(hd, h, lo, hi, 0);
      var cur: nat := lo - B;
      ghost var k: nat := 0;
      while seg.Fnext(cur) != 0
        invariant k < |c| && cur == c[k] && cur in hd
        invariant forall l: nat | l < k && l < |h.fl| :: SizeAt(h, l) < realsize
        decreases |c| - k
      {
        NodeFacts(hd, h, lo, hi, k);
        NodeFacts(hd, h, lo, hi, k + 1);
        cur, k := seg.Fnext(cur), k + 1;
        if seg.Size(cur) >= realsize {
          SomeChosen(h, realsize, k - 1);
          return true;
        }
      }
      NodeFacts(hd, h, lo, hi, k);
      NoneFits(h, realsize);
      ok := false;
    }

    /** Reads the payload word at address `a` of the allocation at `e`. */
    function Peek(a: nat, ghost e: nat): (x: int)
      requires Valid() && e in seg.pay && e <= a < e + |seg.pay[e]|
      reads this, seg, seg.words
      ensures x == seg.pay[e][a - e]
    {
      seg.Load(a, e)
    }

    /** Writes the payload word at address `a` of the allocation at `e`. */
    method Poke(a: nat, x: int, ghost e: nat)
      requires Valid() && e in seg.pay && e <= a < e + |seg.pay[e]|
      modifies seg, seg.words
      ensures Valid() && seg.pay == old(seg.pay)[e := old(seg.pay)[e][a - e := x]]
    {
      hide Laid, WellFormed, Shape, Listed, PayloadsFit, Total;
      PokeFits(seg.pay, heap.blocks, e, a - e, x);
      seg.Store(a, x, e);
    }

    // ----- Defragmentation -----

    /** Leaves the free block at `cur` where it is and lists it; goes on behind `nxt`. */
    method KeepFree(cur: nat, nxt: nat, ghost bs: Tiles, ghost fl: seq<nat>, ghost l: Log) returns (next: nat)
      requires seg.Valid() && InSweep(seg.hd, seg.pay, bs, fl, lo, hi, cur, l)
      requires cur in bs && bs[cur].Free? && nxt == Step(bs, cur) && (nxt in bs ==> nxt + B in l.pinned)
      modifies seg, seg.words
      ensures seg.Valid() && seg.pay == old(seg.pay)
      ensures cur < next && InSweep(seg.hd, seg.pay, bs, [cur] + fl, lo, hi, next, l)
    {
      hide Sweeping, Recorded, Laid, Tiled, CoalescedBut, PayloadsFit, Spine, Chain, Distinct, LinkedAfter;
      ghost var hd := seg.hd;
      SweepReads(hd, seg.pay, bs, fl, lo, hi, cur);
      SweepRefuse(hd, seg.pay, bs, fl, lo, hi, cur);
      SweepLinkable(hd, seg.pay, bs, fl, lo, hi, cur);
      SweepCanSlide(hd, seg.pay, bs, fl, lo, hi, cur);
      RecordRefusal(l, seg.pay, bs, lo, hi, cur);
      LinkAtStart(cur, Spine(lo, hi, fl));
      LinkedKeeps(hd, lo - 4, cur, cur);
      LinkedKeeps(hd, lo - 4, cur, nxt);
      seg.SetPrevSize(cur, 0);
      seg.SetPrevSize(nxt, seg.Size(cur));
      next := nxt + seg.Size(nxt);
    }

    /** Moves the allocated block at `nxt` down over the free block at `cur` and makes the
        free words and the slack of the block a free block behind it. */
    method Swap(cur: nat, nxt: nat, ghost bs: Tiles, ghost fl: seq<nat>) returns (gap: nat, slack: nat)
      requires seg.Valid() && seg.words.Length == hi + 4
      requires Sweeping(seg.hd, seg.pay, bs, fl, lo, hi, cur) && CanSlide(bs, lo, hi, cur) && nxt == Step(bs, cur)
      modifies seg, seg.words
      ensures seg.Valid() && BlockOk(bs[nxt]) && nxt + B in old(seg.pay)
      ensures gap == Gap(bs, cur) && slack == bs[nxt].size - bs[nxt].need
      ensures seg.pay == MovedPayloads(old(seg.pay), cur, nxt)
      ensures Slid(seg.hd, seg.pay, bs, fl, lo, hi, cur)
    {
      hide Sweeping, Laid, Tiled, CoalescedBut, SlideAndJoin, NoOverlapAt, Slid, Listed, Shape;
      ghost var hd, pay := seg.hd, seg.pay;
      SweepSlideReads(hd, pay, bs, fl, lo, hi, cur);
      SlideRoom(hd, pay, bs, fl, lo, hi, cur);
      slack := seg.Size(nxt) - seg.Fprev(nxt);
      seg.SetSize(nxt, seg.Size(nxt) - slack);
      var free: nat := slack + seg.Size(cur);
      ghost var hd1 := seg.hd;
      GapRoom(hd1, pay, cur, nxt, bs[nxt].need, Step(bs, nxt));
      seg.Move(cur, nxt, seg.Size(nxt));
      seg.SetPrevSize(cur, 0);
      gap := cur + seg.Size(cur);
      ghost var garbage := HeaderAt(seg.words[..], gap);
      seg.AddHeader(gap);
      seg.SetSize(gap, free);
      seg.SetFnext(gap, 1);
      SweepSlide(hd, pay, bs, fl, lo, hi, cur, garbage);
      assert seg.hd == SlidAt(hd, bs, cur, garbage);
    }

    /** The swap, followed by joining a free block behind the new free block. */
    method SlideDown(cur: nat, nxt: nat, ghost bs: Tiles, ghost fl: seq<nat>) returns (gap: nat, slack: nat)
      requires seg.Valid() && seg.words.Length == hi + 4
      requires Sweeping(seg.hd, seg.pay, bs, fl, lo, hi, cur) && CanSlide(bs, lo, hi, cur) && nxt == Step(bs, cur)
      modifies seg, seg.words
      ensures seg.Valid() && BlockOk(bs[nxt]) && nxt + B in old(seg.pay)
      ensures gap == Gap(bs, cur) && slack == bs[nxt].size - bs[nxt].need
      ensures seg.pay == MovedPayloads(old(seg.pay), cur, nxt)
      ensures Sweeping(seg.hd, seg.pay, SlideAndJoin(bs, cur), fl, lo, hi, gap)
    {
      hide Sweeping, Laid, Tiled, CoalescedBut, SlideAndJoin, Slid, MovedPayloads;
      gap, slack := Swap(cur, nxt, bs, fl);
      SweepJoin(seg.hd, seg.pay, bs, fl, lo, hi, cur);
      var next := gap + seg.Size(gap);
      if seg.Fnext(next) != 0 {
        seg.SetSize(gap, seg.Size(gap) + seg.Size(next));
        seg.DropHeader(next);
      }
    }

    /** Asks the callback whether the allocation behind the free block `cur` may move. */
    method Ask(move: Move, cur: nat, nxt: nat, ghost bs: Tiles, ghost fl: seq<nat>, ghost l: Log,
               ghost patch: (Payloads, nat, nat) -> Payloads, ghost inv: Payloads -> bool)
      returns (ok: bool)
      requires seg.Valid() && AtSlide(seg.hd, seg.pay, bs, fl, lo, hi, cur, nxt, l)
      requires inv(seg.pay) && MoveOk(move, patch, inv, l.pinned, lo + B)
      modifies seg, seg.words
      ensures seg.Valid() && seg.hd == old(seg.hd) && AtSlide(seg.hd, seg.pay, bs, fl, lo, hi, cur, nxt, l)
      ensures ok <==> nxt + B !in l.pinned
      ensures !ok ==> seg.pay == old(seg.pay)
      ensures ok ==> nxt + B in seg.pay && inv(Renamed(seg.pay, cur + B, nxt + B))
      ensures ok ==> seg.pay == patch(old(seg.pay), nxt + B, cur + B)
    {
      hide Sweeping, Recorded, Laid, Tiled, CoalescedBut, SameLengths, MayAsk;
      MayAskHere(seg.hd, seg.pay, bs, fl, lo, hi, cur);
      ghost var pay, m := seg.pay, seg.words[..];
      assert MoveOkAt(move, patch, inv, l.pinned, m, seg.hd, pay, cur + B, nxt + B);
      var (accepted, m1) := move(seg.words[..], nxt + B, cur + B);
      ok := accepted;
      if ok {
        ghost var pay1 := patch(pay, nxt + B, cur + B);
        SweepPatch(seg.hd, pay, pay1, bs, fl, lo, hi, cur);
        RecordPatch(l, pay, pay1, bs, hi, cur);
        seg.Overwrite(m1, pay1);
      }
    }

    /** One step of the sweep at the block `cur`: goes on behind an allocated block, keeps a
        free block, or slides the next block down; returns the slack that was reclaimed. */
    method Sweep(move: Move, cur: nat, ghost bs: Tiles, ghost fl: seq<nat>, ghost l: Log,
                 ghost patch: (Payloads, nat, nat) -> Payloads, ghost inv: Payloads -> bool)
      returns (next: nat, slack: nat, ghost bs2: Tiles, ghost fl2: seq<nat>, ghost l2: Log)
      requires seg.Valid() && seg.words.Length == hi + 4 && inv(seg.pay) && MoveOk(move, patch, inv, l.pinned, lo + B)
      requires InSweep(seg.hd, seg.pay, bs, fl, lo, hi, cur, l) && cur in seg.hd && cur < hi && seg.hd[cur].size != 0
      modifies seg, seg.words
      ensures seg.Valid() && seg.words.Length == hi + 4 && inv(seg.pay)
      ensures InSweep(seg.hd, seg.pay, bs2, fl2, lo, hi, next, l2) && cur < next
      ensures l2.pay0 == l.pay0 && l2.bs0 == l.bs0 && l2.pinned == l.pinned
      ensures Total(FreeWords, bs2) == Total(FreeWords, bs) + slack
      ensures Inert(patch) && SameWords(l, old(seg.pay)) ==> SameWords(l2, seg.pay)
    {
      hide Sweeping, Recorded, Laid, Tiled, CoalescedBut, Total, MoveOk, SameWords;
      InSweepAdvance(seg.hd, seg.pay, bs, fl, lo, hi, cur, l);
      bs2, fl2, l2, slack := bs, fl, l, 0;
      var nxt := cur + seg.Size(cur);
      if seg.Fnext(cur) == 0 {
        next := nxt;
      } else {
        var moves := false;
        if seg.Size(nxt) != 0 {
          moves := Ask(move, cur, nxt, bs, fl, l, patch, inv);
        }
        if !moves {
          next := KeepFree(cur, nxt, bs, fl, l);
          fl2 := [cur] + fl;
        } else {
          SlideKeepsSum(bs, lo, hi, cur);
          RecordSlide(l, seg.pay, bs, lo, hi, cur);
          SlideKeepsWords(l, seg.hd, seg.pay, bs, fl, lo, hi, cur);
          next, slack := SlideDown(cur, nxt, bs, fl);
          l2 := l.(r := l.r[nxt + B := cur + B]);
          bs2 := SlideAndJoin(bs, cur);
        }
      }
    }

    /** Slides allocated blocks down over the free blocks, asking `move` about each one. */
    method Defrag(move: Move, ghost patch: (Payloads, nat, nat) -> Payloads, ghost inv: Payloads -> bool,
                  ghost pinned: set<nat>)
      returns (ghost l: Log)
      requires Valid() && inv(seg.pay) && MoveOk(move, patch, inv, pinned, lo + B)
      modifies this, seg, seg.words
      ensures Valid() && inv(seg.pay)
      ensures l.pay0 == old(seg.pay) && l.bs0 == old(heap).blocks && l.pinned == pinned
      ensures Recorded(l, seg.pay, heap.blocks, hi, hi) && avail == old(avail) + Reclaimed(l.r, l.bs0)
      ensures Inert(patch) ==> SameWords(l, seg.pay)
    {
      hide Represents, Sweeping, Recorded, Laid, Tiled, CoalescedBut, Total, MoveOk, PayloadsFit, SameWords;
      SweepStart(seg.hd, seg.pay, heap, lo, hi);
      RepresentsParts(seg.hd, seg.pay, heap, lo, hi);
      l := RecordStart(seg.hd, seg.pay, heap, lo, hi, pinned);
      ghost var bs: Tiles, fl: seq<nat> := heap.blocks, [];
      var first: nat := lo - B;
      seg.SetFnext(first, hi);
      seg.SetFprev(hi, first);
      var cur: nat, reclaimed := lo, 0;
      InSweepAdvance(seg.hd, seg.pay, bs, fl, lo, hi, cur, l);
      while seg.Size(cur) != 0
        invariant seg.Valid() && seg.words.Length == hi + 4 && inv(seg.pay)
        invariant InSweep(seg.hd, seg.pay, bs, fl, lo, hi, cur, l) && cur in seg.hd && cur <= hi
        invariant l.pay0 == old(seg.pay) && l.bs0 == old(heap).blocks && l.pinned == pinned
        invariant avail + reclaimed == Total(FreeWords, bs)
        invariant Inert(patch) ==> SameWords(l, seg.pay)
        decreases hi - cur
      {
        InSweepAdvance(seg.hd, seg.pay, bs, fl, lo, hi, cur, l);
        var slack: nat;
        cur, slack, bs, fl, l := Sweep(move, cur, bs, fl, l, patch, inv);
        reclaimed := reclaimed + slack;
        InSweepAdvance(seg.hd, seg.pay, bs, fl, lo, hi, cur, l);
      }
      InSweepAdvance(seg.hd, seg.pay, bs, fl, lo, hi, cur, l);
      SweepEnd(seg.hd, seg.pay, bs, fl, lo, hi);
      heap := Heap(bs, fl);
      avail := avail + reclaimed;
      RepresentsParts(seg.hd, seg.pay, heap, lo, hi);
      SweepReclaims(l, seg.pay, heap, lo, hi);
    }
  }
}
