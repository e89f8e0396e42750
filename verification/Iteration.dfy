/** Iterating over the entries of the cache in chunks, and deleting what an iterator finds. */
module Iteration {
  import opened HeapModel
  import opened CacheLists
  import opened CacheModel
  import opened Packing
  import opened CacheImage
  import opened CacheState
  import opened CacheStore
  import Sma

  type Filter = seq<int> -> bool

  // ----- What is to be enumerated -----

  /** The entry is not hard expired and its key passes the filter. */
  ghost predicate Wanted(st: State, e: nat, filter: Filter, t: int) {
    !HardExpired(ItemAt(st, e), t) && filter(KeyIn(ItemAt(st, e)))
  }

  ghost function WantedIn(st: State, es: seq<nat>, filter: Filter, t: int): seq<nat> {
    if es == [] then []
    else WantedIn(st, es[..|es| - 1], filter, t) + (if Wanted(st, es[|es| - 1], filter, t) then [es[|es| - 1]] else [])
  }

  /** The wanted entries of the slots from `a` up to `b`, in slot order. */
  ghost function Listing(st: State, a: nat, b: nat, filter: Filter, t: int): seq<nat>
    requires a <= b < |st.chains|
  {
    if a == b then [] else Listing(st, a, b - 1, filter, t) + WantedIn(st, st.chains[b], filter, t)
  }

  lemma WantedNext(st: State, es: seq<nat>, i: nat, filter: Filter, t: int)
    requires i < |es|
    ensures WantedIn(st, es[..i + 1], filter, t) == WantedIn(st, es[..i], filter,
                                                             t) + (if Wanted(st, es[i], filter, t) then [es[i]] else [])
  {
    hide Wanted;
    assert es[..i + 1][..i] == es[..i];
  }

  lemma {:induction false} ListingSplit(st: State, a: nat, b: nat, c: nat, filter: Filter, t: int)
    requires a <= b <= c < |st.chains|
    ensures Listing(st, a, c, filter, t) == Listing(st, a, b, filter, t) + Listing(st, b, c, filter, t)
    decreases c
  {
    hide WantedIn;
    if b < c {
      ListingSplit(st, a, b, c - 1, filter, t);
    }
  }

  lemma {:induction false} WantedMembers(st: State, es: seq<nat>, filter: Filter, t: int, e: nat)
    ensures e in WantedIn(st, es, filter, t) <==> e in es && Wanted(st, e, filter, t)
    decreases |es|
  {
    hide Wanted;
    if es != [] {
      WantedMembers(st, es[..|es| - 1], filter, t, e);
      assert es == es[..|es| - 1] + [es[|es| - 1]];
    }
  }

  lemma {:induction false} ListingMembers(st: State, a: nat, b: nat, filter: Filter, t: int, e: nat)
    requires a <= b < |st.chains|
    ensures e in Listing(st, a, b, filter, t) <==> exists k ::
            a < k <= b && e in st.chains[k] && Wanted(st, e, filter, t)
    decreases b
  {
    hide Wanted, WantedIn;
    if a < b {
      ListingMembers(st, a, b - 1, filter, t, e);
      WantedMembers(st, st.chains[b], filter, t, e);
    }
  }

  ghost predicate Once(s: seq<nat>) {
    forall i, j | 0 <= i < j < |s| :: s[i] != s[j]
  }

  lemma {:induction false} WantedOnce(st: State, es: seq<nat>, filter: Filter, t: int)
    requires Once(es)
    ensures Once(WantedIn(st, es, filter, t))
    decreases |es|
  {
    hide Wanted;
    if es != [] {
      var rest, e := es[..|es| - 1], es[|es| - 1];
      WantedOnce(st, rest, filter, t);
      WantedMembers(st, rest, filter, t, e);
    }
  }

  lemma {:induction false} ListingOnce(st: State, a: nat, b: nat, filter: Filter, t: int)
    requires a <= b < |st.chains| && Separate(st.chains)
    ensures Once(Listing(st, a, b, filter, t))
    decreases b
  {
    hide Wanted, WantedIn;
    if a < b {
      ListingOnce(st, a, b - 1, filter, t);
      assert Once(st.chains[b]);
      WantedOnce(st, st.chains[b], filter, t);
      var front, back := Listing(st, a, b - 1, filter, t), WantedIn(st, st.chains[b], filter, t);
      forall i, j | 0 <= i < |front| && 0 <= j < |back|
        ensures front[i] != back[j]
      {
        ListingMembers(st, a, b - 1, filter, t, front[i]);
        WantedMembers(st, st.chains[b], filter, t, back[j]);
      }
    }
  }

  /** The enumeration of all slots has every wanted entry once and nothing else. */
  lemma ListingExact(st: State, hash: Hash, filter: Filter, t: int, e: nat)
    requires Sound(st, hash)
    ensures |st.chains| > 1 && Once(Listing(st, 0, |st.chains| - 1, filter, t))
    ensures e in Listing(st, 0, |st.chains| - 1, filter, t) <==>
              Binds(st, hash, KeyIn(ItemAt(st, e)), e) && !HardExpired(ItemAt(st, e), t) && filter(KeyIn(ItemAt(st, e)))
  {
    hide Placed, Separate, HardExpired, KeyIn, Listing;
    SoundSized(st, hash);
    ListingOnce(st, 0, |st.chains| - 1, filter, t);
    ListingMembers(st, 0, |st.chains| - 1, filter, t, e);
    BindsSlot(st, hash, KeyIn(ItemAt(st, e)));
    forall k | 0 < k < |st.chains| && e in st.chains[k]
      ensures SlotOf(st, hash, KeyIn(ItemAt(st, e))) == k
    {
      var i :| 0 <= i < |st.chains[k]| && st.chains[k][i] == e;
      BindsAt(st, hash, k, i);
    }
  }

  // ----- Totals -----

  ghost function Sizes(st: State, es: seq<nat>): int {
    if es == [] then 0 else Sizes(st, es[..|es| - 1]) + Field(ItemAt(st, es[|es| - 1]), MEMSIZE)
  }

  ghost function HitsOf(st: State, es: seq<nat>): int {
    if es == [] then 0 else HitsOf(st, es[..|es| - 1]) + Field(ItemAt(st, es[|es| - 1]), NHITS)
  }

  lemma TotalsNext(st: State, es: seq<nat>, e: nat)
    ensures Sizes(st, es + [e]) == Sizes(st, es) + Field(ItemAt(st, e), MEMSIZE)
    ensures HitsOf(st, es + [e]) == HitsOf(st, es) + Field(ItemAt(st, e), NHITS)
  {
    hide Field, ItemAt;
    assert (es + [e])[..|es|] == es;
  }

  /** An item shown to the user: the entry it was made from and its key. */
  datatype Shown = Shown(e: nat, key: seq<int>)

  ghost predicate ItemsOf(st: State, items: seq<Shown>, es: seq<nat>) {
    |items| == |es| && forall i | 0 <= i < |es| :: items[i] == Shown(es[i], KeyIn(ItemAt(st, es[i])))
  }

  /** Slots are fetched until there are more entries than the chunk size, and no further. */
  ghost predicate ChunkFull(st: State, from: nat, to: nat, nslots: nat, filter: Filter, t: int, chunkSize: nat) {
    from <= to <= nslots < |st.chains|
    && (to < nslots ==> |Listing(st, from, to, filter, t)| > chunkSize)
    && (from < to ==> |Listing(st, from, to - 1, filter, t)| <= chunkSize)
  }

  class Iterator {
    const cache: Cache
    const chunkSize: nat
    const filter: Filter
    var slotIdx: nat            // the next slot to fetch
    var stack: seq<Shown>        // the current chunk
    var stackIdx: nat           // the current item in it
    var keyIdx: nat
    var totalled: bool
    var size: int
    var hits: int
    var count: nat

    constructor (cache: Cache, chunkSize: nat, filter: Filter)
      ensures this.cache == cache && this.filter == filter && slotIdx == 0 && stack == [] && stackIdx == 0
      ensures this.chunkSize == if chunkSize == 0 then 100 else chunkSize
      ensures !totalled && size == 0 && hits == 0 && count == 0
    {
      this.cache, this.filter := cache, filter;
      this.chunkSize := if chunkSize == 0 then 100 else chunkSize;
      slotIdx, stack, stackIdx, keyIdx, totalled, size, hits, count := 0, [], 0, 0, false, 0, 0, 0;
    }

    /** The key of the entry `e`. */
    method ReadKey(e: nat) returns (key: seq<int>)
      requires cache.Valid() && e in cache.St().items && ItemOk(cache.hash, cache.St().items[e])
               && |cache.St().items[e]| >= KEY - TTL
      ensures key == KeyIn(cache.St().items[e])
    {
      hide Sma.Allocator.Valid, Image, Items, Counters, Good;
      ghost var c := cache.St().items[e];
      key := [];
      var n: nat := cache.ReadField(e, KEYLEN);
      for i := 0 to n
        invariant key == KeyIn(c)[..i]
      {
        key := key + [ByteOf(cache.ReadField(e, KEY + i / 8), i % 8)];
      }
    }

    /** Refers to the entry `e`, if it is wanted. */
    method PinWanted(e: nat, t: int, ghost st0: State, ghost es: seq<nat>) returns (taken: bool)
      requires cache.Valid() && e in cache.St().items && ItemOk(cache.hash, cache.St().items[e])
      requires cache.St() == Referred(st0, es) && AllPresent(st0, es)
      modifies cache.sma.seg, cache.sma.seg.words
      ensures cache.Valid() && cache.Header() == old(cache.Header()) && (taken <==> Wanted(st0, e, filter, t))
      ensures cache.St() == Referred(st0, if taken then es + [e] else es)
      ensures AllPresent(st0, es + [e]) && cache.chains == st0.chains
    {
      hide Sma.Allocator.Valid, Image, Items, Counters, Good, KeyIn, ItemOk, ItemAt, HardExpired, Referred, Field,
           WithMeta, Wanted;
      ReferredSized(cache, st0, es);
      ReferredSame(st0, es);
      WantedSame(st0, cache.St(), e, filter, t);
      SameSized(st0, cache.St(), e);
      ReferredMore(st0, es, e);
      var expired := cache.HardExpiredEntry(e, t);
      taken := false;
      if !expired {
        var key := ReadKey(e);
        if filter(key) {
          cache.IncRef(e);
          taken := true;
        }
      }
    }

    /** Refers to the wanted entries of one slot. */
    method PinSlot(s: nat, t: int, ghost st0: State, ghost es0: seq<nat>) returns (entries: seq<nat>)
      requires cache.Valid() && s < cache.nslots && cache.St() == Referred(st0, es0) && AllPresent(st0, es0)
      modifies cache.sma.seg, cache.sma.seg.words
      ensures cache.Valid() && cache.Header() == old(cache.Header()) && cache.St() == Referred(st0, es0 + entries)
      ensures s + 1 < |st0.chains| && entries == WantedIn(st0, st0.chains[s + 1], filter, t)
      ensures AllPresent(st0, es0 + entries) && AllFree(cache.loose, entries)
    {
      hide Sma.Allocator.Valid, Image, Items, Counters, Good, ItemOk, WantedIn, Referred, Wanted, AllPresent;
      ghost var k, i := s + 1, 0;
      ReferredSame(st0, es0);
      var cell := cache.hb + GC + 1 + s;
      entries := [];
      assert es0 + entries == es0;
      WantedNone(st0, filter, t);
      while cache.NextOf(cell, k, i) != 0
        invariant cache.Valid() && cache.Header() == old(cache.Header()) && cache.St() == Referred(st0, es0 + entries)
        invariant cache.chains == st0.chains && i <= |cache.chains[k]| && cell == CellOf(cache.hb, cache.chains, k, i)
        invariant entries == WantedIn(st0, st0.chains[k][..i], filter, t) && AllPresent(st0, es0 + entries)
                  && AllFree(cache.loose, entries)
        decreases |cache.chains[k]| - i
      {
        WantedNext(st0, st0.chains[k], i, filter, t);
        EntryFacts(cache.St(), cache.Header(), cache.hash, cache.loose, k, i);
        ListedNotLoose(cache.St(), cache.Header(), cache.hash, cache.loose, k, i);
        var e: nat := cache.hb + cache.NextOf(cell, k, i);
        var taken := PinWanted(e, t, st0, es0 + entries);
        if taken {
          assert es0 + entries + [e] == es0 + (entries + [e]);
          entries := entries + [e];
        }
        cell, i := e, i + 1;
      }
      assert st0.chains[k][..i] == st0.chains[k];
    }

    /** Refers to the wanted entries of slots until there are more than the chunk size, or no
        more slots. */
    method PinChunk(t: int) returns (entries: seq<nat>)
      requires cache.Valid() && slotIdx <= cache.nslots
      modifies this`slotIdx, cache.sma.seg, cache.sma.seg.words
      ensures old(slotIdx) <= slotIdx <= cache.nslots && |old(cache.St()).chains| == cache.nslots + 1
      ensures entries == Listing(old(cache.St()), old(slotIdx), slotIdx, filter, t)
      ensures cache.Valid() && cache.Header() == old(cache.Header()) && cache.St() == Referred(old(cache.St()), entries)
      ensures AllPresent(old(cache.St()), entries) && AllFree(cache.loose, entries)
      ensures |entries| == 0 ==> slotIdx == cache.nslots
      ensures ChunkFull(old(cache.St()), old(slotIdx), slotIdx, cache.nslots, filter, t, chunkSize)
    {
      hide Sma.Allocator.Valid, Image, Items, Counters, Good, KeyIn, WantedIn, Referred;
      ghost var st, from := cache.St(), slotIdx;
      entries := [];
      ReferredNone(st);
      while |entries| <= chunkSize && slotIdx < cache.nslots
        invariant from <= slotIdx <= cache.nslots && cache.Valid() && cache.Header() == old(cache.Header())
        invariant entries == Listing(st, from, slotIdx, filter, t) && cache.St() == Referred(st, entries)
        invariant AllPresent(st, entries) && AllFree(cache.loose, entries)
        invariant from < slotIdx ==> |Listing(st, from, slotIdx - 1, filter, t)| <= chunkSize
        decreases cache.nslots - slotIdx
      {
        var more := PinSlot(slotIdx, t, st, entries);
        entries := entries + more;
        slotIdx := slotIdx + 1;
      }
    }

    /** Builds the items of the entries, and gives the references back. */
    method BuildItems(entries: seq<nat>, ghost st: State) returns (items: seq<Shown>)
      requires cache.Valid() && cache.St() == Referred(st, entries) && AllPresent(st, entries)
               && AllFree(cache.loose, entries)
      requires AllSound(st, cache.hash, entries)
      modifies cache.sma.seg, cache.sma.seg.words
      ensures cache.Valid() && cache.Header() == old(cache.Header()) && cache.St() == st && ItemsOf(st, items, entries)
    {
      hide Sma.Allocator.Valid, Image, Items, Counters, Good, KeyIn, ItemOk, ItemAt, Referred, WithMeta, Field;
      ReferredSized(cache, st, entries);
      ReferredSame(st, entries);
      items := [];
      for i := 0 to |entries|
        invariant cache.Valid() && cache.Header() == old(cache.Header()) && cache.St() == old(cache.St())
        invariant ItemsOf(st, items, entries[..i])
      {
        SoundSame(st, cache.St(), cache.hash, entries, i);
        var key := ReadKey(entries[i]);
        items := items + [Shown(entries[i], key)];
      }
      assert entries[..|entries|] == entries;
      var n: nat := |entries|;
      while n > 0
        invariant n <= |entries| && cache.Valid() && cache.Header() == old(cache.Header())
        invariant cache.St() == Referred(st, entries[..n])
      {
        n := n - 1;
        assert entries[..n + 1] == entries[..n] + [entries[n]];
        ReferredSame(st, entries[..n]);
        ReferredLess(st, entries[..n], entries[n]);
        cache.Release(entries[n]);
      }
      assert entries[..n] == [];
      ReferredNone(st);
    }

    /** Fetches the next chunk: its entries are referred to while their items are built. */
    method FetchActive(t: int) returns (n: nat, ghost es: seq<nat>)
      requires cache.Valid() && slotIdx <= cache.nslots
      modifies this`slotIdx, this`stack, this`stackIdx, cache.sma.seg, cache.sma.seg.words
      ensures cache.Valid() && cache.St() == old(cache.St()) && cache.Header() == old(cache.Header())
      ensures old(slotIdx) <= slotIdx <= cache.nslots && |cache.St().chains| == cache.nslots + 1
      ensures es == Listing(cache.St(), old(slotIdx), slotIdx, filter, t)
      ensures ItemsOf(cache.St(), stack, es) && stackIdx == 0 && n == |stack|
      ensures n == 0 ==> slotIdx == cache.nslots
      ensures ChunkFull(old(cache.St()), old(slotIdx), slotIdx, cache.nslots, filter, t, chunkSize)
    {
      hide Sma.Allocator.Valid, Image, Items, Counters, Good, KeyIn, ItemAt, Listing, Referred, ChunkFull;
      ghost var st := cache.St();
      GoodSound(st, cache.Header(), cache.hash, cache.loose);
      ghost var from := slotIdx;
      var entries := PinChunk(t);
      ListingSound(st, cache.hash, from, slotIdx, filter, t);
      stack := BuildItems(entries, st);
      stackIdx, n, es := 0, |entries|, entries;
    }

    // ----- The cursor -----

    /** `ys` have been shown; the rest is in the chunk from the current item on, and in the
        slots that are still to be fetched. */
    ghost predicate ShownUpTo(st: State, ys: seq<nat>, t: int, es: seq<nat>)
      reads this
    {
      && slotIdx < |st.chains| && stackIdx <= |stack| && ItemsOf(st, stack, es)
      && ys + es[stackIdx..] + Listing(st, slotIdx, |st.chains| - 1, filter, t)
         == Listing(st, 0, |st.chains| - 1, filter, t)
    }

    method Rewind(t: int) returns (ghost es: seq<nat>)
      requires cache.Valid()
      modifies this`slotIdx, this`stack, this`stackIdx, this`keyIdx, cache.sma.seg, cache.sma.seg.words
      ensures cache.Valid() && cache.St() == old(cache.St()) && ShownUpTo(cache.St(), [], t, es) && keyIdx == 0
    {
      hide Sma.Allocator.Valid, Image, Items, Counters, Good, Listing;
      slotIdx, stackIdx, keyIdx := 0, 0, 0;
      var n: nat;
      n, es := FetchActive(t);
      ListingSplit(cache.St(), 0, slotIdx, cache.nslots, filter, t);
      assert es[0..] == es;
    }

    method Valid(t: int, ghost ys: seq<nat>, ghost es0: seq<nat>) returns (ok: bool, ghost es: seq<nat>)
      requires cache.Valid() && ShownUpTo(cache.St(), ys, t, es0)
      modifies this`slotIdx, this`stack, this`stackIdx, cache.sma.seg, cache.sma.seg.words
      ensures cache.Valid() && cache.St() == old(cache.St()) && ShownUpTo(cache.St(), ys, t, es)
      ensures ok ==> stackIdx < |stack|
      ensures !ok ==> ys == Listing(cache.St(), 0, |cache.St().chains| - 1, filter, t)
    {
      hide Sma.Allocator.Valid, Image, Items, Counters, Good, Listing, ItemsOf;
      es := es0;
      ItemsSized(cache.St(), stack, es);
      if |stack| == stackIdx {
        ghost var from := slotIdx;
        var n: nat;
        n, es := FetchActive(t);
        ItemsSized(cache.St(), stack, es);
        ListingSplit(cache.St(), from, slotIdx, cache.nslots, filter, t);
        assert es[0..] == es;
        ListingNone(cache.St(), cache.nslots, filter, t);
      }
      ok := |stack| != 0;
    }

    /** The current item, fetched if need be; none if there are no more. */
    method Current(t: int, ghost ys: seq<nat>, ghost es0: seq<nat>) returns (item: Option<Shown>, ghost es: seq<nat>)
      requires cache.Valid() && ShownUpTo(cache.St(), ys, t, es0)
      modifies this`slotIdx, this`stack, this`stackIdx, cache.sma.seg, cache.sma.seg.words
      ensures cache.Valid() && cache.St() == old(cache.St()) && ShownUpTo(cache.St(), ys, t, es)
      ensures item == if stackIdx < |stack| then Some(stack[stackIdx]) else None
      ensures item.None? ==> ys == Listing(cache.St(), 0, |cache.St().chains| - 1, filter, t)
      ensures old(stackIdx < |stack|) ==>
        es == es0 && stack == old(stack) && stackIdx == old(stackIdx) && slotIdx == old(slotIdx)
    {
      hide Sma.Allocator.Valid, Image, Items, Counters, Good, Listing, ItemsOf;
      es := es0;
      ItemsSized(cache.St(), stack, es);
      if |stack| == stackIdx {
        ghost var from := slotIdx;
        var n: nat;
        n, es := FetchActive(t);
        ItemsSized(cache.St(), stack, es);
        ListingSplit(cache.St(), from, slotIdx, cache.nslots, filter, t);
        assert es[0..] == es;
        ListingNone(cache.St(), cache.nslots, filter, t);
        if n == 0 {
          return None, es;
        }
      }
      item := Some(stack[stackIdx]);
    }

    method Next()
      modifies this`stackIdx, this`keyIdx
      ensures if |stack| == 0 then stackIdx == old(stackIdx) && keyIdx == old(keyIdx)
              else stackIdx == old(stackIdx) + 1 && keyIdx == old(keyIdx) + 1
    {
      if |stack| == 0 {
        return;
      }
      stackIdx, keyIdx := stackIdx + 1, keyIdx + 1;
    }

    /** The body of a foreach loop: the current item is shown, and the cursor goes on. */
    method Show(t: int, ghost ys: seq<nat>, ghost es: seq<nat>) returns (item: Shown)
      requires cache.Valid() && ShownUpTo(cache.St(), ys, t, es) && stackIdx < |stack|
      modifies this`slotIdx, this`stack, this`stackIdx, this`keyIdx, cache.sma.seg, cache.sma.seg.words
      ensures cache.Valid() && cache.St() == old(cache.St())
      ensures old(stackIdx) < |es| && ShownUpTo(cache.St(), ys + [es[old(stackIdx)]], t, es)
      ensures keyIdx == old(keyIdx) + 1
      ensures item == Shown(es[old(stackIdx)], KeyIn(ItemAt(cache.St(), es[old(stackIdx)])))
    {
      hide Sma.Allocator.Valid, Image, Items, Counters, Good, Listing, KeyIn;
      ghost var es1: seq<nat>;
      var shown: Option<Shown>;
      shown, es1 := Current(t, ys, es);
      item := shown.value;
      AtNext(ys, es, stackIdx, Listing(cache.St(), slotIdx, |cache.St().chains| - 1, filter, t));
      Next();
    }

    /** A foreach loop shows every wanted entry exactly once, in slot order, whatever the
        chunk size is. */
    method ForEach(t: int) returns (shown: seq<Shown>)
      requires cache.Valid()
      modifies this`slotIdx, this`stack, this`stackIdx, this`keyIdx, cache.sma.seg, cache.sma.seg.words
      ensures cache.Valid() && cache.St() == old(cache.St())
      ensures |cache.St().chains| > 0
              && ItemsOf(cache.St(), shown, Listing(cache.St(), 0, |cache.St().chains| - 1, filter, t))
      ensures keyIdx == |shown|
    {
      hide Sma.Allocator.Valid, Image, Items, Counters, Good, Listing, ItemsOf;
      ghost var st, ys := cache.St(), [];
      ghost var es := Rewind(t);
      var ok: bool;
      ok, es := Valid(t, ys, es);
      shown := [];
      ItemsStart(st);
      while ok
        invariant cache.Valid() && cache.St() == st
        invariant ShownUpTo(st, ys, t, es) && ItemsOf(st, shown, ys) && keyIdx == |shown| && (ok ==> stackIdx < |stack|)
        invariant !ok ==> ys == Listing(st, 0, |st.chains| - 1, filter, t)
        decreases |Listing(st, 0, |st.chains| - 1, filter, t)| - |ys|, ok
      {
        ghost var next := stackIdx;
        var item := Show(t, ys, es);
        ItemsAppend(st, shown, ys, es[next]);
        shown, ys := shown + [item], ys + [es[next]];
        ok, es := Valid(t, ys, es);
      }
    }

    // ----- Totals -----

    /** Size, hits and number of all wanted entries, counted once. */
    method Totals(t: int)
      requires cache.Valid() && !totalled && size == 0 && hits == 0 && count == 0
      modifies this`size, this`hits, this`count, this`totalled
      ensures totalled && |cache.St().chains| > 0
      ensures var es := Listing(cache.St(), 0, |cache.St().chains| - 1, filter, t);
              size == Sizes(cache.St(), es) && hits == HitsOf(cache.St(), es) && count == |es|
    {
      hide Sma.Allocator.Valid, Image, Items, Counters, Good, KeyIn, ItemOk, WantedIn, Sizes, HitsOf;
      ghost var st, es := cache.St(), [];
      TotalsNone(st);
      for s := 0 to cache.nslots
        invariant es == Listing(st, 0, s, filter, t)
        invariant size == Sizes(st, es) && hits == HitsOf(st, es) && count == |es| && !totalled
      {
        es := TotalSlot(s, t, es);
      }
      totalled := true;
    }

    method TotalSlot(s: nat, t: int, ghost es0: seq<nat>) returns (ghost es: seq<nat>)
      requires cache.Valid() && s < cache.nslots
      requires size == Sizes(cache.St(), es0) && hits == HitsOf(cache.St(), es0) && count == |es0|
      modifies this`size, this`hits, this`count
      ensures s + 1 < |cache.St().chains| && es == es0 + WantedIn(cache.St(), cache.St().chains[s + 1], filter, t)
      ensures size == Sizes(cache.St(), es) && hits == HitsOf(cache.St(), es) && count == |es|
    {
      hide Sma.Allocator.Valid, Image, Items, Counters, Good, KeyIn, ItemOk, ItemAt, HardExpired, WantedIn, Field,
           Sizes, HitsOf;
      ghost var st, k, i := cache.St(), s + 1, 0;
      var cell := cache.hb + GC + 1 + s;
      es := es0;
      WantedNone(st, filter, t);
      while cache.NextOf(cell, k, i) != 0
        invariant i <= |st.chains[k]| && cell == CellOf(cache.hb, cache.chains, k, i)
        invariant es == es0 + WantedIn(st, st.chains[k][..i], filter, t)
        invariant size == Sizes(st, es) && hits == HitsOf(st, es) && count == |es|
        decreases |st.chains[k]| - i
      {
        WantedNext(st, st.chains[k], i, filter, t);
        EntryFacts(st, cache.Header(), cache.hash, cache.loose, k, i);
        var e: nat := cache.hb + cache.NextOf(cell, k, i);
        var expired := cache.HardExpiredEntry(e, t);
        if !expired {
          var key := ReadKey(e);
          if filter(key) {
            TotalsNext(st, es, e);
            FieldWords(st.items[e]);
            size := size + cache.ReadField(e, MEMSIZE);
            hits := hits + cache.ReadField(e, NHITS);
            count := count + 1;
            es := es + [e];
          }
        }
        cell, i := e, i + 1;
      }
      assert st.chains[k][..i] == st.chains[k];
    }

    // ----- Deleting -----

    /** Deletes the key of every item in the current chunk. */
    method DeleteChunk(t: int, now: int, ghost from: nat)
      requires cache.Valid() && stackIdx <= |stack|
               && LeftIn(cache.St(), cache.hash, filter, t, from, stack[stackIdx..])
      modifies this`stackIdx, cache`chains, cache.sma, cache.sma.seg, cache.sma.seg.words
      ensures cache.Valid() && LeftIn(cache.St(), cache.hash, filter, t, from, [])
      ensures KeysGone(old(cache.St()), cache.St(), cache.hash, old(stack[stackIdx..]))
    {
      hide Sma.Allocator.Valid, Image, Items, Counters, Good, LeftIn, CacheModel.Delete, KeysGone;
      ghost var st0, items, done := cache.St(), stack[stackIdx..], stackIdx;
      NoKeysGone(st0, cache.hash);
      assert stack[done..stackIdx] == [];
      while stackIdx < |stack|
        invariant cache.Valid() && stackIdx <= |stack|
                  && LeftIn(cache.St(), cache.hash, filter, t, from, stack[stackIdx..])
        invariant done <= stackIdx && KeysGone(st0, cache.St(), cache.hash, stack[done..stackIdx])
        decreases |stack| - stackIdx
      {
        ghost var st, rest := cache.St(), stack[stackIdx..];
        GoodSound(st, cache.Header(), cache.hash, cache.loose);
        DeletedLeft(st, cache.hash, filter, t, from, rest, now);
        var item := stack[stackIdx];
        assert rest[0] == item && rest[1..] == stack[stackIdx + 1..];
        OneKeyGone(st0, st, cache.hash, stack[done..stackIdx], item, now);
        assert stack[done..stackIdx] + [item] == stack[done..stackIdx + 1];
        stackIdx := stackIdx + 1;
        var _ := cache.Delete(item.key, now);
      }
      assert stack[stackIdx..] == [] && stack[done..stackIdx] == items;
    }

    /** Deletes what a fresh iterator finds: no wanted entry is left, and all others are. */
    method DeleteAll(t: int, now: int)
      requires cache.Valid() && slotIdx == 0 && stack == [] && stackIdx == 0
      modifies this`slotIdx, this`stack, this`stackIdx, cache`chains, cache.sma, cache.sma.seg, cache.sma.seg.words
      ensures cache.Valid()
      ensures forall key, e: nat {:trigger Binds(cache.St(), cache.hash, key, e)} ::
                Binds(cache.St(), cache.hash, key, e) <==>
                  && Binds(old(cache.St()), cache.hash, key, e)
                  && (HardExpired(ItemAt(old(cache.St()), e), t) || !filter(key))
      ensures forall key, e: nat {:trigger Binds(cache.St(), cache.hash, key, e)} ::
                Binds(cache.St(), cache.hash, key, e) ==> ItemAt(cache.St(), e) == ItemAt(old(cache.St()), e)
    {
      hide Sma.Allocator.Valid, Image, Items, Counters, Good, LeftIn, KeyIn, HardExpired, ItemAt, Listing, ItemsOf,
           KeysGone, OthersLeft, WantedKeys;
      ghost var st0 := cache.St();
      OthersAllLeft(st0, cache.hash, filter, t);
      AllLeft(cache.St(), cache.hash, filter, t);
      var n: nat := 1;
      while n > 0
        invariant cache.Valid() && slotIdx <= cache.nslots && LeftIn(cache.St(), cache.hash, filter, t, slotIdx, [])
        invariant OthersLeft(st0, cache.St(), cache.hash, filter, t)
        invariant n == 0 ==> slotIdx == cache.nslots
        decreases cache.nslots - slotIdx, n
      {
        ghost var from, es := slotIdx, [];
        n, es := FetchActive(t);
        GoodSound(cache.St(), cache.Header(), cache.hash, cache.loose);
        FetchedLeft(cache.St(), cache.hash, filter, t, from, slotIdx, stack, es);
        if n > 0 {
          FetchedSome(cache.St(), from, slotIdx, filter, t, stack, es);
          assert stack[stackIdx..] == stack;
          ghost var st, items := cache.St(), stack;
          FetchedWanted(st, cache.hash, filter, t, from, slotIdx, items, es);
          DeleteChunk(t, now, slotIdx);
          OthersStillLeft(st0, st, cache.St(), cache.hash, filter, t, items);
        } else {
          assert stack == [];
        }
      }
      GoodSound(cache.St(), cache.Header(), cache.hash, cache.loose);
      NothingLeft(cache.St(), cache.hash, filter, t, slotIdx);
      ExactlyLeft(st0, cache.St(), cache.hash, filter, t);
    }
  }

  // ----- References held while a chunk is built -----

  /** One more reference to each of the entries. */
  ghost function Referred(st: State, es: seq<nat>): State {
    if es == [] then st
    else
      var st1, e := Referred(st, es[..|es| - 1]), es[|es| - 1];
      WithMeta(st1, e, REFS, Field(ItemAt(st1, e), REFS) + 1)
  }

  ghost predicate AllPresent(st: State, es: seq<nat>) {
    forall e | e in es :: e in st.items && |st.items[e]| >= KEY - TTL
  }

  ghost predicate AllFree(loose: set<nat>, es: seq<nat>) {
    forall e | e in es :: e !in loose
  }

  ghost predicate AllSound(st: State, hash: Hash, es: seq<nat>) {
    forall e | e in es :: e in st.items && ItemOk(hash, st.items[e])
  }

  /** The states differ in reference counts only. */
  ghost predicate SameButRefs(st: State, st1: State) {
    && st1.chains == st.chains && st1.items.Keys == st.items.Keys
    && forall e {:trigger st1.items[e]} | e in st.items :: SameButRef(st.items[e], st1.items[e])
  }

  ghost predicate SameButRef(c: Item, c1: Item) {
    |c1| == |c| && KeyIn(c1) == KeyIn(c) && forall f: nat | TTL <= f && f != REFS :: Field(c1, f) == Field(c, f)
  }

  lemma ReferredNone(st: State)
    ensures Referred(st, []) == st
  {
  }

  lemma ReferredMore(st: State, es: seq<nat>, e: nat)
    ensures var st1 := Referred(st, es);
            Referred(st, es + [e]) == WithMeta(st1, e, REFS, Field(ItemAt(st1, e), REFS) + 1)
  {
    hide WithMeta, Field, ItemAt;
    assert (es + [e])[..|es|] == es;
  }

  /** Giving the last reference back. */
  lemma ReferredLess(st: State, es: seq<nat>, e: nat)
    ensures var st1, st2 := Referred(st, es), Referred(st, es + [e]);
            e in st2.items <==> e in st1.items
    ensures var st1, st2 := Referred(st, es), Referred(st, es + [e]);
            e in st1.items && |st1.items[e]| >= KEY - TTL ==>
              WithMeta(st2, e, REFS, Field(ItemAt(st2, e), REFS) - 1) == st1
  {
    ReferredMore(st, es, e);
    hide Referred;
    var st1 := Referred(st, es);
    if e in st1.items && |st1.items[e]| >= KEY - TTL {
      var c := st1.items[e];
      assert c[REFS - TTL := Field(c, REFS) + 1][REFS - TTL := Field(c, REFS)] == c;
    }
  }

  lemma {:induction false} ReferredSame(st: State, es: seq<nat>)
    requires AllPresent(st, es)
    ensures SameButRefs(st, Referred(st, es))
    decreases |es|
  {
    hide KeyIn, Field, SameButRef;
    if es == [] {
      SelfSame(st);
    } else {
      var rest, e := es[..|es| - 1], es[|es| - 1];
      ReferredSame(st, rest);
      var st1 := Referred(st, rest);
      var x := Field(ItemAt(st1, e), REFS) + 1;
      assert e in es;
      MetaSame(st1.items[e], st.items[e], x);
    }
  }

  lemma SelfSame(st: State)
    ensures SameButRefs(st, st)
  {
    hide KeyIn, Field;
  }

  lemma MetaSame(c1: Item, c: Item, x: int)
    requires SameButRef(c, c1) && |c| >= KEY - TTL
    ensures SameButRef(c, c1[REFS - TTL := x])
  {
    hide KeyIn;
    MetaItem(c1, REFS, x);
  }

  lemma WantedSame(st: State, st1: State, e: nat, filter: Filter, t: int)
    requires SameButRefs(st, st1) && (e in st.items || e in st1.items)
    ensures Wanted(st1, e, filter, t) <==> Wanted(st, e, filter, t)
    ensures e in st.items && e in st1.items && KeyIn(st1.items[e]) == KeyIn(st.items[e])
            && |st1.items[e]| == |st.items[e]|
    ensures ItemAt(st, e) == st.items[e] && ItemAt(st1, e) == st1.items[e]
    ensures Wanted(st1, e, filter, t) <==> !HardExpired(st1.items[e], t) && filter(KeyIn(st1.items[e]))
  {
    hide KeyIn, Field;
  }

  lemma SameSized(st: State, st1: State, e: nat)
    requires SameButRefs(st, st1) && e in st1.items && |st1.items[e]| >= KEY - TTL
    ensures e in st.items && |st.items[e]| >= KEY - TTL
  {
    hide KeyIn, Field;
  }

  lemma ReferredSized(cache: Cache, st: State, es: seq<nat>)
    requires cache.Valid()
    ensures forall e | e in cache.St().items :: |cache.St().items[e]| >= KEY - TTL
  {
    hide Sma.Allocator.Valid, Image, Items, Good;
    forall e | e in cache.St().items
      ensures |cache.St().items[e]| >= KEY - TTL
    {
      ItemSized(cache.sma.seg.pay, cache.hb, cache.chains, e);
    }
  }

  lemma SoundSame(st: State, st1: State, hash: Hash, es: seq<nat>, i: nat)
    requires SameButRefs(st, st1) && AllSound(st, hash, es) && i < |es| && AllPresent(st, es)
    ensures es[i] in st1.items && ItemOk(hash, st1.items[es[i]]) && |st1.items[es[i]]| >= KEY - TTL
    ensures KeyIn(st1.items[es[i]]) == KeyIn(ItemAt(st, es[i]))
  {
    hide KeyIn, Field;
  }

  lemma ListingSound(st: State, hash: Hash, a: nat, b: nat, filter: Filter, t: int)
    requires Sound(st, hash) && a <= b < |st.chains|
    ensures AllSound(st, hash, Listing(st, a, b, filter, t))
  {
    hide Placed, Separate, Wanted, ItemOk, Listing;
    forall e | e in Listing(st, a, b, filter, t)
      ensures e in st.items && ItemOk(hash, st.items[e])
    {
      ListingMembers(st, a, b, filter, t, e);
      var k :| a < k <= b && e in st.chains[k] && Wanted(st, e, filter, t);
      var i :| 0 <= i < |st.chains[k]| && st.chains[k][i] == e;
      SlotItem(st, hash, k, i);
    }
  }

  lemma SlotItem(st: State, hash: Hash, k: nat, i: nat)
    requires Placed(st, hash) && CacheModel.At(st, k, i) && k > 0
    ensures st.chains[k][i] in st.items && ItemOk(hash, st.items[st.chains[k][i]])
  {
    assert InPlace(st, hash, k, st.chains[k][i]);
  }

  lemma WantedNone(st: State, filter: Filter, t: int)
    ensures WantedIn(st, [], filter, t) == []
  {
  }

  lemma ListingNone(st: State, a: nat, filter: Filter, t: int)
    requires a < |st.chains|
    ensures Listing(st, a, a, filter, t) == []
  {
  }

  lemma TotalsNone(st: State)
    ensures Sizes(st, []) == 0 && HitsOf(st, []) == 0
  {
  }

  lemma ItemsSized(st: State, items: seq<Shown>, es: seq<nat>)
    requires ItemsOf(st, items, es)
    ensures |es| == |items|
  {
  }

  lemma ItemsStart(st: State)
    ensures ItemsOf(st, [], [])
  {
  }

  lemma ItemsAppend(st: State, items: seq<Shown>, es: seq<nat>, e: nat)
    requires ItemsOf(st, items, es)
    ensures ItemsOf(st, items + [Shown(e, KeyIn(ItemAt(st, e)))], es + [e]) && |items| == |es|
  {
    hide KeyIn, ItemAt;
  }

  lemma AtNext(ys: seq<nat>, es: seq<nat>, i: nat, rest: seq<nat>)
    requires i < |es|
    ensures ys + [es[i]] + es[i + 1..] + rest == ys + es[i..] + rest
  {
  }

  lemma FieldWords(c: Item)
    requires |c| >= KEY - TTL
    ensures Field(c, MEMSIZE) == c[MEMSIZE - TTL] && Field(c, NHITS) == c[NHITS - TTL]
  {
  }

  // ----- What is left to delete -----

  /** Every wanted entry is in a slot that was not fetched yet, or its key is among the items. */
  ghost predicate LeftIn(st: State, hash: Hash, filter: Filter, t: int, from: nat, items: seq<Shown>) {
    forall key, e: nat {:trigger Binds(st, hash, key, e)} | Binds(st, hash, key, e) && !HardExpired(ItemAt(st, e), t)
           && filter(key) ::
      SlotOf(st, hash, key) > from || exists i :: 0 <= i < |items| && items[i].key == key
  }

  lemma AllLeft(st: State, hash: Hash, filter: Filter, t: int)
    ensures LeftIn(st, hash, filter, t, 0, [])
  {
    hide HardExpired, KeyIn;
  }

  lemma NothingLeft(st: State, hash: Hash, filter: Filter, t: int, from: nat)
    requires LeftIn(st, hash, filter, t, from, []) && Sound(st, hash) && from + 1 == |st.chains|
    ensures forall key, e: nat :: Binds(st, hash, key, e) ==> HardExpired(ItemAt(st, e), t) || !filter(key)
  {
    hide HardExpired, Sound, ItemAt, Binds;
    SoundSized(st, hash);
    forall key, e: nat | Binds(st, hash, key, e)
      ensures HardExpired(ItemAt(st, e), t) || !filter(key)
    {
      BindsSlot(st, hash, key);
    }
  }

  lemma DeletedLeft(st: State, hash: Hash, filter: Filter, t: int, from: nat, items: seq<Shown>, now: int)
    requires Sound(st, hash) && LeftIn(st, hash, filter, t, from, items) && items != []
    ensures |st.chains| > 1
    ensures LeftIn(CacheModel.Delete(st, hash, items[0].key, now).0, hash, filter, t, from, items[1..])
  {
    hide HardExpired, Sound, ItemAt, Binds, Delete;
    SoundSized(st, hash);
    DeleteRefines(st, hash, items[0].key, now);
    var st1 := CacheModel.Delete(st, hash, items[0].key, now).0;
    SameSlotCount(st, hash, items[0].key, now);
    forall key, e: nat | Binds(st1, hash, key, e) && !HardExpired(ItemAt(st1, e), t) && filter(key)
      ensures SlotOf(st1, hash, key) > from || exists i :: 0 <= i < |items[1..]| && items[1..][i].key == key
    {
      assert key != items[0].key;
      assert Binds(st, hash, key, e);
      if SlotOf(st, hash, key) <= from {
        var i :| 0 <= i < |items| && items[i].key == key;
        assert items[1..][i - 1] == items[i];
      }
    }
  }

  lemma SameSlotCount(st: State, hash: Hash, key: seq<int>, now: int)
    requires |st.chains| > 1
    ensures |CacheModel.Delete(st, hash, key, now).0.chains| == |st.chains|
    ensures forall key' :: SlotOf(CacheModel.Delete(st, hash, key, now).0, hash, key') == SlotOf(st, hash, key')
  {
    hide KeyIn, Field, ItemAt;
  }

  /** What was fetched is among the items now. */
  lemma FetchedLeft(st: State, hash: Hash, filter: Filter, t: int, from: nat, to: nat, items: seq<Shown>, es: seq<nat>)
    requires Sound(st, hash) && LeftIn(st, hash, filter, t, from, []) && from <= to < |st.chains|
    requires es == Listing(st, from, to, filter, t) && ItemsOf(st, items, es)
    ensures LeftIn(st, hash, filter, t, to, items)
  {
    hide HardExpired, Sound, ItemAt, KeyIn, Listing;
    forall key, e: nat | Binds(st, hash, key, e) && !HardExpired(ItemAt(st, e), t) && filter(key)
      ensures SlotOf(st, hash, key) > to || exists i :: 0 <= i < |items| && items[i].key == key
    {
      if SlotOf(st, hash, key) <= to {
        ListingMembers(st, from, to, filter, t, e);
        assert e in es;
        var i :| 0 <= i < |es| && es[i] == e;
        assert items[i].key == key;
      }
    }
  }

  /** A chunk that is not empty comes from at least one slot. */
  lemma FetchedSome(st: State, from: nat, to: nat, filter: Filter, t: int, items: seq<Shown>, es: seq<nat>)
    requires from <= to < |st.chains| && es == Listing(st, from, to, filter, t) && ItemsOf(st, items, es) && items != []
    ensures from < to
  {
    hide KeyIn, WantedIn;
  }

  // ----- What is not deleted -----

  ghost predicate HasKey(items: seq<Shown>, key: seq<int>) {
    exists i :: 0 <= i < |items| && items[i].key == key
  }

  /** Exactly the keys of the items are no longer bound; the others keep their contents. */
  ghost predicate KeysGone(st: State, st1: State, hash: Hash, items: seq<Shown>) {
    forall key, e: nat {:trigger Binds(st1, hash, key, e)} {:trigger Binds(st, hash, key, e)} ::
      && (Binds(st1, hash, key, e) <==> Binds(st, hash, key, e) && !HasKey(items, key))
      && (Binds(st1, hash, key, e) ==> ItemAt(st1, e) == ItemAt(st, e))
  }

  lemma NoKeysGone(st: State, hash: Hash)
    ensures KeysGone(st, st, hash, [])
  {
    hide Binds;
  }

  lemma OneKeyGone(st0: State, st: State, hash: Hash, items: seq<Shown>, item: Shown, now: int)
    requires Sound(st, hash) && KeysGone(st0, st, hash, items)
    ensures |st.chains| > 1
    ensures KeysGone(st0, CacheModel.Delete(st, hash, item.key, now).0, hash, items + [item])
  {
    hide Sound, Binds, Delete, ItemAt, HasKey;
    SoundSized(st, hash);
    DeleteRefines(st, hash, item.key, now);
    forall key
      ensures HasKey(items + [item], key) <==> HasKey(items, key) || key == item.key
    {
      HasKeyMore(items, item, key);
    }
  }

  lemma HasKeyMore(items: seq<Shown>, item: Shown, key: seq<int>)
    ensures HasKey(items + [item], key) <==> HasKey(items, key) || key == item.key
  {
    var more := items + [item];
    assert more[|items|] == item;
    if HasKey(items, key) {
      var i :| 0 <= i < |items| && items[i].key == key;
      assert more[i].key == key;
    }
  }

  /** The keys of the items are wanted ones. */
  ghost predicate WantedKeys(st: State, hash: Hash, filter: Filter, t: int, items: seq<Shown>) {
    forall key | HasKey(items, key) ::
      filter(key) && forall e: nat | Binds(st, hash, key, e) :: !HardExpired(ItemAt(st, e), t)
  }

  lemma FetchedWanted(st: State, hash: Hash, filter: Filter, t: int, from: nat, to: nat, items: seq<Shown>,
                      es: seq<nat>)
    requires Sound(st, hash) && from <= to < |st.chains|
    requires es == Listing(st, from, to, filter, t) && ItemsOf(st, items, es)
    ensures WantedKeys(st, hash, filter, t, items)
  {
    hide HardExpired, Sound, ItemAt, KeyIn, Listing, Binds;
    forall key | HasKey(items, key)
      ensures filter(key) && forall e: nat | Binds(st, hash, key, e) :: !HardExpired(ItemAt(st, e), t)
    {
      var i :| 0 <= i < |items| && items[i].key == key;
      ListingMembers(st, from, to, filter, t, es[i]);
      ListedBinds(st, hash, from, to, es[i]);
      forall e: nat | Binds(st, hash, key, e)
        ensures e == es[i]
      {
        BoundOnce(st, hash, key, e, es[i]);
      }
    }
  }

  lemma ListedBinds(st: State, hash: Hash, from: nat, to: nat, e: nat)
    requires Sound(st, hash) && to < |st.chains|
    ensures (exists k :: from < k <= to && e in st.chains[k]) ==> Binds(st, hash, KeyIn(ItemAt(st, e)), e)
  {
    hide Placed, Separate, KeyIn, ItemAt, Binds;
    if k :| from < k <= to && e in st.chains[k] {
      var i :| 0 <= i < |st.chains[k]| && st.chains[k][i] == e;
      BindsAt(st, hash, k, i);
    }
  }

  /** A key is bound to one entry only. */
  lemma BoundOnce(st: State, hash: Hash, key: seq<int>, e: nat, f: nat)
    requires Sound(st, hash) && Binds(st, hash, key, e) && Binds(st, hash, key, f)
    ensures e == f
  {
    hide KeyIn, ItemAt, Separate;
    var k := SlotOf(st, hash, key);
    var i :| 0 <= i < |st.chains[k]| && st.chains[k][i] == e;
    var j :| 0 <= j < |st.chains[k]| && st.chains[k][j] == f;
    BindsSlot(st, hash, key);
    UniqueKey(st, hash, k, i, j);
  }

  /** What is not bound any more was wanted; the rest keeps its contents. */
  ghost predicate OthersLeft(st: State, st1: State, hash: Hash, filter: Filter, t: int) {
    forall key, e: nat {:trigger Binds(st1, hash, key, e)} {:trigger Binds(st, hash, key, e)} ::
      && (Binds(st1, hash, key, e) ==> Binds(st, hash, key, e) && ItemAt(st1, e) == ItemAt(st, e))
      && (Binds(st, hash, key, e) && !Binds(st1, hash, key, e) ==> !HardExpired(ItemAt(st, e), t) && filter(key))
  }

  lemma OthersAllLeft(st: State, hash: Hash, filter: Filter, t: int)
    ensures OthersLeft(st, st, hash, filter, t)
  {
    hide Binds, HardExpired;
  }

  lemma OthersStillLeft(st: State, st1: State, st2: State, hash: Hash, filter: Filter, t: int, items: seq<Shown>)
    requires OthersLeft(st, st1, hash, filter, t) && KeysGone(st1, st2, hash, items)
    requires WantedKeys(st1, hash, filter, t, items)
    ensures OthersLeft(st, st2, hash, filter, t)
  {
    hide Binds, HardExpired, ItemAt, HasKey;
  }

  lemma ExactlyLeft(st: State, st1: State, hash: Hash, filter: Filter, t: int)
    requires OthersLeft(st, st1, hash, filter, t)
    requires forall key, e: nat :: Binds(st1, hash, key, e) ==> HardExpired(ItemAt(st1, e), t) || !filter(key)
    ensures forall key, e: nat {:trigger Binds(st1, hash, key, e)} ::
              && (Binds(st1, hash, key, e) <==>
                    Binds(st, hash, key, e) && (HardExpired(ItemAt(st, e), t) || !filter(key)))
              && (Binds(st1, hash, key, e) ==> ItemAt(st1, e) == ItemAt(st, e))
  {
    hide Binds, HardExpired, ItemAt;
  }
}
