/** Values in the cache: the words of an entry determine the graph that they spell, at whatever
    address they are found, so a value comes back from the cache as it was stored. */
module Roundtrip {
  import opened HeapModel
  import opened Packing
  import opened CacheLists
  import opened CacheModel
  import opened CacheImage
  import opened CacheState
  import opened Expunging
  import opened CacheStore
  import opened ValueGraph
  import opened PersistCalc
  import opened Reachable
  import opened CopyState
  import opened Persist
  import opened RefCount
  import opened EntryWords
  import opened Unpersist
  import Protocol
  import Sma

  // ----- The words determine the graph -----

  predicate SameKind(o: Obj, o1: Obj) {
    (o.Text? && o1.Text?) || (o.Cell? && o1.Cell?) || (o.Table? && o1.Table?)
  }

  /** The objects of the two graphs at the same places, if they are of the same kind. */
  ghost function SamePlaces(v: View, r: set<nat>, w: View, s: set<nat>): (m: map<nat, nat>)
    ensures m.Keys <= r && forall x | x in m :: v.base <= x && w.base <= m[x]
  {
    map a | a in r && v.base <= a && a in v.mem && a - v.base + w.base in s && a - v.base + w.base in w.mem
            && SameKind(v.mem[a], w.mem[a - v.base + w.base]) :: a - v.base + w.base
  }

  lemma ValReads(v: View, r: set<nat>, w: View, s: set<nat>, z: Zval)
    requires ValOk(v, r, z) && ValOk(w, s, z) && !z.Other? && v.mark == w.mark && Closed(v, r) && LiveIn(v, r)
    ensures ValMatch(v, w, SamePlaces(v, r, w, s), z, z)
  {
    hide EmptyArr, LiveIn, Closed;
    if z.Arr? {
      if z.p == v.mark {
        MarkEmpty(v);
      } else {
        ArrayHasElements(v, r, z.p);
      }
    }
  }

  lemma TextReads(hash: Hash, body: seq<int>, v: View, w: View, p: nat)
    requires Spells(hash, body, v) && Spells(hash, body, w) && TextAt(v, p) && TextAt(w, p)
    ensures v.mem[v.base + p] == w.mem[w.base + p]
  {
    TextRead(hash, body, v, p);
    TextRead(hash, body, w, p);
  }

  /** Buckets that are read as the same one match. */
  lemma BucketsAgree(hash: Hash, body: seq<int>, v: View, r: set<nat>, w: View, s: set<nat>, packed: bool, b: Bucket,
                     b1: Bucket, b2: Bucket)
    requires Reads(hash, body, v, r) && Reads(hash, body, w, s) && LiveIn(v, r) && !b.val.Other?
    requires BucketOk(v, r, packed, b) && BucketOk(w, s, packed, b1)
    requires BucketAlike(packed, b, b2) && BucketAlike(packed, b1, b2)
    ensures BucketMatch(v, w, SamePlaces(v, r, w, s), 0, packed, b, b1)
  {
    hide LiveIn, Closed, ValMatch, ValOk, Spells, SamePlaces;
    if !b.val.Undef? {
      ValReads(v, r, w, s, b.val);
      if !packed && b.key.Some? {
        TextReads(hash, body, v, w, b.key.value);
      }
    }
  }

  lemma TableBuckets(v: View, r: set<nat>, p: nat)
    requires Closed(v, r) && v.base + p in r && TableAt(v, p)
    ensures var t := v.mem[v.base + p];
            var bs := v.mem[v.base + t.data].buckets;
            BucketsOk(v, r, t.packed, bs)
  {
    hide BucketOk;
    assert NodeOk(v, r, v.base + p);
  }

  lemma TableLive(v: View, r: set<nat>, p: nat)
    requires LiveIn(v, r) && v.base + p in r && TableAt(v, p)
    ensures var t := v.mem[v.base + p];
            var bs := v.mem[v.base + t.data].buckets;
            !NoneLive(bs) && NoOther(bs) && (t.keyless && !t.packed ==> Keyless(bs))
  {
    hide Keyless, NoOther;
    assert LiveNode(v, v.base + p);
    assert DataOf(v, v.base + p) == v.mem[v.base + v.mem[v.base + p].data];
  }

  lemma HeadsRead(hash: Hash, body: seq<int>, v: View, r: set<nat>, p: nat)
    requires Reads(hash, body, v, r) && v.base + p in r && TableAt(v, p)
    ensures var t := v.mem[v.base + p];
            ReadTable(body, p) == t && DataAlike(v.mem[v.base + t.data], ReadData(body, p))
  {
    hide ValOk, Spells, ReadTable, ReadData, DataAlike, Closed;
    TableBuckets(v, r, p);
    HeadRead(hash, body, v, p);
    DataRead(hash, body, v, p);
  }

  lemma TableReads(hash: Hash, body: seq<int>, v: View, r: set<nat>, w: View, s: set<nat>, p: nat)
    requires Reads(hash, body, v, r) && Reads(hash, body, w, s) && LiveIn(v, r)
    requires v.base + p in r && TableAt(v, p) && w.base + p in s && TableAt(w, p)
    ensures TableMatch(v, w, SamePlaces(v, r, w, s), 0, v.base + p, w.base + p)
  {
    hide ValMatch, ValOk, Spells, SamePlaces, KeyMatch, BucketMatch, BucketOk, LiveIn, Keyless, Closed, NoneLive,
         BucketAlike, ReadTable, ReadData;
    TableBuckets(v, r, p);
    TableBuckets(w, s, p);
    TableLive(v, r, p);
    HeadsRead(hash, body, v, r, p);
    HeadsRead(hash, body, w, s, p);
    var t := v.mem[v.base + p];
    assert w.mem[w.base + p] == t;
    var xs, ys := v.mem[v.base + t.data].buckets, w.mem[w.base + t.data].buckets;
    forall i | 0 <= i < |xs|
      ensures BucketMatch(v, w, SamePlaces(v, r, w, s), 0, t.packed, xs[i], ys[i])
    {
      assert BucketOk(v, r, t.packed, xs[i]) && BucketOk(w, s, t.packed, ys[i]);
      BucketsAgree(hash, body, v, r, w, s, t.packed, xs[i], ys[i], ReadData(body, p).buckets[i]);
    }
    if t.keyless && !t.packed {
      StillKeyless(v, w, SamePlaces(v, r, w, s), xs, ys);
    }
  }

  lemma StillKeyless(v: View, w: View, m: map<nat, nat>, xs: seq<Bucket>, ys: seq<Bucket>)
    requires BucketsMatch(v, w, m, 0, false, xs, ys) && Keyless(xs)
    ensures Keyless(ys)
  {
    hide ValMatch;
    forall i | 0 <= i < |ys|
      ensures ys[i].val.Undef? || ys[i].key.None?
    {
      assert BucketMatch(v, w, m, 0, false, xs[i], ys[i]);
    }
  }

  lemma PlaceReads(v: View, r: set<nat>, w: View, s: set<nat>, x: nat)
    requires x in SamePlaces(v, r, w, s) && Closed(v, r) && Closed(w, s)
    ensures var p := x - v.base;
            && p >= 0 && SamePlaces(v, r, w, s)[x] == w.base + p && x == v.base + p && NodeOk(v, r, v.base + p)
            && NodeOk(w, s, w.base + p) && x in r && w.base + p in s && SameKind(v.mem[v.base + p], w.mem[w.base + p])
  {
    hide NodeOk;
    assert NodeOk(v, r, x) && NodeOk(w, s, x - v.base + w.base);
  }

  lemma NodeReads(hash: Hash, body: seq<int>, v: View, r: set<nat>, w: View, s: set<nat>, x: nat)
    requires Reads(hash, body, v, r) && Reads(hash, body, w, s) && LiveIn(v, r) && x in SamePlaces(v, r, w, s)
    ensures Match(v, w, SamePlaces(v, r, w, s), 0, x)
  {
    hide ValMatch, Spells, SamePlaces, TableMatch, LiveIn, Closed, ValOk, EmptyArr, BucketsOk, Keyless;
    PlaceReads(v, r, w, s, x);
    var p := x - v.base;
    if v.mem[x].Text? {
      TextReads(hash, body, v, w, p);
    } else if v.mem[x].Cell? {
      CellRead(hash, body, v, p);
      CellRead(hash, body, w, p);
      CellLive(v, r, p);
      ValReads(v, r, w, s, v.mem[x].val);
    } else {
      TableReads(hash, body, v, r, w, s, p);
    }
  }

  lemma CellLive(v: View, r: set<nat>, p: nat)
    requires LiveIn(v, r) && v.base + p in r && CellAt(v, p)
    ensures !v.mem[v.base + p].val.Other?
  {
    assert LiveNode(v, v.base + p);
  }

  /** Two graphs that are spelled by the same words are the same, wherever the words are. */
  lemma SameWordsSameGraph(hash: Hash, body: seq<int>, v: View, r: set<nat>, w: View, s: set<nat>)
    requires Reads(hash, body, v, r) && Reads(hash, body, w, s) && LiveIn(v, r) && !v.mem[v.base].val.Other?
    ensures var z := v.mem[v.base].val;
            && w.mem[w.base].val == z && Isomorphic(v, z, w, z, SamePlaces(v, r, w, s))
            && Closed(w, SamePlaces(v, r, w, s).Values) && ValOk(w, SamePlaces(v, r, w, s).Values, z)
  {
    hide ValMatch, Match, Spells, LiveIn, Closed, ValOk;
    EntryRead(hash, body, v);
    EntryRead(hash, body, w);
    var z, m := v.mem[v.base].val, SamePlaces(v, r, w, s);
    ValReads(v, r, w, s, z);
    forall x | x in m
      ensures Match(v, w, m, 0, x)
    {
      NodeReads(hash, body, v, r, w, s, x);
    }
    BaseApart(w, s);
    CopyClosed(v, r, z, w, z, m);
  }

  lemma BaseApart(w: View, s: set<nat>)
    requires Closed(w, s) && w.base in w.mem && w.mem[w.base].Entry?
    ensures w.base !in s
  {
    assert w.base in s ==> NodeOk(w, s, w.base);
  }

  // ----- The key among the words -----

  lemma SpelledKey(hash: Hash, body: seq<int>, v: View)
    requires Spells(hash, body, v) && v.base in v.mem && v.mem[v.base].Entry?
    ensures KeyedBody(hash, body, v.mem[v.base].key)
  {
    hide ValWords, Pack, Unpack;
    assert Spelled(hash, body, v, v.base);
    var xs, key := ObjWords(hash, v, v.base), v.mem[v.base].key;
    assert body[..|xs|] == xs;
    assert xs[HASH - VAL] == hash(key) && xs[KEYLEN - VAL] == |key|;
    assert body[KEY - VAL..][..|key| / 8 + 1] == Pack(key);
    UnpackSame(body[KEY - VAL..], Pack(key), |key|);
    UnpackPack(key);
  }

  // ----- What the words of an entry carry -----

  /** A graph that the words spell, which can be rebuilt. */
  ghost predicate Rebuildable(hash: Hash, body: seq<int>, w: View, s: set<nat>) {
    && Reads(hash, body, w, s) && LiveIn(w, s)
    && !w.mem[w.base].val.Other? && !w.mem[w.base].val.Ref?
  }

  ghost predicate RebuildableAt(hash: Hash, body: seq<int>, base: nat) {
    exists w: View, s: set<nat> :: w.base == base && Rebuildable(hash, body, w, s)
  }

  /** The value of the entry in `w` is the same graph as that below `z`. */
  ghost predicate SameValue(src: View, z: Zval, w: View) {
    w.base in w.mem && w.mem[w.base].Entry? && exists g: map<nat, nat> :: Isomorphic(src, z, w, w.mem[w.base].val, g)
  }

  /** The words carry the value: they spell a graph, wherever they are, and whatever graph they
      spell is that of the value. */
  ghost predicate Carries(hash: Hash, body: seq<int>, src: View, z: Zval) {
    && (forall base: nat {:trigger RebuildableAt(hash, body, base)} :: RebuildableAt(hash, body, base))
    && (forall w: View, s: set<nat> {:trigger Reads(hash, body, w, s)} ::
          Reads(hash, body, w, s) ==> SameValue(src, z, w))
  }

  /** The words of a persisted entry carry its value. */
  lemma EntryCarries(hash: Hash, body: seq<int>, src: View, r: set<nat>, z: Zval, dst: View, key: seq<Byte>, size: nat,
                     m: map<nat, nat>)
    requires EntryOf(src, z, dst, key, size, m) && Closed(src, r) && ValOk(src, r, z) && m.Keys <= r && !z.Ref?
    requires OneRefs(dst.mem) && Spells(hash, body, dst)
    ensures Carries(hash, body, src, z)
  {
    hide EntryOf, Isomorphic, Closed, ValOk, OneRefs, Spells, MovedTo, Shift, LiveIn, SamePlaces;
    forall base: nat
      ensures RebuildableAt(hash, body, base)
    {
      MovedReads(hash, body, src, r, z, dst, key, size, m, base);
      assert Rebuildable(hash, body, MovedTo(dst, base), Shift(m, dst.base, base).Values);
    }
    MovedReads(hash, body, src, r, z, dst, key, size, m, 0);
    var v, m2 := MovedTo(dst, 0), Shift(m, dst.base, 0);
    forall w: View, s: set<nat> | Reads(hash, body, w, s)
      ensures SameValue(src, z, w)
    {
      SameWordsSameGraph(hash, body, v, m2.Values, w, s);
      var z2 := v.mem[0].val;
      IsomorphicThen(src, z, v, z2, w, z2, m2, SamePlaces(v, m2.Values, w, s));
    }
  }

  lemma ScalarSize(src: View, r: set<nat>, z: Zval)
    requires z.Scalar?
    ensures CalcVal(src, r, z, {}).size == 0
  {
  }

  /** An entry with a scalar has no words but those of its value and its key. */
  lemma ScalarWords(hash: Hash, body: seq<int>, src: View, z: Zval, dst: View, key: seq<Byte>, size: nat,
                    m: map<nat, nat>)
    requires EntryOf(src, z, dst, key, size, m) && Spells(hash, body, dst) && z.Scalar?
    requires |body| == |key| / 8 + 6
    ensures body == EntryBody(hash, key, z)
  {
    hide ValWords, Pack, Match;
    assert Spelled(hash, body, dst, dst.base);
    assert body[0..|body|] == body;
  }

  // ----- Storing a value and finding it again -----

  lemma StoredWhen(st: State, st1: State, hash: Hash, key: seq<int>, c: Item, exclusive: bool, cacheTtl: int, t: int,
                   ok: bool, memory: bool)
    requires memory ==> StoreEffect(st, st1, hash, key, c, exclusive, cacheTtl, t, ok)
    ensures memory ==> (ok <==> !(exclusive && Taken(st, hash, key, t)))
  {
  }

  /** A store from `p` to `q` of the entry `c`: the request for memory leads to `made`.  The store
      succeeds if and only if memory was found, and an exclusive one found the key free. */
  ghost predicate Tried(cfg: Setting, p: Point, made: Point, q: Point, hash: Hash, key: seq<int>, c: Item,
                        exclusive: bool, want: Demand, rivals: seq<seq<Rival>>, last: Option<int>, stored: bool) {
    exists memory: bool ::
      && Mallocated(cfg, p, made, memory, want, rivals)
      && MadeRoom(p.st, made.st, hash, want.n > want.maxAlloc, RoomFor(p.heap, want.n), memory,
                  RoomFor(made.heap, want.n), cfg.ttl, last)
      && (stored <==> memory && !(exclusive && Taken(made.st, hash, key, want.t)))
      && if memory then StoreEffect(made.st, q.st, hash, key, c, exclusive, cfg.ttl, want.t, stored) else q == made
  }

  /** Persists a value and stores it: fails on values from which an object or a resource can be
      reached, if the key is taken, or for lack of memory; else the words `body` under the key
      carry the value. */
  method StoreValue(cache: Cache, src: View, key: seq<Byte>, z: Zval, life: int, exclusive: bool, extra: nat,
                    total: nat, maxAlloc: nat, t: int, now: int, rivals: seq<seq<Rival>>, ghost r: set<nat>)
    returns (outcome: Outcome, stored: bool, ghost body: seq<int>, ghost made: Point, ghost last: Option<int>)
    requires cache.Valid() && Closed(src, r) && ValOk(src, r, z) && !z.Ref?
    modifies cache, cache.sma, cache.sma.seg, cache.sma.seg.words
    ensures cache.Valid() && cache.loose == old(cache.loose) && (outcome.Fine? <==> Plain(src, z))
    ensures !outcome.Fine? ==> !stored && cache.St() == old(cache.St())
    ensures outcome.Fine? ==>
      var n := EntrySize(|key|) + CalcVal(src, r, z, {}).size;
      && Carries(cache.hash, body, src, z) && KeyedBody(cache.hash, body, key)
      && (z.Scalar? ==> body == EntryBody(cache.hash, key, z))
      && Tried(old(cache.Fixed(total)), old(cache.Here()), made, cache.Here(), cache.hash, key,
               NewEntry(body, life, t, 0), exclusive, Demand(n, extra, maxAlloc, t, now), rivals, last, stored)
    ensures stored ==>
      StoreEffect(made.st, cache.St(), cache.hash, key, NewEntry(body, life, t, 0), exclusive, cache.ttl, t, true)
  {
    hide Sma.Allocator.Valid, Image, Items, Counters, Good, Closed, ValOk, Plain, EntryOf, OneRefs, Room, CalcVal,
         Bytes, Spells, Carries, KeyedBody, MadeRoom, StoreEffect, NewEntry, BehindMeta, KeysPrivate, WordAligned,
         Mallocated, RoomFor;
    stored, body, made, last := false, [], cache.Here(), None;
    var size: nat;
    size, outcome := Measure(src, key, z, r);
    if !outcome.Fine? {
      return;
    }
    var mem: Memory;
    ghost var m: map<nat, nat>;
    mem, m := CreateEntry(src, key, z, 0, size, r);
    var dst := View(mem, 0, 0);
    EntryFirst(src, z, dst, key, size, m);
    var words := Lay(cache.hash, dst, size / 8 - VAL);
    body := words;
    SpelledKey(cache.hash, words, dst);
    EntryCarries(cache.hash, words, src, r, z, dst, key, size, m);
    if z.Scalar? {
      ScalarSize(src, r, z);
      ScalarWords(cache.hash, words, src, z, dst, key, size, m);
    }
    assert (VAL + |words|) * Sma.WORD == size;
    ghost var memory: bool;
    stored, made, memory, last := cache.Store(key, words, life, exclusive, extra, total, maxAlloc, t, now, rivals);
    StoredWhen(made.st, cache.St(), cache.hash, key, NewEntry(words, life, t, 0), exclusive, cache.ttl, t, stored,
               memory);
  }

  // ----- Fetching -----

  /** Reads the words of an entry, from its value on. */
  method CopyWords(cache: Cache, e: nat) returns (words: seq<int>)
    requires cache.Valid() && e in cache.St().items && Whole(cache.St().items[e])
    ensures words == BodyOf(cache.St().items[e])
  {
    hide Sma.Allocator.Valid, Image, Items, Counters, Good;
    ghost var body := BodyOf(cache.St().items[e]);
    words := [];
    var n := cache.ReadField(e, MEMSIZE) - VAL;
    for i := 0 to n
      invariant words == body[..i]
    {
      words := words + [cache.ReadField(e, VAL + i)];
    }
  }

  /** Referring to an entry and giving the reference back. */
  ghost function WithPin(st: State, e: nat): State {
    WithMeta(st, e, REFS, Field(ItemAt(st, e), REFS) + 1)
  }

  lemma PinnedWords(st: State, e: nat)
    requires e in st.items && Whole(st.items[e])
    ensures var st1 := WithPin(st, e);
            && e in st1.items && Whole(st1.items[e]) && BodyOf(st1.items[e]) == BodyOf(st.items[e])
            && WithMeta(st1, e, REFS, Field(ItemAt(st1, e), REFS) - 1) == st
  {
    hide Whole, BodyOf;
    var c := st.items[e];
    assert |c| >= KEY - TTL by {
      WholeSized(c);
    }
    MetaBody(c, REFS, Field(c, REFS) + 1);
    assert c[REFS - TTL := Field(c, REFS) + 1][REFS - TTL := Field(c, REFS)] == c;
  }

  lemma WholeSized(c: Item)
    requires Whole(c)
    ensures |c| >= KEY - TTL
  {
  }

  lemma AccessedWords(st: State, st1: State, e: nat, t: int)
    requires e in st.items && Whole(st.items[e]) && Accessed(st, st1, e, t)
    ensures e in st1.items && Whole(st1.items[e]) && BodyOf(st1.items[e]) == BodyOf(st.items[e])
  {
    hide Whole, BodyOf;
    var c := st.items[e];
    WholeSized(c);
    var c1 := c[NHITS - TTL := Field(c, NHITS) + 1];
    MetaBody(c, NHITS, Field(c, NHITS) + 1);
    MetaBody(c1, ATIME, t);
  }

  /** An entry that is found is in a list. */
  lemma FoundListed(st: State, counters: seq<int>, hash: Hash, loose: set<nat>, key: seq<int>, t: int)
    requires Good(st, counters, hash, loose)
    ensures |st.chains| > 1
    ensures Find(st, hash, key, t).Some? ==>
              Find(st, hash, key, t).value in st.items && Find(st, hash, key, t).value !in loose
  {
    hide Good, KeyIn, HardExpired;
    FoundEntry(st, counters, hash, loose, key, t);
    var k := SlotOf(st, hash, key);
    SlotIn(st, counters, hash, loose, key);
    var i := Search(st, k, 0, key);
    if i < |st.chains[k]| {
      ListedNotLoose(st, counters, hash, loose, k, i);
    }
  }

  /** Fetches the value under the key: finds its entry and refers to it, rebuilds the value from
      the words of the entry, and gives the reference back. */
  method FetchStored(cache: Cache, key: seq<int>, t: int, ghost src: View, ghost z: Zval)
    returns (found: Option<nat>, heap: Memory, root: Zval, ghost f: map<nat, nat>)
    requires cache.Valid()
    requires var e := Find(cache.St(), cache.hash, key, t);
             e.Some? ==>
               && Whole(ItemAt(cache.St(), e.value))
               && Carries(cache.hash, BodyOf(ItemAt(cache.St(), e.value)), src, z)
    modifies cache.sma.seg, cache.sma.seg.words
    ensures cache.Valid() && found == Find(old(cache.St()), cache.hash, key, t)
    ensures if found.None? then cache.St() == old(cache.St()) else Accessed(old(cache.St()), cache.St(), found.value, t)
    ensures var f := if found.None? then MISSES else HITS;
            cache.Header() == old(cache.Header())[f := old(cache.Header())[f] + 1]
    ensures found.Some? ==>
      && Isomorphic(src, z, View(heap, 0, EMPTY), root, f) && ExactRefs(heap, root) && AllUsed(heap)
      && KeysPrivate(View(heap, 0, EMPTY), f) && KeysPointedOnce(heap, f, root)
  {
    hide Sma.Allocator.Valid, Image, Items, Counters, Good, CacheModel.Find, Accessed, WithMeta, BodyOf, Whole, Carries,
         Isomorphic, ExactRefs, KeysPrivate, KeysPointedOnce, Field, AllUsed;
    heap, root, f := map[], Undef, map[];
    ghost var st := cache.St();
    FoundListed(st, cache.Header(), cache.hash, cache.loose, key, t);
    found := cache.FindCounted(key, t);
    if found.None? {
      return;
    }
    AccessedWords(st, cache.St(), found.value, t);
    heap, root, f := FetchReferred(cache, found.value, src, z);
  }

  /** Rebuilds the value of the entry `e` while referring to it. */
  method FetchReferred(cache: Cache, e: nat, ghost src: View, ghost z: Zval)
    returns (heap: Memory, root: Zval, ghost f: map<nat, nat>)
    requires cache.Valid() && e in cache.St().items && e !in cache.loose
    requires Whole(cache.St().items[e]) && Carries(cache.hash, BodyOf(cache.St().items[e]), src, z)
    modifies cache.sma.seg, cache.sma.seg.words
    ensures cache.Valid() && cache.St() == old(cache.St()) && cache.Header() == old(cache.Header())
    ensures Isomorphic(src, z, View(heap, 0, EMPTY), root, f) && ExactRefs(heap, root) && AllUsed(heap)
    ensures KeysPrivate(View(heap, 0, EMPTY), f) && KeysPointedOnce(heap, f, root)
  {
    hide Sma.Allocator.Valid, Image, Items, Counters, Good, WithMeta, BodyOf, Whole, Carries, Isomorphic, ExactRefs,
         KeysPrivate, KeysPointedOnce, Field, AllUsed;
    PinnedWords(cache.St(), e);
    cache.IncRef(e);
    var words := CopyWords(cache, e);
    heap, root, f := Rebuild(words, Sma.WORD * e, cache.hash, src, z);
    cache.Release(e);
  }

  /** Rebuilds a value from words that carry it. */
  method Rebuild(words: seq<int>, base: nat, ghost hash: Hash, ghost src: View, ghost z: Zval)
    returns (heap: Memory, root: Zval, ghost f: map<nat, nat>)
    requires Carries(hash, words, src, z)
    ensures Isomorphic(src, z, View(heap, 0, EMPTY), root, f) && ExactRefs(heap, root) && AllUsed(heap)
    ensures KeysPrivate(View(heap, 0, EMPTY), f) && KeysPointedOnce(heap, f, root)
  {
    hide Reads, LiveIn, Isomorphic, ExactRefs, KeysPrivate, KeysPointedOnce, AllUsed;
    assert RebuildableAt(hash, words, base);
    ghost var w: View, s: set<nat> :| w.base == base && Rebuildable(hash, words, w, s);
    assert SameValue(src, z, w);
    ghost var z2 := w.mem[base].val;
    ghost var g: map<nat, nat> :| Isomorphic(src, z, w, z2, g);
    ghost var n: map<nat, nat>;
    heap, root, n := UnpersistEntry(words, base, hash, w, s);
    f := Then(g, n);
    IsInjective(src, z, w, z2, g);
    PrivateThen(View(heap, 0, EMPTY), g, n);
    PointedThen(heap, g, n, root);
    IsomorphicThen(src, z, w, z2, View(heap, 0, EMPTY), root, g, n);
  }

  lemma IsInjective(a: View, z: Zval, b: View, z2: Zval, m: map<nat, nat>)
    requires Isomorphic(a, z, b, z2, m)
    ensures Injective(m)
  {
    hide ValMatch, Match;
  }

  // ----- The whole way -----

  /** Up to the time `end`, if there is one, an entry with the words `body` is found. */
  ghost predicate FoundUntil(st: State, hash: Hash, key: seq<int>, body: seq<int>, end: int, endless: bool, t: int,
                             found: Option<nat>) {
    && |st.chains| > 1 && found == Find(st, hash, key, t) && (found.Some? <==> endless || t <= end)
    && (found.Some? ==> BodyOf(ItemAt(st, found.value)) == body)
  }

  lemma StillUnreferenced(st: State, st1: State, loose: set<nat>)
    requires Relocated(st, st1, loose) && OwnedBy(st, loose)
    ensures Unreferenced(st1) ==> Unreferenced(st)
  {
    hide Field, Separate;
    forall e | Unreferenced(st1) && e in st.items
      ensures Field(st.items[e], REFS) <= 0
    {
      assert OwnedIn(st, loose, e);
      if e !in loose {
        var k, i :| 0 <= k < |st.chains| && 0 <= i < |st.chains[k]| && st.chains[k][i] == e;
        assert SameItem(st, st.chains[k][i], st1, st1.chains[k][i]);
      } else {
        assert SameItem(st, e, st1, e);
      }
    }
  }

  lemma AccessedUnreferenced(st: State, st1: State, found: Option<nat>, t: int)
    requires if found.None? then st1 == st else Accessed(st, st1, found.value, t)
    ensures Unreferenced(st1) ==> Unreferenced(st)
  {
    forall e | Unreferenced(st1) && e in st.items
      ensures Field(st.items[e], REFS) <= 0
    {
      assert Field(st1.items[e], REFS) == Field(st.items[e], REFS);
    }
  }

  /** Stores a value, moves all entries, and fetches it from the words that are then under its
      key: until its time to live is over the same graph comes back, with exact reference
      counts and private keys. */
  method StoreMoveFetch(cache: Cache, src: View, key: seq<Byte>, z: Zval, life: int, exclusive: bool, extra: nat,
                        total: nat, maxAlloc: nat, t: int, now: int, rivals: seq<seq<Rival>>, t1: int,
                        ghost r: set<nat>)
    returns (outcome: Outcome, stored: bool, found: Option<nat>, heap: Memory, root: Zval, ghost f: map<nat, nat>,
             ghost body: seq<int>, ghost made: Point, ghost last: Option<int>, ghost p1: Point, ghost p2: Point)
    requires cache.Valid() && Closed(src, r) && ValOk(src, r, z) && !z.Ref?
    modifies cache, cache.sma, cache.sma.seg, cache.sma.seg.words
    ensures cache.Valid() && (outcome.Fine? <==> Plain(src, z))
    ensures !outcome.Fine? ==> !stored && cache.St() == old(cache.St())
    ensures outcome.Fine? ==>
      var n := EntrySize(|key|) + CalcVal(src, r, z, {}).size;
      && Carries(cache.hash, body, src, z)
      && Tried(old(cache.Fixed(total)), old(cache.Here()), made, p1, cache.hash, key, NewEntry(body, life, t, 0),
               exclusive, Demand(n, extra, maxAlloc, t, now), rivals, last, stored)
    ensures outcome.Fine? && !stored ==> cache.Here() == p1
    ensures stored ==>
      && (Unreferenced(cache.St()) ==> OneFreeBlock(cache.sma.heap)) && cache.sma.heap == p2.heap
      && StoreEffect(made.st, p1.st, cache.hash, key, NewEntry(body, life, t, 0), exclusive, cache.ttl, t, true)
      && MovedTogether(cache.Fixed(total), p1, p2)
      && FoundUntil(p2.st, cache.hash, key, body, t + life, life == 0, t1, found)
    ensures found.Some? ==>
      && stored && Accessed(p2.st, cache.St(), found.value, t1)
      && Isomorphic(src, z, View(heap, 0, EMPTY), root, f) && ExactRefs(heap, root) && AllUsed(heap)
      && KeysPrivate(View(heap, 0, EMPTY), f) && KeysPointedOnce(heap, f, root)
  {
    hide Sma.Allocator.Valid, Image, Items, Counters, Good, Closed, ValOk, Plain, Isomorphic, ExactRefs, KeysPrivate,
         KeysPointedOnce, CalcVal, Carries, KeyedBody, Tried, NewEntry, Relocated, CacheModel.Find, ItemAt, BodyOf,
         Whole, Accessed, StoreEffect, Unreferenced, OneFreeBlock, OwnedBy, MovedTogether, AllUsed;
    found, heap, root, f := None, map[], Undef, map[];
    outcome, stored, body, made, last :=
      StoreValue(cache, src, key, z, life, exclusive, extra, total, maxAlloc, t, now, rivals, r);
    p1, p2 := cache.Here(), cache.Here();
    if !stored {
      return;
    }
    ghost var st1 := cache.St();
    GoodSound(st1, cache.Header(), cache.hash, cache.loose);
    GoodOwned(st1, cache.Header(), cache.hash, cache.loose);
    BodySized(cache.hash, body, key, life, t);
    cache.Compact();
    assert MovedTogether(cache.Fixed(total), p1, cache.Here());
    p2 := cache.Here();
    ghost var st2 := cache.St();
    StoreThenFind(made.st, st1, st2, cache.hash, cache.loose, key, body, life, exclusive, cache.ttl, t, t1);
    NewBody(body, life, t, 0);
    StillUnreferenced(st1, st2, cache.loose);
    found, heap, root, f := FetchStored(cache, key, t1, src, z);
    AccessedUnreferenced(st2, cache.St(), found, t1);
  }

  // ----- Fetching while other processes go on -----

  /** What a reference fixes: all words of a value that is not simple, and that a simple one
      stays simple. */
  lemma WordsBody(c: Item, c1: Item)
    requires |c| >= KEY - TTL && |c1| >= KEY - TTL && Protocol.Words(c1) == Protocol.Words(c)
    ensures Protocol.Simple(c1) == Protocol.Simple(c)
    ensures !Protocol.Simple(c) ==> BodyOf(c1) == BodyOf(c)
    ensures BodyOf(c1)[2..] == BodyOf(c)[2..]
  {
    var ws, ws1 := Protocol.Words(c), Protocol.Words(c1);
    assert ws[1] == ws1[1];
    var n := if Protocol.Simple(c) then 2 else 4;
    assert c[VAL + 2 - TTL..] == ws[n..] && c1[VAL + 2 - TTL..] == ws1[n..];
    if !Protocol.Simple(c) {
      assert c[VAL - TTL..] == ws[2..] && c1[VAL - TTL..] == ws1[2..];
    }
  }

  /** The words of the entry that the reference `t` is to, in the world `w`. */
  ghost function BodyUnder(w: Protocol.World, t: nat): seq<int> {
    if t in w.pins then BodyOf(ItemAt(w.st, w.pins[t].e)) else []
  }

  ghost predicate SimpleUnder(w: Protocol.World, t: nat) {
    t in w.pins && Protocol.Simple(ItemAt(w.st, w.pins[t].e))
  }

  lemma SameBodyUnder(cfg: Protocol.Config, nslots: nat, ws: seq<Protocol.World>, acts: seq<Protocol.Action>, i: nat,
                      j: nat, t: nat)
    requires Protocol.IsRun(cfg, nslots, ws, acts) && Protocol.HeldThrough(ws, acts, i, j, t) && !SimpleUnder(ws[i], t)
    ensures BodyUnder(ws[j], t) == BodyUnder(ws[i], t)
  {
    hide Protocol.IsRun, Protocol.Words, BodyOf, Protocol.Simple, Field;
    Protocol.PinSafety(cfg, nslots, ws, acts, i, j, t);
    Protocol.RunInv(cfg, nslots, ws, acts, i);
    Protocol.RunInv(cfg, nslots, ws, acts, j);
    var e := ws[i].pins[t].e;
    assert ws[j].pins[t].e == e;
    WordsBody(ws[i].st.items[e], ws[j].st.items[e]);
  }

  /** A process that holds a reference may read the words of its entry one by one, each at
      another moment, while the others go on: what it has read spells the graph that was there
      when it got the reference. */
  lemma FetchedWhileHeld(cfg: Protocol.Config, nslots: nat, ws: seq<Protocol.World>, acts: seq<Protocol.Action>, i: nat,
                         j: nat, t: nat, moments: seq<nat>, words: seq<int>, v: View, r: set<nat>)
    requires Protocol.IsRun(cfg, nslots, ws, acts) && Protocol.HeldThrough(ws, acts, i, j, t) && !SimpleUnder(ws[i], t)
    requires |words| == |BodyUnder(ws[i], t)| == |moments|
    requires forall k | 0 <= k < |words| ::
               && i <= moments[k] <= j && k < |BodyUnder(ws[moments[k]], t)|
               && words[k] == BodyUnder(ws[moments[k]], t)[k]
    ensures words == BodyUnder(ws[i], t)
    ensures Reads(cfg.hash, words, v, r) <==> Reads(cfg.hash, BodyUnder(ws[i], t), v, r)
    ensures Reads(cfg.hash, BodyUnder(ws[j], t), v, r) <==> Reads(cfg.hash, BodyUnder(ws[i], t), v, r)
  {
    hide Protocol.IsRun, BodyUnder, SimpleUnder, Reads;
    SameBodyUnder(cfg, nslots, ws, acts, i, j, t);
    forall k | 0 <= k < |words|
      ensures words[k] == BodyUnder(ws[i], t)[k]
    {
      SameBodyUnder(cfg, nslots, ws, acts, i, moments[k], t);
    }
    assert words == BodyUnder(ws[i], t);
  }
}
