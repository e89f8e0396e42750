/** The operations of the cache are the steps of `Protocol`: each method here runs an operation on
    the words of the cache in a world that it is the cache of, and ends in the world after the
    step. */
module Steps {
  import opened HeapModel
  import opened CacheLists
  import opened CacheModel
  import opened CacheImage
  import opened CacheState
  import opened CacheStore
  import opened Expunging
  import opened Protocol
  import Sma
  import Updates

  /** The world is that of the cache. */
  ghost predicate Shows(cache: Cache, cfg: Config, w: World)
    reads cache, cache.sma, cache.sma.seg, cache.sma.seg.words
  {
    && cache.Valid() && cache.St() == w.st && cache.loose == w.loose
    && cfg.hash == cache.hash && cfg.cacheTtl == cache.ttl && cfg.gcTtl == cache.gcTtl
  }

  lemma WorldSized(cache: Cache, cfg: Config, w: World)
    requires Shows(cache, cfg, w)
    ensures |w.st.chains| > 1
  {
    hide Sma.Allocator.Valid, Image, Items, Counters, Good;
    GoodSized(cache.St(), cache.Header(), cache.hash, cache.loose);
  }

  /** Memory for an entry, referenced from the start. */
  method RunCreate(cache: Cache, n: nat, ghost cfg: Config, ghost w: World, ghost tok: nat)
    returns (off: Option<nat>, ghost w1: World)
    requires Shows(cache, cfg, w) && n >= KEY * Sma.WORD && tok !in w.pins
    modifies cache, cache.sma, cache.sma.seg, cache.sma.seg.words
    ensures Shows(cache, cfg, w1) && (off.None? ==> w1 == w)
    ensures off.Some? ==> Next(cfg, w, Create(off.value, ItemAt(w1.st, off.value), tok), w1)
  {
    hide Sma.Allocator.Valid, Image, Items, Counters, Good, RoomFor, TookBlock, Unlisted, Words;
    WorldSized(cache, cfg, w);
    off := cache.TryAllocate(n);
    w1 := w;
    if off.Some? {
      var e := off.value;
      w1 := World(cache.St(), cache.loose, w.pins[tok := Pin(e, Words(ItemAt(cache.St(), e)))]);
    }
  }

  /** Inserting an entry that was made. */
  method RunStore(cache: Cache, key: seq<int>, exclusive: bool, now: int, e: nat, ghost cfg: Config, ghost w: World,
                  ghost tok: nat)
    returns (ok: bool, ghost w1: World)
    requires Shows(cache, cfg, w) && tok in w.pins && w.pins[tok].e == e && e in w.loose
    requires NewItem(w.st, cfg.hash, e, key) && Timely(w, now, cfg.gcTtl)
    modifies cache, cache.sma, cache.sma.seg, cache.sma.seg.words
    ensures Shows(cache, cfg, w1) && Next(cfg, w, Store(tok, exclusive, now), w1)
  {
    hide Sma.Allocator.Valid, Image, Items, Counters, Good, CacheModel.Insert, ItemOk, Timely, OneInsert, KeyIn;
    WorldSized(cache, cfg, w);
    ok := cache.Insert(e, key, exclusive, now);
    w1 := World(cache.St(), cache.loose, w.pins);
  }

  /** Looking a key up, and referring to its entry. */
  method RunFindPin(cache: Cache, key: seq<int>, at: int, ghost cfg: Config, ghost w: World, ghost tok: nat)
    returns (found: Option<nat>, ghost w1: World)
    requires Shows(cache, cfg, w) && tok !in w.pins
    modifies cache.sma.seg, cache.sma.seg.words
    ensures Shows(cache, cfg, w1) && Next(cfg, w, FindPin(key, at, tok), w1)
    ensures found == Find(w.st, cfg.hash, key, at)
  {
    hide Sma.Allocator.Valid, Image, Items, Counters, Good, CacheModel.Find, Accessed, Words, WithMeta, Field, ItemAt;
    WorldSized(cache, cfg, w);
    FoundEntry(w.st, cache.Header(), cache.hash, cache.loose, key, at);
    found := cache.FindCounted(key, at);
    w1 := w;
    if found.Some? {
      var e := found.value;
      ghost var st2 := cache.St();
      AccessedIn(w.st, st2, e, at);
      cache.IncRef(e);
      w1 := Refer(w.(st := st2), e, tok);
    }
  }

  lemma AccessedIn(st: State, st1: State, e: nat, t: int)
    requires Accessed(st, st1, e, t) && e in st.items
    ensures e in st1.items
  {
  }

  /** Releasing a reference. */
  method RunUnpin(cache: Cache, e: nat, ghost cfg: Config, ghost w: World, ghost tok: nat) returns (ghost w1: World)
    requires Shows(cache, cfg, w) && tok in w.pins && w.pins[tok].e == e && e !in w.loose && e in w.st.items
    modifies cache.sma.seg, cache.sma.seg.words
    ensures Shows(cache, cfg, w1) && Next(cfg, w, Unpin(tok), w1)
  {
    hide Sma.Allocator.Valid, Image, Items, Counters, Good, WithMeta, Field, ItemAt;
    WorldSized(cache, cfg, w);
    cache.Release(e);
    w1 := World(cache.St(), w.loose, w.pins - {tok});
  }

  /** Giving up an entry that was made. */
  method RunDiscard(cache: Cache, e: nat, ghost cfg: Config, ghost w: World, ghost tok: nat) returns (ghost w1: World)
    requires Shows(cache, cfg, w) && tok in w.pins && w.pins[tok].e == e && e in w.loose
    modifies cache, cache.sma, cache.sma.seg, cache.sma.seg.words
    ensures Shows(cache, cfg, w1) && Next(cfg, w, Discard(tok), w1)
  {
    hide Sma.Allocator.Valid, Image, Items, Counters, Good;
    WorldSized(cache, cfg, w);
    cache.Discard(e);
    w1 := World(cache.St(), cache.loose, w.pins - {tok});
  }

  /** Updating an integer in place; if its key is not found, or has no integer, nothing happens. */
  method RunUpdate(cache: Cache, key: seq<int>, at: int, updater: int -> (int, bool), ghost cfg: Config, ghost w: World)
    returns (done: Option<bool>, ghost w1: World)
    requires Shows(cache, cfg, w)
    modifies cache.sma.seg, cache.sma.seg.words
    ensures Shows(cache, cfg, w1)
    ensures w1 == w || exists bits: int :: Next(cfg, w, Update(key, at, bits, IS_LONG), w1)
    ensures LongUpdated(w.st, w1.st, cfg.hash, key, at, updater, done)
  {
    hide Sma.Allocator.Valid, Image, Items, Counters, Good, LongUpdated, Next;
    done := cache.UpdateLong(key, at, updater);
    w1 := w.(st := cache.St());
    Updates.UpdateIsStep(cfg, w, w1.st, key, at, updater, done);
  }

  /** Deleting a key. */
  method RunRemove(cache: Cache, key: seq<int>, now: int, ghost cfg: Config, ghost w: World)
    returns (found: bool, ghost w1: World)
    requires Shows(cache, cfg, w)
    modifies cache, cache.sma, cache.sma.seg, cache.sma.seg.words
    ensures Shows(cache, cfg, w1) && Next(cfg, w, Remove(key, now), w1)
  {
    hide Sma.Allocator.Valid, Image, Items, Counters, Good, CacheModel.Delete, SameBut, FreedOnly;
    WorldSized(cache, cfg, w);
    found := cache.Delete(key, now);
    w1 := w.(st := cache.St());
  }

  /** Making room. */
  method RunExpunge(cache: Cache, size: nat, extra: nat, total: nat, at: int, now: int, ghost cfg: Config,
                    ghost w: World)
    returns (ghost w1: World)
    requires Shows(cache, cfg, w) && Timely(w, now, cfg.gcTtl)
    modifies cache, cache.sma, cache.sma.seg, cache.sma.seg.words
    ensures Shows(cache, cfg, w1)
    ensures Next(cfg, w, Expunge(size + extra >= total, RoomFor(cache.sma.heap, size + extra), at, now), w1)
  {
    hide Sma.Allocator.Valid, Image, Items, Counters, Good, Expunged, Timely, RoomFor, ExpungedExactly, PaysOff;
    WorldSized(cache, cfg, w);
    var done := cache.DefaultExpunge(size, extra, cache.ReadCounter(CLEANUPS), total, at, now);
    w1 := w.(st := cache.St());
  }

  /** Emptying the cache. */
  method RunClear(cache: Cache, t: int, now: int, ghost cfg: Config, ghost w: World) returns (ghost w1: World)
    requires Shows(cache, cfg, w) && Timely(w, now, cfg.gcTtl)
    modifies cache, cache.sma, cache.sma.seg, cache.sma.seg.words
    ensures Shows(cache, cfg, w1) && Next(cfg, w, Clear(now), w1)
  {
    hide Sma.Allocator.Valid, Image, Items, Counters, Good, ClearFrom, Collect, Timely, FreedOnly;
    WorldSized(cache, cfg, w);
    cache.Clear(t, now);
    w1 := w.(st := cache.St());
  }
}
