/** The cache in shared memory: hash slots, removed entries, reference counts and expiry. */
module CacheStore {
  import opened Blocks
  import opened Segment
  import FreeList
  import opened HeapModel
  import opened HeapImage
  import opened CacheLists
  import opened CacheMove
  import opened CacheModel
  import opened Packing
  import opened CacheImage
  import opened CacheState
  import opened Expunging
  import DefragModel
  import Sma

  class Cache {
    const sma: Sma.Allocator
    const hb: nat           // address of the cache header
    const nslots: nat
    const ttl: int          // entries unused for longer may be removed
    const gcTtl: int        // how long removed entries are kept for their users
    const hash: Hash
    ghost var chains: Chains
    ghost var loose: set<nat>

    ghost function St(): State
      reads this, sma, sma.seg
    {
      StateOf(sma.seg.pay, hb, chains)
    }

    ghost function Header(): seq<int>
      reads this, sma, sma.seg
    {
      Counters(sma.seg.pay, hb)
    }

    /** The allocator is intact and holds a cache with linked lists. */
    ghost predicate Intact()
      reads this, sma, sma.seg, sma.seg.words
    {
      sma.Valid() && hb == sma.lo + B && Image(sma.seg.pay, hb, chains) && |chains| == nslots + 1
    }

    /** Where the cache stands. */
    ghost function Here(): Point
      reads this, sma, sma.seg
    {
      Point(St(), sma.heap)
    }

    ghost function Fixed(total: nat): Setting
      reads this
    {
      Setting(sma.lo, sma.hi, loose, ttl, gcTtl, total)
    }

    ghost predicate Valid()
      reads this, sma, sma.seg, sma.seg.words
    {
      Intact() && Good(St(), Header(), hash, loose)
    }

    /** A cache without entries, at a header that was zeroed. */
    constructor (sma: Sma.Allocator, hb: nat, nslots: nat, ttl: int, gcTtl: int, hash: Hash)
      requires sma.Valid() && hb == sma.lo + B && nslots > 0
      requires sma.seg.pay == map[hb := seq(GC + 1 + nslots, i => 0)]
      ensures Valid() && St() == State(map[], EmptyChains(nslots)) && loose == {}
      ensures this.sma == sma && this.hb == hb && this.nslots == nslots && this.ttl == ttl && this.gcTtl == gcTtl
              && this.hash == hash
      ensures Header() == seq(GC, i => 0)
    {
      hide Represents, Laid, Chained, Good;
      this.sma, this.hb, this.nslots, this.ttl, this.gcTtl, this.hash := sma, hb, nslots, ttl, gcTtl, hash;
      chains, loose := EmptyChains(nslots), {};
      new;
      EmptyImage(hb, nslots, sma.seg.pay);
      EmptyGood(nslots, hash);
    }

    // ----- Single words -----

    function ReadCell(cell: nat): (x: int)
      requires sma.Valid() && IsCell(sma.seg.pay, hb, cell)
      reads sma, sma.seg, sma.seg.words
      ensures x == Cell(sma.seg.pay, hb, cell)
    {
      sma.Peek(cell, if cell < hb + |sma.seg.pay[hb]| then hb else cell)
    }

    function ReadPrev(e: nat): (x: int)
      requires sma.Valid() && IsEntry(sma.seg.pay, hb, e)
      reads sma, sma.seg, sma.seg.words
      ensures x == Prev(sma.seg.pay, e)
    {
      sma.Peek(e + PREV, e)
    }

    method WriteCell(cell: nat, x: int)
      requires sma.Valid() && IsCell(sma.seg.pay, hb, cell)
      modifies sma.seg, sma.seg.words
      ensures sma.Valid() && sma.seg.pay == SetCell(old(sma.seg.pay), hb, cell, x)
    {
      hide Represents, Laid;
      ghost var owner := if cell < hb + |sma.seg.pay[hb]| then hb else cell;
      sma.Poke(cell, x, owner);
    }

    method WritePrev(e: nat, x: int)
      requires sma.Valid() && IsEntry(sma.seg.pay, hb, e)
      modifies sma.seg, sma.seg.words
      ensures sma.Valid() && sma.seg.pay == SetPrev(old(sma.seg.pay), e, x)
    {
      sma.Poke(e + PREV, x, e);
    }

    /** The word `f` of the entry `e`. */
    function ReadField(e: nat, f: nat): (x: int)
      requires Intact() && e in St().items && TTL <= f < TTL + |St().items[e]|
      reads this, sma, sma.seg, sma.seg.words
      ensures x == St().items[e][f - TTL]
    {
      FieldPlace(sma.seg.pay, hb, chains, e, f);
      sma.Peek(e + f, e)
    }

    method WriteField(e: nat, f: nat, x: int)
      requires Intact() && e in St().items && TTL <= f < TTL + |St().items[e]|
      modifies sma.seg, sma.seg.words
      ensures Intact() && Header() == old(Header())
      ensures St().items == old(St().items)[e := old(St().items)[e][f - TTL := x]]
    {
      hide Represents, Laid, Chained, Record;
      FieldPlace(sma.seg.pay, hb, chains, e, f);
      FieldWrite(sma.seg.pay, hb, chains, e, f, x);
      sma.Poke(e + f, x, e);
    }

    function ReadCounter(f: nat): (x: int)
      requires Intact() && f < GC
      reads this, sma, sma.seg, sma.seg.words
      ensures x == Header()[f]
    {
      sma.Peek(hb + f, hb)
    }

    method WriteCounter(f: nat, x: int)
      requires Intact() && f < GC
      modifies sma.seg, sma.seg.words
      ensures Intact() && St() == old(St()) && Header() == old(Header())[f := x]
    {
      hide Represents, Laid, Image;
      CounterWrite(sma.seg.pay, hb, chains, f, x);
      sma.Poke(hb + f, x, hb);
    }

    // ----- Lists -----

    /** The offset stored in the cell at position `i` of list `k`. */
    function NextOf(cell: nat, ghost k: nat, ghost i: nat): (x: int)
      requires Intact() && k < |chains| && i <= |chains[k]| && cell == CellOf(hb, chains, k, i)
      reads this, sma, sma.seg, sma.seg.words
      ensures (x == 0) == (i == |chains[k]|)
      ensures i < |chains[k]| ==>
        hb + x == chains[k][i] && chains[k][i] in St().items && |St().items[chains[k][i]]| >= KEY - TTL
    {
      CellReads(sma.seg.pay, hb, chains, k, i);
      ReadCell(cell)
    }

    /** Links the entry `e` into a list, behind the cell `cell` at position `i` of list `k`. */
    method LinkEntry(cell: nat, e: nat, ghost k: nat, ghost i: nat)
      requires Intact() && k < |chains| && i <= |chains[k]| && cell == CellOf(hb, chains, k, i)
      requires e in St().items && Unlisted(chains, e)
      modifies this`chains, sma.seg, sma.seg.words
      ensures Intact() && St() == State(old(St().items), Inserted(old(chains), k, i, e)) && Header() == old(Header())
    {
      hide Represents, Laid, Chained, SetCell, SetPrev, Cell, Prev, SameRecords, Relinked, Unlisted, CellOf, IsEntry,
           IsCell;
      ghost var pay := sma.seg.pay;
      ItemIsEntry(pay, hb, e);
      LinkInSteps(pay, hb, chains, k, i, e);
      var next := ReadCell(cell);
      WriteCell(e, next);
      WritePrev(e, cell - hb);
      WriteCell(cell, e - hb);
      if ReadCell(e) != 0 {
        WritePrev(hb + ReadCell(e), ReadCell(cell));
      }
      RelinkWrite(pay, sma.seg.pay, hb);
      chains := Inserted(chains, k, i, e);
    }

    /** Takes the entry `e`, at position `i` of list `k`, out of its list. */
    method UnlinkEntry(e: nat, ghost k: nat, ghost i: nat)
      requires Intact() && k < |chains| && i < |chains[k]| && e == chains[k][i]
      modifies this`chains, sma.seg, sma.seg.words
      ensures Intact() && St() == State(old(St().items), Removed(old(chains), k, i)) && Header() == old(Header())
      ensures e in St().items && Unlisted(chains, e)
    {
      hide Represents, Laid, Chained, SetCell, SetPrev, Cell, Prev, SameRecords, Relinked, Unlisted, CellOf, IsEntry,
           IsCell;
      ghost var pay := sma.seg.pay;
      LinkOutSteps(pay, hb, chains, k, i);
      var p: nat := hb + ReadPrev(e);
      WriteCell(p, ReadCell(e));
      if ReadCell(e) != 0 {
        WritePrev(hb + ReadCell(e), ReadPrev(e));
      }
      RelinkWrite(pay, sma.seg.pay, hb);
      EntryIn(sma.seg.pay, hb, e);
      chains := Removed(chains, k, i);
    }
  
    /** Gives the memory of an entry that is in no list back to the allocator. */
    method FreeEntry(e: nat)
      requires Intact() && e in St().items && Unlisted(chains, e)
      modifies sma, sma.seg, sma.seg.words
      ensures Intact() && St() == State(old(St().items) - {e}, chains) && Header() == old(Header())
      ensures sma.avail >= old(sma.avail)
      ensures FreedOnly(old(St()), old(sma.heap), St(), sma.heap)
    {
      hide Represents, Laid, Image, Unlisted, FreedOnly, Freed;
      ghost var st, h := St(), sma.heap;
      ReleaseImage(sma.seg.pay, hb, chains, e);
      BlockOfPayload(sma, e);
      var size := sma.Deallocate(e);
      FreedOne(st, h, St(), sma.heap, sma.lo, sma.hi, e, size);
    }

    // ----- Removal -----

    /** Takes the entry `e` off the counters, which never fall below zero. */
    method Debit(e: nat)
      requires Intact() && e in St().items && |St().items[e]| >= KEY - TTL
      modifies sma.seg, sma.seg.words
      ensures Intact() && St() == old(St())
      ensures old(Header())[MEM] > 0 && old(Header())[ENTRIES] > 0 ==>
                Header() == Debited(old(Header()), Field(ItemAt(St(), e), MEMSIZE))
    {
      hide Sma.Allocator.Valid, Image, Items, Counters;
      if ReadCounter(MEM) != 0 {
        WriteCounter(MEM, ReadCounter(MEM) - ReadField(e, MEMSIZE));
      }
      if ReadCounter(ENTRIES) != 0 {
        WriteCounter(ENTRIES, ReadCounter(ENTRIES) - 1);
      }
    }

    /** Frees an unlisted entry, or keeps it in the list of removed entries while it is referenced. */
    method Dispose(e: nat, now: int)
      requires Intact() && e in St().items && |St().items[e]| >= KEY - TTL && Unlisted(chains, e) && |chains| > 0
      modifies this`chains, sma, sma.seg, sma.seg.words
      ensures Intact() && Header() == old(Header())
      ensures St() == Disposed(old(St()), e, now) && sma.avail >= old(sma.avail)
      ensures FreedOnly(old(St()), old(sma.heap), St(), sma.heap)
    {
      hide Sma.Allocator.Valid, Image, Items, Counters, Unlisted, Inserted, FreedOnly;
      ghost var st := St();
      if ReadField(e, REFS) <= 0 {
        FreeEntry(e);
      } else {
        WriteField(e, DTIME, now);
        LinkEntry(hb + GC, e, 0, 0);
        FreedNothing(st, sma.heap, St());
      }
    }

    /** Takes the entry `e`, at position `i` of slot list `k`, out of the cache. */
    method RemoveEntry(e: nat, now: int, ghost k: nat, ghost i: nat)
      requires Valid() && 0 < k < |chains| && i < |chains[k]| && e == chains[k][i]
      modifies this`chains, sma, sma.seg, sma.seg.words
      ensures Valid() && St() == Remove(old(St()), k, i, now)
      ensures Header() == Debited(old(Header()), Field(ItemAt(old(St()), e), MEMSIZE)) && sma.avail >= old(sma.avail)
      ensures FreedOnly(old(St()), old(sma.heap), St(), sma.heap)
    {
      hide Sma.Allocator.Valid, Image, Items, Counters, Good, Field, Unlisted, Removed, Remove, Debited, Disposed,
           FreedOnly;
      ghost var st := St();
      RemovalFacts(st, Header(), hash, loose, k, i, now);
      RemoveGood(st, Header(), hash, loose, k, i, now);
      UnlinkEntry(e, k, i);
      Debit(e);
      ghost var st1 := St();
      FreedNothing(st, sma.heap, st1);
      ghost var h := sma.heap;
      Dispose(e, now);
      FreedTwice(st, h, st1, h, St(), sma.heap);
    }

    /** Frees the removed entry `e`, at position `i` of the list of removed entries. */
    method DropEntry(e: nat, ghost i: nat)
      requires Valid() && i < |chains[0]| && e == chains[0][i]
      modifies this`chains, sma, sma.seg, sma.seg.words
      ensures Valid() && St() == Drop(old(St()), 0, i) && Header() == old(Header()) && sma.avail >= old(sma.avail)
      ensures FreedOnly(old(St()), old(sma.heap), St(), sma.heap)
    {
      hide Sma.Allocator.Valid, Image, Items, Counters, Good, Unlisted, Removed, FreedOnly;
      ghost var st, h := St(), sma.heap;
      DropGood(St(), Header(), hash, loose, i);
      UnlinkEntry(e, 0, i);
      ghost var st1 := St();
      FreedNothing(st, h, st1);
      FreeEntry(e);
      FreedTwice(st, h, st1, h, St(), sma.heap);
    }

    /** Frees removed entries that nobody refers to or that have been kept long enough. */
    method Gc(now: int)
      requires Valid()
      modifies this`chains, sma, sma.seg, sma.seg.words
      ensures Valid() && St() == Collect(old(St()), 0, now, gcTtl) && Header() == old(Header())
      ensures sma.avail >= old(sma.avail)
      ensures FreedOnly(old(St()), old(sma.heap), St(), sma.heap)
    {
      hide Sma.Allocator.Valid, Image, Items, Counters, Good, StaysInGc, Collect, Drop, FreedOnly;
      ghost var st0, h0 := St(), sma.heap;
      FreedNothing(st0, h0, st0);
      var cell := hb + GC;
      ghost var i := 0;
      if NextOf(cell, 0, 0) == 0 {
        CollectEnd(St(), now, gcTtl);
        return;
      }
      while NextOf(cell, 0, i) != 0
        invariant Valid() && i <= |chains[0]| && cell == CellOf(hb, chains, 0, i) && Header() == old(Header())
        invariant Collect(St(), i, now, gcTtl) == Collect(old(St()), 0, now, gcTtl) && sma.avail >= old(sma.avail)
        invariant FreedOnly(old(St()), old(sma.heap), St(), sma.heap)
        decreases |chains[0]| - i
      {
        ghost var st, h := St(), sma.heap;
        var e: nat := hb + NextOf(cell, 0, i);
        var kept := if gcTtl != 0 then now - ReadField(e, DTIME) else 0;
        StaysWhen(st, i, now, gcTtl);
        if ReadField(e, REFS) > 0 && kept <= gcTtl {
          cell, i := e, i + 1;
          continue;
        }
        DropEntry(e, i);
        FreedTwice(st0, h0, st, h, St(), sma.heap);
        DroppedCell(hb, st, i);
      }
      CollectEnd(St(), now, gcTtl);
    }
  
    // ----- Keys -----

    /** Whether the entry `e` has the key: same hash, same length, same bytes. */
    method KeyEquals(e: nat, key: seq<int>) returns (equal: bool)
      requires Intact() && e in St().items && ItemOk(hash, St().items[e]) && |St().items[e]| >= KEY - TTL
      ensures equal <==> KeyIn(St().items[e]) == key
    {
      hide Sma.Allocator.Valid, Image, Items, Counters;
      ghost var c := St().items[e];
      if ReadField(e, HASH) != hash(key) || ReadField(e, KEYLEN) != |key| {
        return false;
      }
      var i := 0;
      while i < |key|
        invariant i <= |key| && forall j | 0 <= j < i :: KeyIn(c)[j] == key[j]
      {
        if ByteOf(ReadField(e, KEY + i / 8), i % 8) != key[i] {
          assert KeyIn(c)[i] != key[i];
          return false;
        }
        i := i + 1;
      }
      assert KeyIn(c) == key;
      equal := true;
    }

    method HardExpiredEntry(e: nat, t: int) returns (expired: bool)
      requires Intact() && e in St().items && |St().items[e]| >= KEY - TTL
      ensures expired <==> HardExpired(St().items[e], t)
    {
      hide Sma.Allocator.Valid, Image, Items, Counters;
      expired := ReadField(e, TTL) != 0 && ReadField(e, CTIME) + ReadField(e, TTL) < t;
    }

    method ExpiredEntry(e: nat, t: int) returns (expired: bool)
      requires Intact() && e in St().items && |St().items[e]| >= KEY - TTL
      ensures expired <==> Expired(St().items[e], ttl, t)
    {
      hide Sma.Allocator.Valid, Image, Items, Counters;
      expired := HardExpiredEntry(e, t);
      if !expired {
        expired := ReadField(e, TTL) == 0 && ttl != 0 && ReadField(e, ATIME) + ttl < t;
      }
    }

    // ----- Lookup -----

    /** The list of a key. */
    function SlotIndex(key: seq<int>): (s: nat)
      requires Valid()
      reads this, sma, sma.seg, sma.seg.words
      ensures s < nslots && 1 + s == SlotOf(St(), hash, key)
    {
      hash(key) % nslots
    }

    /** Looks for an entry with the key that is not hard expired. */
    method FindNoStat(key: seq<int>, t: int) returns (found: Option<nat>)
      requires Valid()
      ensures found == Find(St(), hash, key, t)
    {
      hide Sma.Allocator.Valid, Image, Items, Counters, Good, KeyIn, ItemOk, HardExpired, ItemAt, SlotOf;
      ghost var st, k, i := St(), SlotOf(St(), hash, key), 0;
      SlotIn(st, Header(), hash, loose, key);
      var cell := hb + GC + 1 + SlotIndex(key);
      while NextOf(cell, k, i) != 0
        invariant i <= |chains[k]| && cell == CellOf(hb, chains, k, i) && Search(st, k, i, key) == Search(st, k, 0, key)
        decreases |chains[k]| - i
      {
        var e: nat := hb + NextOf(cell, k, i);
        EntryFacts(st, Header(), hash, loose, k, i);
        var equal := KeyEquals(e, key);
        if equal {
          var expired := HardExpiredEntry(e, t);
          return if expired then None else Some(e);
        }
        cell, i := e, i + 1;
      }
      found := None;
    }
  
    // ----- Metadata -----

    /** Sets the word `f` of the metadata of an entry. */
    method SetMeta(e: nat, f: nat, x: int)
      requires Valid() && e in St().items && MetaOk(loose, e, f, x)
      modifies sma.seg, sma.seg.words
      ensures Valid() && Header() == old(Header()) && St() == WithMeta(old(St()), e, f, x)
    {
      hide Sma.Allocator.Valid, Image, Items, Counters, Good;
      MetaGood(St(), Header(), hash, loose, e, f, x);
      ItemSized(sma.seg.pay, hb, chains, e);
      WriteField(e, f, x);
    }

    method Count(f: nat, x: int)
      requires Valid() && f < GC && f != MEM && f != ENTRIES
      modifies sma.seg, sma.seg.words
      ensures Valid() && St() == old(St()) && Header() == old(Header())[f := x]
    {
      hide Sma.Allocator.Valid, Image, Items, Counters;
      WriteCounter(f, x);
    }

    /** Counts an access to the entry `e`. */
    method Access(e: nat, t: int)
      requires Valid() && e in St().items
      modifies sma.seg, sma.seg.words
      ensures Valid() && Accessed(old(St()), St(), e, t) && Header() == old(Header())[HITS := old(Header())[HITS] + 1]
    {
      hide Sma.Allocator.Valid, Image, Items, Counters, Good, WithMeta;
      ghost var st := St();
      ItemSized(sma.seg.pay, hb, chains, e);
      UsedTwice(st, e, t);
      Count(HITS, ReadCounter(HITS) + 1);
      SetMeta(e, NHITS, ReadField(e, NHITS) + 1);
      SetMeta(e, ATIME, t);
    }

    /** Looks for an entry with the key that is not hard expired, and counts the access. */
    method FindCounted(key: seq<int>, t: int) returns (found: Option<nat>)
      requires Valid()
      modifies sma.seg, sma.seg.words
      ensures Valid() && found == Find(old(St()), hash, key, t)
      ensures found.None? ==> St() == old(St()) && Header() == old(Header())[MISSES := old(Header())[MISSES] + 1]
      ensures found.Some? ==>
        Accessed(old(St()), St(), found.value, t)
        && Header() == old(Header())[HITS := old(Header())[HITS] + 1]
    {
      hide Sma.Allocator.Valid, Image, Items, Counters, Good, CacheModel.Find, Accessed;
      FoundEntry(St(), Header(), hash, loose, key, t);
      found := FindNoStat(key, t);
      if found.None? {
        Count(MISSES, ReadCounter(MISSES) + 1);
      } else {
        Access(found.value, t);
      }
    }

    /** Updates the integer under the key in place: `updater` gives the new value and whether
        it was successful. */
    method UpdateLong(key: seq<int>, t: int, updater: int -> (int, bool)) returns (done: Option<bool>)
      requires Valid()
      modifies sma.seg, sma.seg.words
      ensures Valid() && Header() == old(Header()) && LongUpdated(old(St()), St(), hash, key, t, updater, done)
    {
      hide Sma.Allocator.Valid, Image, Items, Counters, Good, CacheModel.Find, WithMeta, Field, ItemAt, Updated;
      ghost var st := St();
      FoundEntry(st, Header(), hash, loose, key, t);
      var found := FindNoStat(key, t);
      if found.None? {
        return None;
      }
      var e := found.value;
      var (n, ok) := updater(ReadField(e, VAL));
      UpdateParts(st, e, t, n);
      if ReadField(e, KIND) != IS_LONG {
        return Some(false);
      }
      SetMeta(e, VAL, n);
      SetMeta(e, MTIME, t);
      done := Some(ok);
    }

    /** One more reference to the entry: it can be neither freed nor moved. */
    method IncRef(e: nat)
      requires Valid() && e in St().items
      modifies sma.seg, sma.seg.words
      ensures Valid() && Header() == old(Header())
      ensures St() == WithMeta(old(St()), e, REFS, Field(ItemAt(old(St()), e), REFS) + 1)
    {
      hide Sma.Allocator.Valid, Image, Items, Counters, Good, WithMeta;
      ItemSized(sma.seg.pay, hb, chains, e);
      LooseHasRefs(St(), Header(), hash, loose, e);
      SetMeta(e, REFS, ReadField(e, REFS) + 1);
    }

    /** One reference less.  An entry that was never listed keeps the one it was made with. */
    method Release(e: nat)
      requires Valid() && e in St().items && e !in loose
      modifies sma.seg, sma.seg.words
      ensures Valid() && Header() == old(Header())
      ensures St() == WithMeta(old(St()), e, REFS, Field(ItemAt(old(St()), e), REFS) - 1)
    {
      hide Sma.Allocator.Valid, Image, Items, Counters, Good, WithMeta;
      ItemSized(sma.seg.pay, hb, chains, e);
      SetMeta(e, REFS, ReadField(e, REFS) - 1);
    }

    // ----- Deletion -----

    method Delete(key: seq<int>, now: int) returns (found: bool)
      requires Valid()
      modifies this`chains, sma, sma.seg, sma.seg.words
      ensures Valid() && (St(), found) == CacheModel.Delete(old(St()), hash, key, now)
      ensures SameBut(old(Header()), Header(), {MEM, ENTRIES}) && FreedOnly(old(St()), old(sma.heap), St(), sma.heap)
    {
      hide Sma.Allocator.Valid, Image, Items, Counters, Good, KeyIn, ItemOk, ItemAt, SlotOf, Remove, Debited, Field,
           SameBut, FreedOnly;
      ghost var st, k, i := St(), SlotOf(St(), hash, key), 0;
      SameButSelf(Header(), {MEM, ENTRIES});
      FreedNothing(st, sma.heap, st);
      SlotIn(st, Header(), hash, loose, key);
      var cell := hb + GC + 1 + SlotIndex(key);
      while NextOf(cell, k, i) != 0
        invariant Valid() && St() == st && i <= |chains[k]| && cell == CellOf(hb, chains, k, i)
                  && Search(st, k, i, key) == Search(st, k, 0, key)
        invariant Header() == old(Header()) && sma.heap == old(sma.heap)
        decreases |chains[k]| - i
      {
        var e: nat := hb + NextOf(cell, k, i);
        EntryFacts(st, Header(), hash, loose, k, i);
        var equal := KeyEquals(e, key);
        if equal {
          DebitedSame(old(Header()), Header(), Field(ItemAt(st, e), MEMSIZE));
          RemoveEntry(e, now, k, i);
          return true;
        }
        cell, i := e, i + 1;
      }
      found := false;
    }
  
    // ----- Insertion -----

    /** Walks the slot list `k` to the entry with the key, or to its end, and removes expired
        entries on the way; returns the cell where it stopped. */
    method WalkSlot(slot: nat, key: seq<int>, t: int, now: int, ghost k: nat) returns (cell: nat, ghost i: nat)
      requires Valid() && 0 < k < |chains| && slot == Head(hb, k)
      modifies this`chains, sma, sma.seg, sma.seg.words
      ensures Valid() && k < |chains| && i <= |chains[k]| && cell == CellOf(hb, chains, k, i)
      ensures (St(), i) == Walk(old(St()), k, 0, key, ttl, t, now)
      ensures SameBut(old(Header()), Header(), {MEM, ENTRIES})
    {
      hide Sma.Allocator.Valid, Image, Items, Counters, Good, KeyIn, ItemOk, ItemAt, Remove, Debited, Field, Expired,
           Walk, Intact, SameBut, FreedOnly;
      SameButSelf(Header(), {MEM, ENTRIES});
      cell, i := slot, 0;
      while NextOf(cell, k, i) != 0
        invariant Valid() && 0 < k < |chains| && i <= |chains[k]| && cell == CellOf(hb, chains, k, i)
        invariant Walk(St(), k, i, key, ttl, t, now) == Walk(old(St()), k, 0, key, ttl, t, now)
        invariant SameBut(old(Header()), Header(), {MEM, ENTRIES})
        decreases |chains[k]| - i
      {
        ghost var st := St();
        WalkStep(st, hb, k, i, key, ttl, t, now);
        EntryFacts(st, Header(), hash, loose, k, i);
        var e: nat := hb + NextOf(cell, k, i);
        var equal := KeyEquals(e, key);
        if equal {
          return;
        }
        var expired := ExpiredEntry(e, t);
        if expired {
          DebitedSame(old(Header()), Header(), Field(ItemAt(st, e), MEMSIZE));
          RemoveEntry(e, now, k, i);
        } else {
          cell, i := e, i + 1;
        }
      }
      WalkEnd(St(), k, key, ttl, t, now);
    }

    /** Adds the entry `e` to the counters. */
    method Credit(e: nat)
      requires Intact() && e in St().items && |St().items[e]| >= KEY - TTL
      modifies sma.seg, sma.seg.words
      ensures Intact() && St() == old(St())
      ensures Header() == Credited(old(Header()), Field(ItemAt(St(), e), MEMSIZE))
    {
      hide Sma.Allocator.Valid, Image, Items, Counters;
      WriteCounter(MEM, ReadCounter(MEM) + ReadField(e, MEMSIZE));
      WriteCounter(ENTRIES, ReadCounter(ENTRIES) + 1);
      WriteCounter(INSERTS, ReadCounter(INSERTS) + 1);
    }

    /** Links the new entry `e` into its slot, where no other entry has its key. */
    method PlaceEntry(cell: nat, e: nat, ghost k: nat, ghost i: nat)
      requires Valid() && 0 < k < |chains| && i <= |chains[k]| && cell == CellOf(hb, chains, k, i)
      requires e in loose && Sound(Placing(St(), k, i, e), hash)
      modifies this, sma.seg, sma.seg.words
      ensures Valid() && St() == Placing(old(St()), k, i, e) && loose == old(loose) - {e}
      ensures Header() == Credited(old(Header()), Field(ItemAt(old(St()), e), MEMSIZE))
    {
      hide Sma.Allocator.Valid, Image, Items, Counters, Good, Field, Sound, Credited;
      PlacingGood(St(), Header(), hash, loose, k, i, e);
      ItemSized(sma.seg.pay, hb, chains, e);
      LinkEntry(cell, e, k, i);
      Credit(e);
      loose := loose - {e};
    }

    /** At the cell where the walk stopped: fails if the insertion is exclusive and meets an
        entry that is not hard expired, else lets the new entry replace what is there. */
    method SettleEntry(cell: nat, e: nat, exclusive: bool, t: int, now: int, ghost k: nat, ghost i: nat)
      returns (ok: bool)
      requires Valid() && 0 < k < |chains| && i <= |chains[k]| && cell == CellOf(hb, chains, k, i)
      requires e in loose && Sound(InsertAt(St(), k, i, e, exclusive, t, now).0, hash)
      modifies this, sma, sma.seg, sma.seg.words
      ensures Valid() && (St(), ok) == InsertAt(old(St()), k, i, e, exclusive, t, now)
      ensures loose == if ok then old(loose) - {e} else old(loose)
      ensures OneInsert(old(Header()), Header(), ok)
    {
      hide Sma.Allocator.Valid, Image, Items, Counters, Good, ItemOk, ItemAt, Remove, Debited, Credited, Field,
           HardExpired, InsertAt, SameBut, OneInsert, FreedOnly, CellOf;
      SameButSelf(Header(), {MEM, ENTRIES});
      NoInsert(Header(), Header());
      ghost var walked := St();
      SettleFacts(walked, hb, k, i, e, exclusive, t, now);
      if NextOf(cell, k, i) != 0 {
        EntryFacts(walked, Header(), hash, loose, k, i);
        var existing: nat := hb + NextOf(cell, k, i);
        var expired := HardExpiredEntry(existing, t);
        if exclusive && !expired {
          return false;
        }
        DebitedSame(old(Header()), Header(), Field(ItemAt(walked, existing), MEMSIZE));
        RemoveEntry(existing, now, k, i);
      }
      CreditedInserts(old(Header()), Header(), Field(ItemAt(St(), e), MEMSIZE));
      PlaceEntry(cell, e, k, i);
      ok := true;
    }

    /** Puts the new entry `e` into the slot of its key. */
    method Insert(e: nat, key: seq<int>, exclusive: bool, now: int) returns (ok: bool)
      requires Valid() && e in loose && NewItem(St(), hash, e, key)
      modifies this, sma, sma.seg, sma.seg.words
      ensures Valid() && (St(), ok) == CacheModel.Insert(old(St()), hash, e, exclusive, ttl, gcTtl, now)
      ensures loose == if ok then old(loose) - {e} else old(loose)
      ensures OneInsert(old(Header()), Header(), ok)
    {
      hide Sma.Allocator.Valid, Image, Items, Counters, Good, ItemOk, ItemAt, Field, Walk, Collect, InsertAt, KeyIn,
           SameBut, OneInsert, FreedOnly;
      ghost var k := SlotOf(St(), hash, key);
      InsertFacts(St(), Header(), hash, loose, e, key, exclusive, ttl, gcTtl, now);
      ItemSized(sma.seg.pay, hb, chains, e);
      var t := ReadField(e, CTIME);
      var slot := hb + GC + 1 + SlotIndex(key);
      Gc(now);
      ghost var i: nat;
      var cell: nat;
      cell, i := WalkSlot(slot, key, t, now, k);
      ghost var counters := Header();
      ok := SettleEntry(cell, e, exclusive, t, now, k, i);
      InsertAfter(old(Header()), counters, Header(), ok);
    }
  
    // ----- Emptying slots -----

    /** Removes the expired entries of the slot list `k`. */
    method ExpireSlot(slot: nat, t: int, now: int, ghost k: nat)
      requires Valid() && 0 < k < |chains| && slot == Head(hb, k)
      modifies this`chains, sma, sma.seg, sma.seg.words
      ensures Valid() && St() == ExpireList(old(St()), k, 0, ttl, t, now)
      ensures SameBut(old(Header()), Header(), {MEM, ENTRIES}) && sma.avail >= old(sma.avail)
      ensures FreedOnly(old(St()), old(sma.heap), St(), sma.heap)
    {
      hide Sma.Allocator.Valid, Image, Items, Counters, Good, ItemOk, ItemAt, Remove, Debited, Field, Expired,
           ExpireList, SameBut, FreedOnly;
      ghost var st0, h0 := St(), sma.heap;
      FreedNothing(st0, h0, st0);
      var cell := slot;
      ghost var i := 0;
      SameButSelf(Header(), {MEM, ENTRIES});
      while NextOf(cell, k, i) != 0
        invariant Valid() && 0 < k < |chains| && i <= |chains[k]| && cell == CellOf(hb, chains, k, i)
        invariant ExpireList(St(), k, i, ttl, t, now) == ExpireList(old(St()), k, 0, ttl, t, now)
        invariant SameBut(old(Header()), Header(), {MEM, ENTRIES}) && sma.avail >= old(sma.avail)
        invariant FreedOnly(old(St()), old(sma.heap), St(), sma.heap)
        decreases |chains[k]| - i
      {
        ghost var st, h := St(), sma.heap;
        ExpireStep(st, hb, k, i, ttl, t, now);
        EntryFacts(st, Header(), hash, loose, k, i);
        var e: nat := hb + NextOf(cell, k, i);
        var expired := ExpiredEntry(e, t);
        if expired {
          DebitedSame(old(Header()), Header(), Field(ItemAt(st, e), MEMSIZE));
          RemoveEntry(e, now, k, i);
          FreedTwice(st0, h0, st, h, St(), sma.heap);
        } else {
          cell, i := e, i + 1;
        }
      }
      ExpireEnd(St(), k, ttl, t, now);
    }

    /** Removes all expired entries. */
    method ExpireSlots(t: int, now: int)
      requires Valid()
      modifies this`chains, sma, sma.seg, sma.seg.words
      ensures Valid() && |old(St()).chains| > 1 && St() == ExpireFrom(old(St()), 1, ttl, t, now)
      ensures SameBut(old(Header()), Header(), {MEM, ENTRIES}) && sma.avail >= old(sma.avail)
      ensures FreedOnly(old(St()), old(sma.heap), St(), sma.heap)
    {
      hide Sma.Allocator.Valid, Image, Items, Counters, Good, ExpireList, ExpireFrom, SameBut, FreedOnly;
      ghost var st0, h0 := St(), sma.heap;
      FreedNothing(st0, h0, st0);
      GoodSized(St(), Header(), hash, loose);
      SameButSelf(Header(), {MEM, ENTRIES});
      for s := 0 to nslots
        invariant Valid() && |chains| == nslots + 1
        invariant ExpireFrom(St(), s + 1, ttl, t, now) == ExpireFrom(old(St()), 1, ttl, t, now)
        invariant SameBut(old(Header()), Header(), {MEM, ENTRIES}) && sma.avail >= old(sma.avail)
        invariant FreedOnly(old(St()), old(sma.heap), St(), sma.heap)
      {
        ghost var st, counters, h := St(), Header(), sma.heap;
        ExpireSlot(hb + GC + 1 + s, t, now, s + 1);
        FreedTwice(st0, h0, st, h, St(), sma.heap);
        ExpireSlotStep(st, s + 1, ttl, t, now);
        SameButTrans(old(Header()), counters, Header(), {MEM, ENTRIES});
      }
      ExpireSlotsEnd(St(), ttl, t, now);
    }

    /** Removes all entries of the slot list `k`. */
    method ClearSlot(slot: nat, now: int, ghost k: nat)
      requires Valid() && 0 < k < |chains| && slot == Head(hb, k)
      modifies this`chains, sma, sma.seg, sma.seg.words
      ensures Valid() && St() == ClearList(old(St()), k, now)
      ensures SameBut(old(Header()), Header(), {MEM, ENTRIES})
      ensures FreedOnly(old(St()), old(sma.heap), St(), sma.heap)
    {
      hide Sma.Allocator.Valid, Image, Items, Counters, Good, ItemOk, ItemAt, Remove, Debited, Field, ClearList,
           SameBut, FreedOnly;
      ghost var st0, h0 := St(), sma.heap;
      FreedNothing(st0, h0, st0);
      SameButSelf(Header(), {MEM, ENTRIES});
      while NextOf(slot, k, 0) != 0
        invariant Valid() && 0 < k < |chains|
        invariant ClearList(St(), k, now) == ClearList(old(St()), k, now)
        invariant SameBut(old(Header()), Header(), {MEM, ENTRIES})
        invariant FreedOnly(old(St()), old(sma.heap), St(), sma.heap)
        decreases |chains[k]|
      {
        ghost var st, h := St(), sma.heap;
        ClearStep(st, hb, k, now);
        var e: nat := hb + NextOf(slot, k, 0);
        DebitedSame(old(Header()), Header(), Field(ItemAt(st, e), MEMSIZE));
        RemoveEntry(e, now, k, 0);
        FreedTwice(st0, h0, st, h, St(), sma.heap);
      }
      ClearEnd(St(), k, now);
    }

    method ClearSlots(now: int)
      requires Valid()
      modifies this`chains, sma, sma.seg, sma.seg.words
      ensures Valid() && |old(St()).chains| > 1 && St() == ClearFrom(old(St()), 1, now)
      ensures SameBut(old(Header()), Header(), {MEM, ENTRIES})
      ensures FreedOnly(old(St()), old(sma.heap), St(), sma.heap)
    {
      hide Sma.Allocator.Valid, Image, Items, Counters, Good, ClearList, ClearFrom, SameBut, FreedOnly;
      ghost var st0, h0 := St(), sma.heap;
      FreedNothing(st0, h0, st0);
      GoodSized(St(), Header(), hash, loose);
      SameButSelf(Header(), {MEM, ENTRIES});
      for s := 0 to nslots
        invariant Valid() && |chains| == nslots + 1
        invariant ClearFrom(St(), s + 1, now) == ClearFrom(old(St()), 1, now)
        invariant SameBut(old(Header()), Header(), {MEM, ENTRIES})
        invariant FreedOnly(old(St()), old(sma.heap), St(), sma.heap)
      {
        ghost var st, counters, h := St(), Header(), sma.heap;
        ClearSlot(hb + GC + 1 + s, now, s + 1);
        FreedTwice(st0, h0, st, h, St(), sma.heap);
        ClearSlotStep(st, s + 1, now);
        SameButTrans(old(Header()), counters, Header(), {MEM, ENTRIES});
      }
      ClearSlotsEnd(St(), now);
    }

    /** Empties all slots and resets the counters: nothing is left of the used memory either. */
    method RealExpunge(t: int, now: int)
      requires Valid()
      modifies this`chains, sma, sma.seg, sma.seg.words
      ensures Valid() && |old(St()).chains| > 1 && St() == ClearFrom(old(St()), 1, now) && SlotsEmpty(St())
      ensures Header()[MEM] == 0 && Header()[ENTRIES] == 0 && Header()[CLEANUPS] == old(Header())[CLEANUPS]
      ensures Header()[EXPUNGES] == old(Header())[EXPUNGES] + 1 && Header()[STIME] == t
      ensures Header()[INSERTS] == 0 && Header()[HITS] == 0 && Header()[MISSES] == 0
      ensures SameBut(old(Header()), Header(), {MEM, ENTRIES, EXPUNGES, STIME, INSERTS, HITS, MISSES})
      ensures FreedOnly(old(St()), old(sma.heap), St(), sma.heap)
    {
      hide Sma.Allocator.Valid, Image, Items, Counters, Good, ClearFrom, SlotsEmpty, FreedOnly;
      Count(EXPUNGES, ReadCounter(EXPUNGES) + 1);
      ghost var st, counters := St(), Header();
      ClearSlots(now);
      ClearedFacts(st, counters, St(), Header(), hash, loose, now);
      Count(STIME, t);
      Count(INSERTS, 0);
      ghost var before := Header();
      WriteCounter(ENTRIES, 0);
      assert Header() == before;
      Count(HITS, 0);
      Count(MISSES, 0);
    }
  
    // ----- Making room -----

    /** Runs the defragmenter: entries move, but the lists hold the same entries.  If no entry is
        referenced, all free memory is in one block afterwards. */
    method Compact()
      requires Valid()
      modifies this`chains, sma, sma.seg, sma.seg.words
      ensures Valid() && Relocated(old(St()), St(), loose) && Header() == old(Header())
      ensures sma.avail >= old(sma.avail) && (Unreferenced(old(St())) ==> OneFreeBlock(sma.heap))
      ensures forall total: nat {:trigger Fixed(total)} :: MovedTogether(Fixed(total), old(Here()), Here())
    {
      hide OneFreeBlock, MovedTogether, Image, Items, Counters, Good, CacheOk, MoveLinks, MoveEntry, StillMeans, Pinned,
           Represents, Laid, Relocated;
      ghost var o := Origin(hb, sma.seg.pay, chains, loose);
      ghost var h := sma.heap;
      PayloadsHere(sma);
      GoodOwned(St(), Header(), hash, loose);
      OwnedIsCacheOk(sma.seg.pay, hb, chains, loose);
      var base := hb;
      var move := (m: seq<int>, from: nat, to: nat) requires MoveEntry.requires(base, m, from, to) =>
        MoveEntry(base, m, from, to);
      ghost var patch := (pay: Payloads, from: nat, to: nat) => MoveLinks(base, pay, from, to);
      ghost var inv := (pay: Payloads) => StillMeans(o, pay);
      CacheMoveOk(o, move, patch, inv);
      StartsMeaning(o);
      ghost var l := sma.Defrag(move, patch, inv, Pinned(o));
      SweptTogether(sma, o, l);
      chains := WitnessOf(o, sma.seg.pay);
      CompactFacts(o, sma.seg.pay, chains, old(Header()), hash);
      PinnedIs(o);
      forall total: nat
        ensures MovedTogether(Fixed(total), old(Here()), Here())
      {
        SweptHere(sma, h, l, Fixed(total), old(Here()), Here());
      }
    }
  
    /** Removes the expired entries and what is kept for nobody. */
    method Clean(t: int, now: int)
      requires Valid()
      modifies this`chains, sma, sma.seg, sma.seg.words
      ensures Valid() && |old(St()).chains| > 1 && St() == Cleaned(old(St()), ttl, gcTtl, t, now)
      ensures Header()[CLEANUPS] == old(Header())[CLEANUPS] && sma.avail >= old(sma.avail)
      ensures FreedOnly(old(St()), old(sma.heap), St(), sma.heap)
    {
      hide Sma.Allocator.Valid, Image, Items, Counters, Good, Collect, ExpireFrom, FreedOnly;
      ghost var st, h := St(), sma.heap;
      ExpireSlots(t, now);
      ghost var st1, h1 := St(), sma.heap;
      Gc(now);
      FreedTwice(st, h, st1, h1, St(), sma.heap);
    }

    /** Empties the cache for a request that no cleaning can satisfy. */
    method Wipe(t: int, now: int)
      requires Valid()
      modifies this`chains, sma, sma.seg, sma.seg.words
      ensures Valid() && |old(St()).chains| > 1 && St() == Collect(ClearFrom(old(St()), 1, now), 0, now, gcTtl)
      ensures Header()[CLEANUPS] == old(Header())[CLEANUPS]
      ensures FreedOnly(old(St()), old(sma.heap), St(), sma.heap)
    {
      hide Sma.Allocator.Valid, Image, Items, Counters, Good, Collect, ClearFrom, SlotsEmpty, FreedOnly;
      ghost var st, h := St(), sma.heap;
      RealExpunge(t, now);
      ghost var st1, h1 := St(), sma.heap;
      Gc(now);
      FreedTwice(st, h, st1, h1, St(), sma.heap);
    }

    /** Moves the entries together; empties the cache if this makes no room for `n` bytes. */
    method CompactFor(n: nat, t: int, now: int, ghost total: nat) returns (ghost moved: Point)
      requires Valid()
      modifies this`chains, sma, sma.seg, sma.seg.words
      ensures Valid() && Header()[CLEANUPS] == old(Header())[CLEANUPS]
      ensures exists st2: State ::
              Relocated(old(St()), st2, loose) && ClearedOrRoom(st2, St(), RoomFor(sma.heap, n), now)
      ensures Unreferenced(old(St())) && Sma.RealSize(n) <= old(sma.avail) ==>
                Relocated(old(St()), St(), loose) && RoomFor(sma.heap, n)
      ensures Header()[DEFRAGS] == old(Header())[DEFRAGS] + 1
      ensures MovedTogether(Fixed(total), old(Here()), moved)
      ensures if RoomFor(moved.heap, n) then Here() == moved else Wiped(Fixed(total), moved, Here(), now)
    {
      hide Sma.Allocator.Valid, Image, Items, Counters, Good, ClearFrom, SlotsEmpty, Relocated, Chosen, MovedTogether,
           FreedOnly;
      Count(DEFRAGS, ReadCounter(DEFRAGS) + 1);
      Compact();
      assert MovedTogether(Fixed(total), old(Here()), Here());
      ghost var st2 := St();
      moved := Here();
      GoodSized(st2, Header(), hash, loose);
      if Unreferenced(old(St())) {
        TogetherRoom(sma, n);
      }
      var room := sma.CheckAvailContiguous(n);
      if !room {
        RealExpunge(t, now);
        PayloadsHere(sma);
      }
    }

    /** Called when an allocation of `size` bytes failed: makes room, by emptying the cache if
        nothing less helps.  `ncleanups` is what the caller saw before it waited for the lock;
        `extra` is what the threshold for free memory adds to the request. */
    method DefaultExpunge(size: nat, extra: nat, ncleanups: int, total: nat, t: int, now: int) returns (done: bool)
      requires Valid()
      modifies this`chains, sma, sma.seg, sma.seg.words
      ensures Valid() && (!done <==> ncleanups < old(Header())[CLEANUPS])
      ensures !done ==> St() == old(St()) && Header() == old(Header()) && sma.heap == old(sma.heap)
      ensures done ==> Header()[CLEANUPS] == old(Header())[CLEANUPS] + 1
      ensures done ==>
        var n := size + extra;
        Expunged(old(St()), St(), loose, n >= total, RoomFor(sma.heap, n), ttl, gcTtl, t, now)
      ensures |old(St()).chains| > 1
      ensures done ==>
        var n := size + extra;
        PaysOff(old(St()), St(), hash, n >= total, Sma.RealSize(n) <= old(sma.avail), RoomFor(sma.heap, n), ttl, gcTtl,
                t, now)
      ensures done ==> ExpungedExactly(Fixed(total), old(Here()), Here(), Rival(size, extra, t, now))
    {
      hide Sma.Allocator.Valid, Image, Items, Counters, Good, ClearFrom, SlotsEmpty, Relocated, RoomFor, Collect,
           Cleaned, Unreferenced, Spared, Sound, MovedTogether, FreedOnly, WellFormed, Avail;
      ghost var p, cleaned, moved := Here(), Here(), Here();
      ghost var st := St();
      GoodSized(st, Header(), hash, loose);
      if ncleanups < ReadCounter(CLEANUPS) {
        return false;
      }
      var n := size + extra;
      if n >= total {
        Wipe(t, now);
      } else {
        Clean(t, now);
        cleaned := Here();
        PayloadsHere(sma);
        var avail := sma.CheckAvail(n);
        if !avail {
          RealExpunge(t, now);
        } else {
          GoodSound(st, old(Header()), hash, loose);
          moved := CompactFor(n, t, now, total);
          CleanedAndMoved(st, St(), hash, loose, ttl, gcTtl, t, now);
        }
      }
      PayloadsHere(sma);
      assert ExpungedVia(Fixed(total), p, Here(), Rival(size, extra, t, now), cleaned, moved);
      Count(CLEANUPS, ReadCounter(CLEANUPS) + 1);
      done := true;
    }
  
    // ----- New entries -----

    /** Allocates memory for an entry of `n` bytes. */
    method Grab(n: nat) returns (off: Option<nat>)
      requires Intact() && n >= KEY * Sma.WORD
      modifies sma, sma.seg, sma.seg.words
      ensures Intact() && Header() == old(Header()) && (off.Some? <==> RoomFor(old(sma.heap), n))
      ensures off.None? ==> St() == old(St()) && sma.heap == old(sma.heap)
      ensures off.Some? ==>
        var e := off.value;
        && e !in old(St()).items && Unlisted(chains, e) && e in St().items
        && St() == State(old(St()).items[e := St().items[e]], chains) && |St().items[e]| + TTL == Sma.WordsFor(n) >= KEY
        && TookBlock(old(sma.heap), sma.heap, e, Sma.RealSize(n), sma.minBlock, old(sma.avail) - sma.avail)
    {
      hide Chained, EntriesOnly, Counters, Represents, Laid, AllocHeap, CanAlloc, Chosen, TookBlock;
      ghost var pay := sma.seg.pay;
      off := sma.Allocate(n);
      if off.Some? {
        NewBehind(pay, sma, hb, chains, off.value);
        Acquire(pay, hb, chains, off.value, sma.seg.pay[off.value]);
      }
    }

    /** Allocates memory for an entry of `n` bytes; the entry is referenced from the start. */
    method TryAllocate(n: nat) returns (off: Option<nat>)
      requires Valid() && n >= KEY * Sma.WORD
      modifies this, sma, sma.seg, sma.seg.words
      ensures Valid() && Header() == old(Header()) && (off.Some? <==> RoomFor(old(sma.heap), n))
      ensures off.None? ==> St() == old(St()) && loose == old(loose) && sma.heap == old(sma.heap)
      ensures off.Some? ==>
        off.value !in old(loose) && loose == old(loose) + {off.value}
        && Allocated(old(St()), St(), off.value, Sma.WordsFor(n))
        && TookBlock(old(sma.heap), sma.heap, off.value, Sma.RealSize(n), sma.minBlock, old(sma.avail) - sma.avail)
    {
      hide Sma.Allocator.Valid, Image, Items, Counters, Good, Unlisted, RoomFor, TookBlock;
      ghost var st := St();
      off := Grab(n);
      if off.Some? {
        var e := off.value;
        NewNotLoose(st, Header(), hash, loose, e);
        WriteField(e, REFS, 1);
        loose := loose + {e};
        AllocatedGood(st, St(), Header(), hash, old(loose), e, Sma.WordsFor(n));
      }
    }

    /** One more expunge, unless another one was completed since `seen` was read. */
    method ExpungeOnce(n: nat, extra: nat, seen: int, total: nat, t: int, now: int, ghost st0: State,
                       ghost last0: Option<int>)
      returns (done: bool, ghost last: Option<int>)
      requires Valid() && Thinned(st0, St(), hash, ttl, last0)
      modifies this`chains, sma, sma.seg, sma.seg.words
      ensures Valid() && (!done <==> seen < old(Header())[CLEANUPS]) && Thinned(st0, St(), hash, ttl, last)
      ensures Header()[CLEANUPS] == old(Header())[CLEANUPS] + if done then 1 else 0
      ensures !done ==> St() == old(St()) && sma.heap == old(sma.heap) && last == last0
      ensures done ==> last == Later(last0, t) && (SlotsEmpty(St()) || RoomFor(sma.heap, n))
      ensures done ==> ExpungedExactly(Fixed(total), old(Here()), Here(), Rival(n, extra, t, now))
    {
      hide Sma.Allocator.Valid, Image, Items, Counters, Good, RoomFor, Spared, SlotsEmpty, Expunged, Thinned, Later,
           ExpungedExactly, PaysOff;
      ghost var st := St();
      GoodSound(st, Header(), hash, loose);
      done := DefaultExpunge(n, extra, seen, total, t, now);
      last := last0;
      if done {
        ExpungeOutcome(st, St(), hash, loose, n + extra >= total, RoomFor(sma.heap, n + extra), ttl, gcTtl, t, now);
        LessRoom(sma, n, extra);
        GoodSound(St(), Header(), hash, loose);
        ThinnedMore(st0, st, St(), hash, ttl, last0, t);
        last := Later(last0, t);
      }
    }

    /** Other processes expunge the cache while this one waits for the lock. */
    method Wait(rivals: seq<Rival>, total: nat, ghost st0: State, ghost last0: Option<int>)
      returns (ghost last: Option<int>)
      requires Valid() && Thinned(st0, St(), hash, ttl, last0)
      modifies this`chains, sma, sma.seg, sma.seg.words
      ensures Valid() && Thinned(st0, St(), hash, ttl, last)
      ensures Header()[CLEANUPS] == old(Header())[CLEANUPS] + |rivals|
      ensures if rivals == [] then St() == old(St()) && sma.heap == old(sma.heap) && last == last0 else last.Some?
      ensures ExpungedAll(Fixed(total), old(Here()), Here(), rivals)
    {
      hide Sma.Allocator.Valid, Image, Items, Counters, Good, RoomFor, Spared, SlotsEmpty, Expunged, Thinned, Later,
           ExpungedExactly, ExpungedAll;
      ghost var p := Here();
      ExpungedNone(Fixed(total), p);
      last := last0;
      for i := 0 to |rivals|
        invariant Valid() && Thinned(st0, St(), hash, ttl, last)
        invariant Header()[CLEANUPS] == old(Header())[CLEANUPS] + i
        invariant if i == 0 then St() == old(St()) && sma.heap == old(sma.heap) && last == last0 else last.Some?
        invariant ExpungedAll(Fixed(total), p, Here(), rivals[..i])
      {
        var rival := rivals[i];
        ghost var mid := Here();
        var done: bool;
        done, last := ExpungeOnce(rival.size, rival.extra, ReadCounter(CLEANUPS), total, rival.t, rival.now, st0, last);
        ExpungedMore(Fixed(total), p, mid, Here(), rivals[..i], rival);
        assert rivals[..i] + [rival] == rivals[..i + 1];
      }
      assert rivals[..|rivals|] == rivals;
    }

    /** Waits for the lock, and expunges the cache unless others have done so meanwhile. */
    method WaitAndExpunge(n: nat, extra: nat, total: nat, t: int, now: int, others: seq<Rival>, ghost st0: State,
                          ghost last0: Option<int>)
      returns (nuked: bool, ghost last: Option<int>)
      requires Valid() && Thinned(st0, St(), hash, ttl, last0)
      modifies this`chains, sma, sma.seg, sma.seg.words
      ensures Valid() && Thinned(st0, St(), hash, ttl, last) && last.Some? && (nuked <==> others == [])
      ensures nuked ==> last == Later(last0, t) && (SlotsEmpty(St()) || RoomFor(sma.heap, n))
      ensures if nuked then ExpungedExactly(Fixed(total), old(Here()), Here(), Rival(n, extra, t, now))
              else ExpungedAll(Fixed(total), old(Here()), Here(), others)
    {
      hide Sma.Allocator.Valid, Image, Items, Counters, Good, RoomFor, Spared, SlotsEmpty, Thinned, Later,
           ExpungedExactly, ExpungedAll;
      var seen := ReadCounter(CLEANUPS);
      last := Wait(others, total, st0, last0);
      nuked, last := ExpungeOnce(n, extra, seen, total, t, now, st0, last);
    }

    /** Allocates memory for an entry of `n` bytes; if there is none, expunges once and tries
        again, or only tries again if another process expunged meanwhile.  `rivals` are the
        expunges that others complete each time this one waits for the lock; `made` is where the
        cache stood when the memory was or was not found, `last` the time of the latest
        expunge. */
    method Malloc(n: nat, extra: nat, total: nat, maxAlloc: nat, t: int, now: int, rivals: seq<seq<Rival>>)
      returns (off: Option<nat>, ghost made: Point, ghost attempts: nat, ghost last: Option<int>)
      requires Valid() && n >= KEY * Sma.WORD
      modifies this, sma, sma.seg, sma.seg.words
      ensures Valid() && (off.None? ==> Here() == made && loose == old(loose))
      ensures off.Some? ==>
        off.value !in old(loose) && loose == old(loose) + {off.value}
        && Allocated(made.st, St(), off.value, Sma.WordsFor(n))
        && exists size :: TookBlock(made.heap, sma.heap, off.value, Sma.RealSize(n), sma.minBlock, size)
      ensures Mallocated(old(Fixed(total)), old(Here()), made, off.Some?, Demand(n, extra, maxAlloc, t, now), rivals)
      ensures MadeRoom(old(St()), made.st, hash, n > maxAlloc, RoomFor(old(sma.heap), n), off.Some?,
                       RoomFor(made.heap, n), ttl, last)
      ensures n > maxAlloc || RoomFor(old(sma.heap), n) ==> Header() == old(Header())
      ensures attempts <= 2 + |rivals| && (rivals == [] && last.Some? ==> last.value == t)
    {
      hide Sma.Allocator.Valid, Image, Items, Counters, Good, Unlisted, RoomFor, Spared, SlotsEmpty, Expunged,
           Allocated, Thinned, Leads, Mallocated, ExpungedExactly, ExpungedAll, TookBlock;
      ghost var want, cfg, p := Demand(n, extra, maxAlloc, t, now), Fixed(total), Here();
      LeadsSelf(cfg, p, rivals, want);
      made, attempts, last := Here(), 0, None;
      ThinnedNone(St(), hash, ttl);
      var nuked, k := false, 0;
      while true
        invariant Valid() && loose == old(loose) && made == Here() && Thinned(old(St()), St(), hash, ttl, last)
        invariant !nuked ==> k <= |rivals| && Leads(cfg, p, rivals, Here(), rivals[k..], want)
        invariant nuked ==> Mallocated(cfg, p, Here(), RoomFor(sma.heap, n), want, rivals)
        invariant last.None? ==> !nuked && St() == old(St()) && sma.heap == old(sma.heap) && Header() == old(Header())
        invariant k <= |rivals| && attempts <= k + if nuked then 1 else 0
        invariant last.Some? ==> n <= maxAlloc && !RoomFor(old(sma.heap), n)
        invariant nuked ==> SlotsEmpty(St()) || RoomFor(sma.heap, n)
        invariant rivals == [] && last.Some? ==> last.value == t
        decreases |rivals| - k, !nuked
      {
        ghost var here, rest := Here(), rivals[k..];
        if !nuked {
          LeadsNow(cfg, p, rivals, here, rest, want);
        }
        if n > maxAlloc {
          return None, made, attempts, last;
        }
        off := TryAllocate(n);
        attempts := attempts + 1;
        if off.Some? || nuked {
          return;
        }
        var others := if k < |rivals| then rivals[k] else [];
        nuked, last := WaitAndExpunge(n, extra, total, t, now, others, p.st, last);
        if nuked {
          LeadsOwn(cfg, p, rivals, here, Here(), rest, want);
        } else {
          LeadsWait(cfg, p, rivals, here, Here(), rest, want);
          assert rest[1..] == rivals[k + 1..];
        }
        k := if k < |rivals| then k + 1 else k;
        made := Here();
      }
    }

    /** Writes a word of an entry that is not in the cache yet. */
    method WriteNew(e: nat, f: nat, x: int)
      requires Valid() && e in loose && TTL <= f < TTL + |ItemAt(St(), e)| && f != REFS
      modifies sma.seg, sma.seg.words
      ensures Valid() && Header() == old(Header())
      ensures St() == State(old(St()).items[e := ItemAt(old(St()), e)[f - TTL := x]], chains)
    {
      hide Sma.Allocator.Valid, Image, Items, Counters, Good;
      WrittenGood(St(), Header(), hash, loose, e, f, x);
      WriteField(e, f, x);
    }

    /** Fills in the words of a new entry behind its metadata. */
    method FillBody(e: nat, body: seq<int>)
      requires Valid() && e in loose && |ItemAt(St(), e)| == VAL - TTL + |body| && Field(ItemAt(St(), e), REFS) == 1
      modifies sma.seg, sma.seg.words
      ensures Valid() && Header() == old(Header()) && Filled(old(St()), St(), e, body, |body|)
    {
      hide Sma.Allocator.Valid, Image, Items, Counters, Good, Field, Filled;
      ghost var st := St();
      LooseIsIn(st, Header(), hash, loose, e);
      FilledStart(st, e, body);
      for i := 0 to |body|
        invariant Valid() && Header() == old(Header()) && Filled(st, St(), e, body, i)
      {
        FilledNext(st, St(), e, body, i, body[i]);
        WriteNew(e, VAL + i, body[i]);
      }
    }

    /** Fills in the metadata of a new entry. */
    method FillMeta(e: nat, size: nat, life: int, t: int)
      requires Valid() && e in loose && |ItemAt(St(), e)| >= KEY - TTL
      modifies sma.seg, sma.seg.words
      ensures Valid() && Header() == old(Header()) && e in old(St()).items && |old(St()).items[e]| >= KEY - TTL
      ensures St() == State(old(St()).items[e := WithTimes(old(St()).items[e], size, life, t)], chains)
    {
      hide Sma.Allocator.Valid, Image, Items, Counters, Good;
      LooseIsIn(St(), Header(), hash, loose, e);
      WriteNew(e, MEMSIZE, size);
      WriteNew(e, TTL, life);
      WriteNew(e, NHITS, 0);
      FillTimes(e, t);
    }

    method FillTimes(e: nat, t: int)
      requires Valid() && e in loose && e in St().items && |St().items[e]| >= KEY - TTL
      modifies sma.seg, sma.seg.words
      ensures Valid() && Header() == old(Header())
      ensures St() == State(old(St()).items[e := Stamped(ItemAt(old(St()), e), t)], chains)
    {
      hide Sma.Allocator.Valid, Image, Items, Counters, Good;
      WriteNew(e, CTIME, t);
      WriteNew(e, MTIME, t);
      WriteNew(e, ATIME, t);
      WriteNew(e, DTIME, 0);
    }

    /** Fills in a new entry. */
    method FillEntry(e: nat, body: seq<int>, life: int, t: int)
      requires Valid() && e in loose && |body| >= KEY - VAL && |ItemAt(St(), e)| == VAL - TTL + |body|
               && Field(ItemAt(St(), e), REFS) == 1
      modifies sma.seg, sma.seg.words
      ensures Valid() && Header() == old(Header())
      ensures St() == State(old(St()).items[e := NewEntry(body, life, t, 1)], chains)
    {
      hide Sma.Allocator.Valid, Image, Items, Counters, Good, Field, Filled;
      ghost var st := St();
      FillBody(e, body);
      FilledAll(st, St(), e, body, life, t);
      FillMeta(e, VAL + |body|, life, t);
    }

    /** Gives up a new entry that was not inserted. */
    method Discard(e: nat)
      requires Valid() && e in loose
      modifies this, sma, sma.seg, sma.seg.words
      ensures Valid() && Header() == old(Header()) && loose == old(loose) - {e}
      ensures St() == State(old(St()).items - {e}, old(St()).chains)
    {
      hide Sma.Allocator.Valid, Image, Items, Counters, Good, Unlisted;
      LooseIsIn(St(), Header(), hash, loose, e);
      DiscardGood(St(), Header(), hash, loose, e);
      FreeEntry(e);
      loose := loose - {e};
    }

    /** Stores the words `body` under the key: makes an entry, puts it into its slot and
        releases it, or discards it if the key is taken.  `made` is the state of the cache in
        which the memory was or was not found. */
    method Store(key: seq<int>, body: seq<int>, life: int, exclusive: bool, extra: nat, total: nat, maxAlloc: nat,
                 t: int, now: int, rivals: seq<seq<Rival>>)
      returns (ok: bool, ghost made: Point, ghost memory: bool, ghost last: Option<int>)
      requires Valid() && KeyedBody(hash, body, key)
      modifies this, sma, sma.seg, sma.seg.words
      ensures Valid() && loose == old(loose)
      ensures var n := (VAL + |body|) * Sma.WORD;
              && Mallocated(old(Fixed(total)), old(Here()), made, memory, Demand(n, extra, maxAlloc, t, now), rivals)
              && MadeRoom(old(St()), made.st, hash, n > maxAlloc, RoomFor(old(sma.heap), n), memory,
                          RoomFor(made.heap, n), ttl, last)
      ensures rivals == [] && last.Some? ==> last.value == t
      ensures !memory ==> !ok && Here() == made
      ensures var n := (VAL + |body|) * Sma.WORD;
              n > maxAlloc || RoomFor(old(sma.heap), n) ==> OneInsert(old(Header()), Header(), ok)
      ensures memory ==> StoreEffect(made.st, St(), hash, key, NewEntry(body, life, t, 0), exclusive, ttl, t, ok)
    {
      hide Sma.Allocator.Valid, Image, Items, Counters, Good, Unlisted, RoomFor, KeyIn, Field, ItemOk, KeyedBody,
           MadeRoom, Mallocated, TookBlock, SameBut, OneInsert, Allocated, CacheModel.Insert, StoreEffect, WithMeta,
           NewEntry;
      var n := (VAL + |body|) * Sma.WORD;
      BodySized(hash, body, key, life, t);
      var off: Option<nat>;
      ghost var attempts: nat;
      off, made, attempts, last := Malloc(n, extra, total, maxAlloc, t, now, rivals);
      memory := off.Some?;
      SameButSelf(Header(), {MEM, ENTRIES});
      NoInsert(Header(), Header());
      if off.None? {
        return false, made, memory, last;
      }
      var e := off.value;
      AllocatedFacts(made.st, St(), e, Sma.WordsFor(n), NewEntry(body, life, t, 1));
      FillEntry(e, body, life, t);
      ghost var st := St();
      FilledNew(made.st, st, Header(), hash, loose, e, key, body, life, t);
      StoreFacts(made.st, st, Header(), hash, loose, e, key, body, life, exclusive, ttl, gcTtl, t, now);
      ok := Insert(e, key, exclusive, now);
      if ok {
        Release(e);
      } else {
        Discard(e);
      }
    }

    /** Updates the integer under the key in place; if the key is not found, stores a zero under
        it first, unless another process does.  `mid` is the state after the store. */
    method UpdateOrInsert(key: seq<Byte>, t: int, updater: int -> (int, bool), insert: bool, life: int, extra: nat,
                          total: nat, maxAlloc: nat, now: int, rivals: seq<seq<Rival>>)
      returns (done: Option<bool>, ghost made: Point, ghost memory: bool, ghost last: Option<int>, ghost mid: State)
      requires Valid()
      modifies this, sma, sma.seg, sma.seg.words
      ensures Valid() && loose == old(loose) && |old(St()).chains| > 1
      ensures CacheModel.Find(old(St()), hash, key, t).Some? || !insert ==>
                LongUpdated(old(St()), St(), hash, key, t, updater, done)
      ensures CacheModel.Find(old(St()), hash, key, t).None? && insert ==>
        var n := (VAL + |ZeroBody(hash, key)|) * Sma.WORD;
        && Mallocated(old(Fixed(total)), old(Here()), made, memory, Demand(n, extra, maxAlloc, t, now), rivals)
        && MadeRoom(old(St()), made.st, hash, n > maxAlloc, RoomFor(old(sma.heap), n), memory, RoomFor(made.heap, n),
                    ttl, last)
        && LongUpdated(mid, St(), hash, key, t, updater, done)
        && (!memory ==> Point(mid, sma.heap) == made && done.None?)
        && (memory ==>
              StoreEffect(made.st, mid, hash, key, NewEntry(ZeroBody(hash, key), life, t, 0), true, ttl, t, true))
        && (memory && life >= 0 ==> done == Some(updater(0).1))
    {
      hide Sma.Allocator.Valid, Image, Items, Counters, Good, KeyedBody, MadeRoom, StoreEffect, NewEntry, RoomFor,
           LongUpdated, CacheModel.Find, Taken, Mallocated;
      made, memory, last, mid := Here(), false, None, St();
      GoodSound(St(), Header(), hash, loose);
      GoodSized(St(), Header(), hash, loose);
      UpdateFinds(St(), hash, key, t, updater);
      done := UpdateLong(key, t, updater);
      if done.Some? || !insert {
        return;
      }
      ZeroKeyed(hash, key);
      ghost var st, n, room := St(), (VAL + |ZeroBody(hash, key)|) * Sma.WORD,
          RoomFor(sma.heap, (VAL + |ZeroBody(hash, key)|) * Sma.WORD);
      var ok: bool;
      ok, made, memory, last := Store(key, ZeroBody(hash, key), life, true, extra, total, maxAlloc, t, now, rivals);
      mid := St();
      GoodSound(mid, Header(), hash, loose);
      ZeroStored(st, made.st, mid, hash, key, life, t, ttl, last, n > maxAlloc, room, memory, RoomFor(made.heap, n), ok,
                 updater);
      done := UpdateLong(key, t, updater);
    }

    /** Empties the cache and gives back what nobody refers to. */
    method Clear(t: int, now: int)
      requires Valid()
      modifies this`chains, sma, sma.seg, sma.seg.words
      ensures Valid() && |old(St()).chains| > 1 && St() == Collect(ClearFrom(old(St()), 1, now), 0, now, gcTtl)
      ensures Header()[CLEANUPS] == 0 && Header()[DEFRAGS] == 0 && Header()[EXPUNGES] == 0
      ensures FreedOnly(old(St()), old(sma.heap), St(), sma.heap)
    {
      hide Sma.Allocator.Valid, Image, Items, Counters, Good, Collect, ClearFrom, FreedOnly;
      Wipe(t, now);
      Count(CLEANUPS, 0);
      Count(DEFRAGS, 0);
      Count(EXPUNGES, 0);
    }
  }

  /** Sets up the cache header as the first allocation of a fresh segment. */
  method Create(sma: Sma.Allocator, nslots: nat, ttl: int, gcTtl: int, hash: Hash, now: int)
    returns (created: Option<Cache>)
    requires sma.Valid() && sma.heap == HeapModel.Fresh(sma.lo, sma.hi) && sma.seg.pay == map[] && nslots > 0
    modifies sma, sma.seg, sma.seg.words
    ensures created.Some? <==> RoomFor(old(sma.heap), (GC + 1 + nslots) * Sma.WORD)
    ensures created.Some? ==>
      var c := created.value;
      && fresh(c) && c.Valid() && c.sma == sma && c.St() == State(map[], EmptyChains(nslots)) && c.loose == {}
      && c.ttl == ttl && c.gcTtl == gcTtl && c.hash == hash && c.Header() == seq(GC, i => 0)[STIME := now]
  {
    hide Represents, Laid, AllocHeap, CanAlloc, Chosen, Good, Image;
    FreshChoice(sma, (GC + 1 + nslots) * Sma.WORD);
    var off := sma.Allocate((GC + 1 + nslots) * Sma.WORD);
    if off.None? {
      return None;
    }
    var hb := off.value;
    for i := 0 to GC + 1 + nslots
      invariant sma.Valid() && sma.seg.pay.Keys == {hb} && |sma.seg.pay[hb]| == GC + 1 + nslots
      invariant forall j | 0 <= j < i :: sma.seg.pay[hb][j] == 0
    {
      sma.Poke(hb + i, 0, hb);
    }
    assert sma.seg.pay[hb] == seq(GC + 1 + nslots, i => 0);
    assert sma.seg.pay == map[hb := sma.seg.pay[hb]];
    var c := new Cache(sma, hb, nslots, ttl, gcTtl, hash);
    c.Count(STIME, now);
    created := Some(c);
  }

  /** The first allocation in a fresh segment is at its start. */
  lemma FreshChoice(sma: Sma.Allocator, n: nat)
    requires sma.Valid() && sma.heap == HeapModel.Fresh(sma.lo, sma.hi)
    ensures Chosen(sma.heap, Sma.RealSize(n)).Some? ==> Chosen(sma.heap, Sma.RealSize(n)).value == sma.lo
  {
    hide Chosen, Laid, FreeList.Shape, Listed, PayloadsFit;
    ChosenComplete(sma.heap, sma.lo, sma.hi, Sma.RealSize(n));
  }

  lemma BlockOfPayload(sma: Sma.Allocator, e: nat)
    requires sma.Valid() && e in sma.seg.pay
    ensures WellFormed(sma.heap, sma.lo, sma.hi)
    ensures B <= e && e - B in sma.heap.blocks && sma.heap.blocks[e - B].Used?
  {
    hide Laid, WellFormed;
    assert InUsedBlock(sma.heap.blocks, e);
  }

  // ----- What defragmentation is good for -----

  /** All free memory is in one block. */
  ghost predicate OneFreeBlock(h: Heap) {
    Avail(h) > 0 ==> exists o :: o in h.blocks && h.blocks[o] == Free(Avail(h))
  }

  lemma NonePinned(o: Origin)
    requires Unreferenced(StateOf(o.pay, o.hb, o.chains))
    ensures Pinned(o) == {}
  {
    forall e | e in o.pay && e != o.hb
      ensures Refs(o.pay, e) <= 0
    {
      assert e in StateOf(o.pay, o.hb, o.chains).items;
    }
  }

  lemma PinnedIs(o: Origin)
    ensures Pinned(o) == Referenced(StateOf(o.pay, o.hb, o.chains))
  {
    var st := StateOf(o.pay, o.hb, o.chains);
    forall e | e in o.pay && e != o.hb
      ensures e in st.items && Field(st.items[e], REFS) == Refs(o.pay, e)
    {
      RefsField(o.pay, o.hb, e);
    }
  }

  lemma PayloadsHere(sma: Sma.Allocator)
    requires sma.Valid()
    ensures PayloadsFit(sma.seg.pay, sma.heap.blocks) && WellFormed(sma.heap, sma.lo, sma.hi)
  {
    hide Laid, WellFormed, PayloadsFit;
  }

  /** What the defragmenter has done, as a step between two points. */
  lemma SweptHere(sma: Sma.Allocator, h: Heap, l: DefragModel.Log, cfg: Setting, p: Point, q: Point)
    requires sma.Valid() && cfg.lo == sma.lo && cfg.hi == sma.hi && p.heap == h && q.heap == sma.heap
    requires l.bs0 == h.blocks && l.pinned == Referenced(p.st) && PayloadsFit(l.pay0, l.bs0)
    requires DefragModel.Recorded(l, sma.seg.pay, sma.heap.blocks, sma.hi, sma.hi)
    requires Relocated(p.st, q.st, cfg.loose)
    ensures MovedTogether(cfg, p, q)
  {
    hide DefragModel.Recorded, WellFormed, PayloadsFit, Relocated, Laid, Referenced;
    PayloadsHere(sma);
    assert DefragModel.SweptBy(l, sma.seg.pay, q.heap, cfg.lo, cfg.hi);
  }

  lemma SweptTogether(sma: Sma.Allocator, o: Origin, l: DefragModel.Log)
    requires sma.Valid() && l.pinned == Pinned(o)
    requires DefragModel.Recorded(l, sma.seg.pay, sma.heap.blocks, sma.hi, sma.hi)
    ensures Unreferenced(StateOf(o.pay, o.hb, o.chains)) ==> OneFreeBlock(sma.heap)
  {
    hide Laid, WellFormed, DefragModel.Recorded, Unreferenced, Pinned, Avail;
    if Unreferenced(StateOf(o.pay, o.hb, o.chains)) {
      NonePinned(o);
      DefragModel.SweptClean(l, sma.seg.pay, sma.heap, sma.lo, sma.hi);
    }
  }

  lemma TogetherRoom(sma: Sma.Allocator, n: nat)
    requires sma.Valid() && OneFreeBlock(sma.heap)
    ensures Sma.RealSize(n) <= sma.avail ==> RoomFor(sma.heap, n)
  {
    hide Chosen, Laid, WellFormed, Avail;
    ChosenComplete(sma.heap, sma.lo, sma.hi, Sma.RealSize(n));
  }

  /** If there is room for a request, then for a smaller one too. */
  lemma LessRoom(sma: Sma.Allocator, n: nat, extra: nat)
    requires sma.Valid()
    ensures RoomFor(sma.heap, n + extra) ==> RoomFor(sma.heap, n)
  {
    hide Chosen, Laid, FreeList.Shape, Listed, PayloadsFit;
    ChosenComplete(sma.heap, sma.lo, sma.hi, Sma.RealSize(n + extra));
    ChosenComplete(sma.heap, sma.lo, sma.hi, Sma.RealSize(n));
  }

  lemma NewBehind(pay: Payloads, sma: Sma.Allocator, hb: nat, chains: Chains, e: nat)
    requires sma.Valid() && e in sma.seg.pay && e !in pay && sma.seg.pay == pay[e := sma.seg.pay[e]]
    requires hb == sma.lo + B && Image(pay, hb, chains)
    ensures hb in pay && hb < e && hb + |pay[hb]| <= e
  {
    hide Represents, Laid, AllLinked, AllEntries, Separate;
    BehindHeader(sma.seg.hd, sma.seg.words[..], sma.seg.pay, sma.heap, sma.lo, sma.hi, hb, e);
  }
}
