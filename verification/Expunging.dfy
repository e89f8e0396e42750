/** Making room for a request, exactly: what an expunge does, and what an allocation does that
    expunges the cache when there is no room. */
module Expunging {
  import opened Blocks
  import opened HeapModel
  import opened CacheLists
  import opened CacheModel
  import opened CacheState
  import DefragModel
  import Sma

  /** Whether a request of `n` bytes fits into some free block. */
  ghost predicate RoomFor(h: Heap, n: nat) {
    Chosen(h, Sma.RealSize(n)).Some?
  }

  /** The entries, and the memory that they are in. */
  datatype Point = Point(st: State, heap: Heap)

  /** What does not change about a cache: where its memory begins and ends, which entries are
      in no list, and its times. */
  datatype Setting = Setting(lo: nat, hi: nat, loose: set<nat>, ttl: int, gcTtl: int, total: nat)

  /** The entries that somebody refers to. */
  ghost function Referenced(st: State): set<nat> {
    set e | e in st.items && Field(st.items[e], REFS) > 0
  }

  // ----- One expunge -----

  /** Exactly the entries that are not in `q` any more were freed. */
  ghost predicate FreedInto(cfg: Setting, p: Point, q: Point) {
    WellFormed(q.heap, cfg.lo, cfg.hi) && FreedOnly(p.st, p.heap, q.st, q.heap)
  }

  /** All slots were emptied. */
  ghost predicate Wiped(cfg: Setting, p: Point, q: Point, now: int) {
    |p.st.chains| > 1 && q.st == ClearFrom(p.st, 1, now) && FreedInto(cfg, p, q)
  }

  /** The entries were moved together, but for those that somebody refers to. */
  ghost predicate MovedTogether(cfg: Setting, p: Point, q: Point) {
    && Relocated(p.st, q.st, cfg.loose) && WellFormed(q.heap, cfg.lo, cfg.hi)
    && DefragModel.Swept(p.heap, q.heap, Referenced(p.st), cfg.lo, cfg.hi)
  }

  /** An expunge for `r.size` bytes and `r.extra` more.  A request as large as the segment empties
      the cache.  Otherwise the expired entries go; if there is not enough free memory then, the
      rest goes too.  Otherwise the entries are moved together, and go only if there is still no
      block that is large enough.  `cleaned` and `moved` are the points in between. */
  ghost predicate ExpungedVia(cfg: Setting, p: Point, q: Point, r: Rival, cleaned: Point, moved: Point) {
    var n := r.size + r.extra;
    |p.st.chains| > 1 &&
    if n >= cfg.total then
      q.st == Collect(ClearFrom(p.st, 1, r.now), 0, r.now, cfg.gcTtl) && FreedInto(cfg, p, q)
    else
      && cleaned.st == Cleaned(p.st, cfg.ttl, cfg.gcTtl, r.t, r.now) && FreedInto(cfg, p, cleaned)
      && if Avail(cleaned.heap) < Sma.RealSize(n) then Wiped(cfg, cleaned, q, r.now)
         else
           && MovedTogether(cfg, cleaned, moved)
           && if RoomFor(moved.heap, n) then q == moved else Wiped(cfg, moved, q, r.now)
  }

  ghost predicate ExpungedExactly(cfg: Setting, p: Point, q: Point, r: Rival) {
    exists cleaned, moved :: ExpungedVia(cfg, p, q, r, cleaned, moved)
  }

  // ----- An expunge is determined -----

  /** Every entry has an allocated block of its own. */
  ghost predicate InBlocks(p: Point) {
    forall e | e in p.st.items :: B <= e && e - B in UsedPart(p.heap.blocks)
  }

  lemma FreedInBlocks(cfg: Setting, p: Point, q: Point)
    requires InBlocks(p) && FreedInto(cfg, p, q)
    ensures InBlocks(q)
  {
    hide WellFormed;
    forall e | e in q.st.items
      ensures B <= e && e - B in UsedPart(q.heap.blocks)
    {
      assert e in p.st.items && e !in p.st.items.Keys - q.st.items.Keys;
      assert e - B in Kept(p.heap, p.st.items.Keys - q.st.items.Keys);
    }
  }

  /** Freeing the same entries leads to the same blocks. */
  lemma FreedUnique(cfg: Setting, p: Point, q: Point, q2: Point)
    requires FreedInto(cfg, p, q) && FreedInto(cfg, p, q2) && q.st.items.Keys == q2.st.items.Keys
    ensures q.heap.blocks == q2.heap.blocks
  {
    hide Tiled, CoalescedBut, Kept, UsedPart;
    UsedDetermines(q.heap.blocks, q2.heap.blocks, cfg.lo, cfg.hi);
  }

  /** Whether there is room depends on the blocks only. */
  lemma SameRoom(h: Heap, h2: Heap, lo: nat, hi: nat, n: nat)
    requires WellFormed(h, lo, hi) && WellFormed(h2, lo, hi) && h.blocks == h2.blocks
    ensures RoomFor(h, n) <==> RoomFor(h2, n)
  {
    hide WellFormed, Chosen;
    ChosenComplete(h, lo, hi, Sma.RealSize(n));
    ChosenComplete(h2, lo, hi, Sma.RealSize(n));
  }

  lemma MovedUnique(cfg: Setting, p: Point, p2: Point, q: Point, q2: Point)
    requires MovedTogether(cfg, p, q) && MovedTogether(cfg, p2, q2) && InBlocks(p)
    requires p2.st == p.st && p2.heap.blocks == p.heap.blocks
    ensures q.heap.blocks == q2.heap.blocks
  {
    hide Relocated, WellFormed, DefragModel.SweptBy, UsedPart;
    var h := p.heap;
    assert DefragModel.Swept(h, q2.heap, Referenced(p.st), cfg.lo, cfg.hi) by {
      var l, pay :| DefragModel.SweptBy(l, pay, q2.heap, cfg.lo, cfg.hi) && l.bs0 == p2.heap.blocks
                    && l.pinned == Referenced(p.st);
    }
    DefragModel.SweptUnique(h, q.heap, q2.heap, Referenced(p.st), cfg.lo, cfg.hi);
  }

  /** What an expunge does is determined by where it starts: the blocks after cleaning and after
      moving, and with them whether the cache is emptied. */
  lemma ExpungeDetermined(cfg: Setting, p: Point, r: Rival, q: Point, cleaned: Point, moved: Point, q2: Point,
                          cleaned2: Point, moved2: Point)
    requires ExpungedVia(cfg, p, q, r, cleaned, moved) && ExpungedVia(cfg, p, q2, r, cleaned2, moved2) && InBlocks(p)
    requires r.size + r.extra < cfg.total
    ensures cleaned.heap.blocks == cleaned2.heap.blocks && Avail(cleaned.heap) == Avail(cleaned2.heap)
    ensures Avail(cleaned.heap) >= Sma.RealSize(r.size + r.extra) ==>
              && moved.heap.blocks == moved2.heap.blocks
              && (RoomFor(moved.heap, r.size + r.extra) <==> RoomFor(moved2.heap, r.size + r.extra))
  {
    hide Cleaned, Wiped, MovedTogether, FreedInto, RoomFor, InBlocks;
    FreedUnique(cfg, p, cleaned, cleaned2);
    if Avail(cleaned.heap) >= Sma.RealSize(r.size + r.extra) {
      FreedInBlocks(cfg, p, cleaned);
      MovedUnique(cfg, cleaned, cleaned2, moved, moved2);
      MovedFormed(cfg, cleaned, moved);
      MovedFormed(cfg, cleaned2, moved2);
      SameRoom(moved.heap, moved2.heap, cfg.lo, cfg.hi, r.size + r.extra);
    }
  }

  lemma MovedFormed(cfg: Setting, p: Point, q: Point)
    requires MovedTogether(cfg, p, q)
    ensures WellFormed(q.heap, cfg.lo, cfg.hi)
  {
    hide Relocated, WellFormed;
  }

  // ----- When the cache is emptied -----

  /** An expunge spares all unexpired entries if cleaning and moving make room, referenced
      entries or not, and empties all slots otherwise. */
  lemma ExpungeDecides(cfg: Setting, p: Point, q: Point, r: Rival, cleaned: Point, moved: Point, hash: Hash)
    requires ExpungedVia(cfg, p, q, r, cleaned, moved) && Sound(p.st, hash)
    ensures var n := r.size + r.extra;
            if n < cfg.total && Sma.RealSize(n) <= Avail(cleaned.heap) && RoomFor(moved.heap, n)
            then q == moved && RoomFor(q.heap, n) && Spared(p.st, q.st, hash, cfg.ttl, r.t)
            else SlotsEmpty(q.st)
  {
    hide Cleaned, FreedInto, RoomFor, Sound, ClearFrom, Collect, Relocated, Spared, Avail, SlotsEmpty;
    CleanedHolds(p.st, hash, cfg.ttl, cfg.gcTtl, r.t, r.now);
    var c := Cleaned(p.st, cfg.ttl, cfg.gcTtl, r.t, r.now);
    SoundSized(c, hash);
    if r.size + r.extra >= cfg.total {
      ClearedEmpty(p.st, hash, r.now);
      SoundSized(ClearFrom(p.st, 1, r.now), hash);
      CollectKeepsEmpty(ClearFrom(p.st, 1, r.now), r.now, cfg.gcTtl);
    } else if Avail(cleaned.heap) < Sma.RealSize(r.size + r.extra) {
      ClearedEmpty(c, hash, r.now);
    } else if RoomFor(moved.heap, r.size + r.extra) {
      CleanedAndMoved(p.st, moved.st, hash, cfg.loose, cfg.ttl, cfg.gcTtl, r.t, r.now);
    } else {
      RelocatedSound(c, moved.st, hash, cfg.loose);
      ClearedEmpty(moved.st, hash, r.now);
    }
  }

  lemma ClearedEmpty(st: State, hash: Hash, now: int)
    requires Sound(st, hash) && |st.chains| > 1
    ensures SlotsEmpty(ClearFrom(st, 1, now)) && Sound(ClearFrom(st, 1, now), hash)
  {
    hide Placed, Separate, ClearFrom;
    ClearRefines(st, hash, now);
  }

  // ----- Several expunges -----

  /** The expunges `rs` one after the other. */
  ghost predicate ExpungedAll(cfg: Setting, p: Point, q: Point, rs: seq<Rival>)
    decreases |rs|
  {
    if rs == [] then q == p
    else exists mid {:trigger ExpungedExactly(cfg, mid, q, rs[|rs| - 1])} ::
      ExpungedAll(cfg, p, mid, rs[..|rs| - 1]) && ExpungedExactly(cfg, mid, q, rs[|rs| - 1])
  }

  lemma ExpungedMore(cfg: Setting, p: Point, mid: Point, q: Point, rs: seq<Rival>, r: Rival)
    requires ExpungedAll(cfg, p, mid, rs) && ExpungedExactly(cfg, mid, q, r)
    ensures ExpungedAll(cfg, p, q, rs + [r])
  {
    hide ExpungedExactly;
    var rs1 := rs + [r];
    assert rs1[..|rs|] == rs;
    assert ExpungedExactly(cfg, mid, q, rs1[|rs1| - 1]);
  }

  lemma ExpungedNone(cfg: Setting, p: Point)
    ensures ExpungedAll(cfg, p, p, [])
  {
  }

  // ----- Allocating -----

  /** A request: its size, what an expunge for it adds, the times it reads, and the largest size
      that is allocated at all. */
  datatype Demand = Demand(n: nat, extra: nat, maxAlloc: nat, t: int, now: int)

  function Own(q: Demand): Rival {
    Rival(q.n, q.extra, q.t, q.now)
  }

  /** From `p` the request leads to `q`, where memory is `found` or not.  If there is room, it
      costs nothing.  Otherwise the cache is expunged: by others if they come first, who are
      given in `rivals` attempt by attempt, after which all is tried again; or else by the
      process itself, which then tries once more. */
  ghost predicate Mallocated(cfg: Setting, p: Point, q: Point, found: bool, want: Demand, rivals: seq<seq<Rival>>)
    decreases |rivals|
  {
    if want.n > want.maxAlloc then q == p && !found
    else if RoomFor(p.heap, want.n) then q == p && found
    else if rivals != [] && rivals[0] != [] then
      exists mid :: ExpungedAll(cfg, p, mid, rivals[0]) && Mallocated(cfg, mid, q, found, want, rivals[1..])
    else ExpungedExactly(cfg, p, q, Own(want)) && (found <==> RoomFor(q.heap, want.n))
  }

  /** Memory is found if and only if the request is not too large and, at the end, there is a
      free block for it. */
  lemma {:induction false} FoundIffRoom(cfg: Setting, p: Point, q: Point, found: bool, want: Demand,
                                        rivals: seq<seq<Rival>>)
    requires Mallocated(cfg, p, q, found, want, rivals)
    ensures found <==> want.n <= want.maxAlloc && RoomFor(q.heap, want.n)
    decreases |rivals|
  {
    hide ExpungedAll, ExpungedExactly, RoomFor;
    if want.n <= want.maxAlloc && !RoomFor(p.heap, want.n) && rivals != [] && rivals[0] != [] {
      var mid :| ExpungedAll(cfg, p, mid, rivals[0]) && Mallocated(cfg, mid, q, found, want, rivals[1..]);
      FoundIffRoom(cfg, mid, q, found, want, rivals[1..]);
    }
  }

  /** Whatever the request leads to from `p` with the remaining rivals, it led to from `p0`. */
  ghost predicate Leads(cfg: Setting, p0: Point, rivals0: seq<seq<Rival>>, p: Point, rivals: seq<seq<Rival>>,
                        want: Demand) {
    forall q, found {:trigger Mallocated(cfg, p, q, found, want, rivals)} ::
      Mallocated(cfg, p, q, found, want, rivals) ==> Mallocated(cfg, p0, q, found, want, rivals0)
  }

  lemma LeadsSelf(cfg: Setting, p: Point, rivals: seq<seq<Rival>>, want: Demand)
    ensures Leads(cfg, p, rivals, p, rivals, want)
  {
  }

  lemma LeadsWait(cfg: Setting, p0: Point, rivals0: seq<seq<Rival>>, p: Point, mid: Point, rivals: seq<seq<Rival>>,
                  want: Demand)
    requires Leads(cfg, p0, rivals0, p, rivals, want) && want.n <= want.maxAlloc && !RoomFor(p.heap, want.n)
    requires rivals != [] && rivals[0] != [] && ExpungedAll(cfg, p, mid, rivals[0])
    ensures Leads(cfg, p0, rivals0, mid, rivals[1..], want)
  {
    hide ExpungedAll, ExpungedExactly, RoomFor;
    forall q, found | Mallocated(cfg, mid, q, found, want, rivals[1..])
      ensures Mallocated(cfg, p0, q, found, want, rivals0)
    {
      assert Mallocated(cfg, p, q, found, want, rivals);
    }
  }

  lemma LeadsOwn(cfg: Setting, p0: Point, rivals0: seq<seq<Rival>>, p: Point, q: Point, rivals: seq<seq<Rival>>,
                 want: Demand)
    requires Leads(cfg, p0, rivals0, p, rivals, want) && want.n <= want.maxAlloc && !RoomFor(p.heap, want.n)
    requires (rivals == [] || rivals[0] == []) && ExpungedExactly(cfg, p, q, Own(want))
    ensures Mallocated(cfg, p0, q, RoomFor(q.heap, want.n), want, rivals0)
  {
    hide ExpungedAll, ExpungedExactly, RoomFor;
    assert Mallocated(cfg, p, q, RoomFor(q.heap, want.n), want, rivals);
  }

  lemma LeadsNow(cfg: Setting, p0: Point, rivals0: seq<seq<Rival>>, p: Point, rivals: seq<seq<Rival>>, want: Demand)
    requires Leads(cfg, p0, rivals0, p, rivals, want)
    ensures want.n > want.maxAlloc ==> Mallocated(cfg, p0, p, false, want, rivals0)
    ensures want.n <= want.maxAlloc && RoomFor(p.heap, want.n) ==> Mallocated(cfg, p0, p, true, want, rivals0)
  {
    hide ExpungedAll, ExpungedExactly, RoomFor;
    assert want.n > want.maxAlloc ==> Mallocated(cfg, p, p, false, want, rivals);
    assert want.n <= want.maxAlloc && RoomFor(p.heap, want.n) ==> Mallocated(cfg, p, p, true, want, rivals);
  }

  // ----- How long an entry is spared -----

  /** An entry without a time to live of its own that was last used at `t0`, by being stored or
      by being found. */
  ghost predicate LastUsed(c: Item, t0: int) {
    |c| >= KEY - TTL && Field(c, TTL) == 0 && Field(c, ATIME) == t0
  }

  lemma StoringUses(body: seq<int>, t0: int, refs: int)
    requires |body| >= KEY - VAL
    ensures LastUsed(NewEntry(body, 0, t0, refs), t0)
  {
  }

  lemma FindingUses(st: State, st1: State, e: nat, t0: int)
    requires Accessed(st, st1, e, t0) && e in st.items && |st.items[e]| >= KEY - TTL && Field(st.items[e], TTL) == 0
    ensures e in st1.items && LastUsed(st1.items[e], t0)
  {
  }

  /** The time during which the cache spares such an entry is over. */
  predicate OutOfUse(t0: int, cacheTtl: int, t: int) {
    cacheTtl != 0 && t0 + cacheTtl < t
  }

  lemma UsedExpires(c: Item, t0: int, cacheTtl: int, t: int)
    requires LastUsed(c, t0)
    ensures Expired(c, cacheTtl, t) <==> OutOfUse(t0, cacheTtl, t)
  {
  }

  /** A store spares an entry under another key for as long as the time to live of the cache
      allows, and forever if there is none. */
  lemma StoreSparesUsed(st: State, st1: State, hash: Hash, key: seq<int>, c: Item, exclusive: bool, cacheTtl: int,
                        t: int, ok: bool, key': seq<int>, d: Item, t0: int)
    requires StoreEffect(st, st1, hash, key, c, exclusive, cacheTtl, t, ok)
    requires key' != key && Holds(st, hash, key', d) && LastUsed(d, t0) && !OutOfUse(t0, cacheTtl, t)
    ensures Holds(st1, hash, key', d)
  {
    hide Holds, LastUsed, Expired, Taken;
    UsedExpires(d, t0, cacheTtl, t);
  }

  /** An expunge that does not empty the cache spares such an entry if and only if the time to
      live of the cache allows. */
  lemma ExpungeSparesUsed(cfg: Setting, p: Point, q: Point, r: Rival, hash: Hash, key: seq<int>, d: Item, t0: int)
    requires ExpungedExactly(cfg, p, q, r) && Sound(p.st, hash) && !SlotsEmpty(q.st)
    requires Holds(p.st, hash, key, d) && LastUsed(d, t0)
    ensures Holds(q.st, hash, key, d) <==> !OutOfUse(t0, cfg.ttl, r.t)
  {
    hide ExpungedVia, Sound, Holds, LastUsed, Expired, SlotsEmpty;
    var cleaned, moved :| ExpungedVia(cfg, p, q, r, cleaned, moved);
    ExpungeDecides(cfg, p, q, r, cleaned, moved, hash);
    UsedExpires(d, t0, cfg.ttl, r.t);
  }

  /** An entry with a time to live of its own is spared as long as that lasts. */
  lemma ExpungeSparesLiving(cfg: Setting, p: Point, q: Point, r: Rival, hash: Hash, key: seq<int>, body: seq<int>,
                            life: int, t0: int, refs: int)
    requires ExpungedExactly(cfg, p, q, r) && Sound(p.st, hash) && !SlotsEmpty(q.st) && |body| >= KEY - VAL
    requires Holds(p.st, hash, key, NewEntry(body, life, t0, refs)) && life != 0
    ensures Holds(q.st, hash, key, NewEntry(body, life, t0, refs)) <==> r.t <= t0 + life
  {
    hide ExpungedVia, Sound, Holds, SlotsEmpty;
    var cleaned, moved :| ExpungedVia(cfg, p, q, r, cleaned, moved);
    ExpungeDecides(cfg, p, q, r, cleaned, moved, hash);
    LivingExpires(body, life, t0, refs, cfg.ttl, r.t);
  }

  lemma LivingExpires(body: seq<int>, life: int, t0: int, refs: int, cacheTtl: int, t: int)
    requires |body| >= KEY - VAL && life != 0
    ensures Expired(NewEntry(body, life, t0, refs), cacheTtl, t) <==> t0 + life < t
  {
  }
}
