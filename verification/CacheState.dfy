/** The invariants of the whole cache: ownership, placement and accounting; what the single
    steps of its operations do to them, and what an expunge and a store amount to. */
module CacheState {
  import opened Blocks
  import opened HeapModel
  import opened Segment
  import opened CacheLists
  import opened CacheModel
  import opened Packing
  import opened CacheImage
  import opened CacheMove

  /** The counters in the header are right. */
  ghost predicate Counted(counters: seq<int>, st: State) {
    |counters| == GC && counters[ENTRIES] == CountFrom(st, 1) && counters[MEM] == MemFrom(st, 1)
  }

  ghost predicate Good(st: State, counters: seq<int>, hash: Hash, loose: set<nat>) {
    Sound(st, hash) && OwnedBy(st, loose) && Counted(counters, st)
  }

  /** The header after an entry of `size` words was taken out of its slot. */
  ghost function Debited(counters: seq<int>, size: int): seq<int>
    requires |counters| == GC
  {
    counters[MEM := counters[MEM] - size][ENTRIES := counters[ENTRIES] - 1]
  }

  ghost function Credited(counters: seq<int>, size: int): seq<int>
    requires |counters| == GC
  {
    counters[MEM := counters[MEM] + size][ENTRIES := counters[ENTRIES] + 1][INSERTS := counters[INSERTS] + 1]
  }

  // ----- Ownership -----

  lemma ListedIn(chains: Chains, k: nat, i: nat)
    requires k < |chains| && i < |chains[k]|
    ensures !Unlisted(chains, chains[k][i])
  {
  }

  lemma RemovedListed(chains: Chains, k: nat, i: nat, f: nat)
    requires k < |chains| && i < |chains[k]| && Separate(chains)
    ensures Unlisted(Removed(chains, k, i), f) <==> Unlisted(chains, f) || f == chains[k][i]
  {
    hide Separate;
    RemovedSeparate(chains, k, i);
    var chains1 := Removed(chains, k, i);
    if f != chains[k][i] {
      forall l: nat | l < |chains|
        ensures f in chains1[l] <==> f in chains[l]
      {
        RemovedMembers(chains, k, i, l, f);
      }
      MemberListed(chains, f);
      MemberListed(chains1, f);
    }
  }

  lemma MemberListed(chains: Chains, f: nat)
    ensures Unlisted(chains, f) <==> forall l: nat | l < |chains| :: f !in chains[l]
  {
  }

  lemma InsertedListed(chains: Chains, k: nat, i: nat, e: nat, f: nat)
    requires k < |chains| && i <= |chains[k]|
    ensures Unlisted(Inserted(chains, k, i, e), f) <==> Unlisted(chains, f) && f != e
  {
    var chains1 := Inserted(chains, k, i, e);
    forall l: nat | l < |chains|
      ensures f in chains1[l] <==> f in chains[l] || (l == k && f == e)
    {
    }
    MemberListed(chains, f);
    MemberListed(chains1, f);
  }

  lemma RemoveOwned(st: State, loose: set<nat>, k: nat, i: nat, now: int)
    requires Separate(st.chains) && OwnedBy(st, loose) && At(st, k, i) && k > 0
    ensures OwnedBy(Remove(st, k, i, now), loose)
  {
    hide Separate, Unlisted, Inserted, Field;
    var e, st1, chains1 := st.chains[k][i], Remove(st, k, i, now), Removed(st.chains, k, i);
    ListedIn(st.chains, k, i);
    forall f | f in loose
      ensures LooseIn(st1, f)
    {
      assert LooseIn(st, f);
      RemovedListed(st.chains, k, i, f);
      InsertedListed(chains1, 0, 0, e, f);
    }
    forall f | f in st1.items
      ensures OwnedIn(st1, loose, f)
    {
      assert f != e ==> OwnedIn(st, loose, f);
      RemovedListed(st.chains, k, i, f);
      InsertedListed(chains1, 0, 0, e, f);
    }
  }

  lemma DropOwned(st: State, loose: set<nat>, i: nat)
    requires Separate(st.chains) && OwnedBy(st, loose) && At(st, 0, i)
    ensures OwnedBy(Drop(st, 0, i), loose)
  {
    hide Separate, Unlisted, Removed, Field;
    var e, st1 := st.chains[0][i], Drop(st, 0, i);
    ListedIn(st.chains, 0, i);
    forall f | f in loose
      ensures LooseIn(st1, f)
    {
      assert LooseIn(st, f);
      RemovedListed(st.chains, 0, i, f);
    }
    forall f | f in st1.items
      ensures OwnedIn(st1, loose, f)
    {
      assert OwnedIn(st, loose, f);
      RemovedListed(st.chains, 0, i, f);
    }
  }

  /** Linking a loose entry into a list: it is no longer loose. */
  lemma InsertOwned(st: State, loose: set<nat>, k: nat, i: nat, e: nat)
    requires OwnedBy(st, loose) && k < |st.chains| && i <= |st.chains[k]|
    ensures OwnedBy(st.(chains := Inserted(st.chains, k, i, e)), loose - {e})
  {
    hide Unlisted, Inserted, Field;
    var st1 := st.(chains := Inserted(st.chains, k, i, e));
    forall f | f in loose - {e}
      ensures LooseIn(st1, f)
    {
      assert LooseIn(st, f);
      InsertedListed(st.chains, k, i, e, f);
    }
    forall f | f in st1.items
      ensures OwnedIn(st1, loose - {e}, f)
    {
      assert OwnedIn(st, loose, f);
      InsertedListed(st.chains, k, i, e, f);
    }
  }

  // ----- Accounting: the guards against underflow never apply -----

  /** Whenever an entry leaves its slot, both counters cover it. */
  lemma CountersCover(st: State, counters: seq<int>, hash: Hash, k: nat, i: nat)
    requires Placed(st, hash) && Counted(counters, st) && At(st, k, i) && k > 0
    ensures 0 < Field(ItemAt(st, st.chains[k][i]), MEMSIZE) <= counters[MEM] && counters[ENTRIES] > 0
  {
    hide Placed, Field, MemFrom, CountFrom;
    MemFromPositive(st, hash, 1, k, i);
  }

  lemma RemoveGood(st: State, counters: seq<int>, hash: Hash, loose: set<nat>, k: nat, i: nat, now: int)
    requires Good(st, counters, hash, loose) && At(st, k, i) && k > 0
    ensures |counters| == GC
    ensures Good(Remove(st, k, i, now), Debited(counters, Field(ItemAt(st, st.chains[k][i]), MEMSIZE)), hash, loose)
  {
    hide Placed, Separate, OwnedBy, Field, MemFrom, CountFrom, Remove;
    RemovePlaced(st, hash, k, i, now);
    RemoveOwned(st, loose, k, i, now);
    RemoveSums(st, k, i, now);
  }

  lemma DropGood(st: State, counters: seq<int>, hash: Hash, loose: set<nat>, i: nat)
    requires Good(st, counters, hash, loose) && At(st, 0, i)
    ensures Good(Drop(st, 0, i), counters, hash, loose)
  {
    hide Placed, Separate, OwnedBy, Field, MemFrom, CountFrom, Drop, SameSlots;
    DropSlots(st, i);
    SameSlotsPlaced(st, Drop(st, 0, i), hash);
    SameSlotsSums(st, Drop(st, 0, i), hash);
    DropOwned(st, loose, i);
  }

  // ----- From single removals to whole operations -----

  /** `P` holds on when an entry leaves its slot, and when a removed entry that need not
      stay is freed. */
  ghost predicate KeptByCleaning(P: State -> bool, now: int, gcTtl: int) {
    && (forall st: State, k: nat, i: nat {:trigger Remove(st, k, i, now)} | P(st) && At(st, k, i) && k > 0 ::
        P(Remove(st, k, i, now)))
    && (forall st: State, i: nat {:trigger Drop(st, 0, i)} |
          P(st) && At(st, 0, i) && !StaysInGc(ItemAt(st, st.chains[0][i]), now, gcTtl) :: P(Drop(st, 0, i)))
  }

  lemma {:induction false} CollectKeeps(P: State -> bool, st: State, i: nat, now: int, gcTtl: int)
    requires KeptByCleaning(P, now, gcTtl) && P(st) && |st.chains| > 0
    ensures P(Collect(st, i, now, gcTtl))
    decreases |st.chains[0]| - i
  {
    hide StaysInGc;
    if i < |st.chains[0]| {
      if StaysInGc(ItemAt(st, st.chains[0][i]), now, gcTtl) {
        CollectKeeps(P, st, i + 1, now, gcTtl);
      } else {
        CollectKeeps(P, Drop(st, 0, i), i, now, gcTtl);
      }
    }
  }

  lemma {:induction false} WalkKeeps(P: State -> bool, st: State, k: nat, i: nat, key: seq<int>, cacheTtl: int,
                                     t: int, now: int, gcTtl: int)
    requires KeptByCleaning(P, now, gcTtl) && P(st) && 0 < k < |st.chains| && i <= |st.chains[k]|
    ensures P(Walk(st, k, i, key, cacheTtl, t, now).0)
    decreases |st.chains[k]| - i
  {
    hide Expired, KeyIn, Remove;
    if i < |st.chains[k]| && KeyIn(ItemAt(st, st.chains[k][i])) != key {
      if Expired(ItemAt(st, st.chains[k][i]), cacheTtl, t) {
        RemoveShorter(st, k, i, now);
        WalkKeeps(P, Remove(st, k, i, now), k, i, key, cacheTtl, t, now, gcTtl);
      } else {
        WalkKeeps(P, st, k, i + 1, key, cacheTtl, t, now, gcTtl);
      }
    }
  }

  lemma {:induction false} ExpireListKeeps(P: State -> bool, st: State, k: nat, i: nat, cacheTtl: int, t: int,
                                           now: int, gcTtl: int)
    requires KeptByCleaning(P, now, gcTtl) && P(st) && 0 < k < |st.chains| && i <= |st.chains[k]|
    ensures P(ExpireList(st, k, i, cacheTtl, t, now))
    decreases |st.chains[k]| - i
  {
    hide Expired, Remove;
    if i < |st.chains[k]| {
      if Expired(ItemAt(st, st.chains[k][i]), cacheTtl, t) {
        RemoveShorter(st, k, i, now);
        ExpireListKeeps(P, Remove(st, k, i, now), k, i, cacheTtl, t, now, gcTtl);
      } else {
        ExpireListKeeps(P, st, k, i + 1, cacheTtl, t, now, gcTtl);
      }
    }
  }

  lemma {:induction false} ExpireFromKeeps(P: State -> bool, st: State, k: nat, cacheTtl: int, t: int, now: int,
                                           gcTtl: int)
    requires KeptByCleaning(P, now, gcTtl) && P(st) && 0 < k <= |st.chains|
    ensures P(ExpireFrom(st, k, cacheTtl, t, now))
    decreases |st.chains| - k
  {
    hide ExpireList;
    if k < |st.chains| {
      ExpireListKeeps(P, st, k, 0, cacheTtl, t, now, gcTtl);
      ExpireFromKeeps(P, ExpireList(st, k, 0, cacheTtl, t, now), k + 1, cacheTtl, t, now, gcTtl);
    }
  }

  lemma {:induction false} ClearListKeeps(P: State -> bool, st: State, k: nat, now: int, gcTtl: int)
    requires KeptByCleaning(P, now, gcTtl) && P(st) && 0 < k < |st.chains|
    ensures P(ClearList(st, k, now))
    decreases |st.chains[k]|
  {
    hide Remove;
    if st.chains[k] != [] {
      RemoveShorter(st, k, 0, now);
      ClearListKeeps(P, Remove(st, k, 0, now), k, now, gcTtl);
    }
  }

  lemma {:induction false} ClearFromKeeps(P: State -> bool, st: State, k: nat, now: int, gcTtl: int)
    requires KeptByCleaning(P, now, gcTtl) && P(st) && 0 < k <= |st.chains|
    ensures P(ClearFrom(st, k, now))
    decreases |st.chains| - k
  {
    hide ClearList;
    if k < |st.chains| {
      ClearListKeeps(P, st, k, now, gcTtl);
      ClearFromKeeps(P, ClearList(st, k, now), k + 1, now, gcTtl);
    }
  }

  // ----- Entries that were moved -----

  ghost predicate SameItem(st: State, e0: nat, st1: State, e: nat) {
    && e0 in st.items && e in st1.items && st1.items[e] == st.items[e0]
    && (Field(st.items[e0], REFS) > 0 ==> e == e0)
  }

  /** The lists hold the same entries in the same order, some at other addresses; those that
      are referenced stayed where they were. */
  ghost predicate Relocated(st: State, st1: State, loose: set<nat>) {
    && |st1.chains| == |st.chains| && Separate(st1.chains) && OwnedBy(st1, loose)
    && (forall k | 0 <= k < |st.chains| :: |st1.chains[k]| == |st.chains[k]|)
    && (forall k, i | 0 <= k < |st.chains| && 0 <= i < |st.chains[k]| ::
        SameItem(st, st.chains[k][i], st1, st1.chains[k][i]))
    && (forall e | e in loose :: SameItem(st, e, st1, e))
  }

  /** Some entry with these contents is bound to the key. */
  ghost predicate Holds(st: State, hash: Hash, key: seq<int>, c: Item) {
    exists e: nat :: Binds(st, hash, key, e) && ItemAt(st, e) == c
  }

  lemma RelocatedPlaced(st: State, st1: State, hash: Hash, loose: set<nat>)
    requires Relocated(st, st1, loose) && Placed(st, hash)
    ensures Placed(st1, hash)
  {
    hide KeyIn, ItemOk, Field;
    forall k, i | 1 <= k < |st1.chains| && 0 <= i < |st1.chains[k]|
      ensures InPlace(st1, hash, k, st1.chains[k][i])
    {
      assert InPlace(st, hash, k, st.chains[k][i]) && SameItem(st, st.chains[k][i], st1, st1.chains[k][i]);
    }
    forall k, i, j | 1 <= k < |st1.chains| && 0 <= i < j < |st1.chains[k]|
      ensures KeyIn(ItemAt(st1, st1.chains[k][i])) != KeyIn(ItemAt(st1, st1.chains[k][j]))
    {
      assert SameItem(st, st.chains[k][i], st1, st1.chains[k][i])
             && SameItem(st, st.chains[k][j], st1, st1.chains[k][j]);
    }
  }

  lemma {:induction false} SameListMem(st: State, st1: State, es: seq<nat>, es1: seq<nat>)
    requires |es| == |es1| && forall i | 0 <= i < |es| ::
             Field(ItemAt(st1, es1[i]), MEMSIZE) == Field(ItemAt(st, es[i]), MEMSIZE)
    ensures ListMem(st1, es1) == ListMem(st, es)
  {
    hide Field;
    if es != [] {
      SameListMem(st, st1, es[1..], es1[1..]);
    }
  }

  lemma {:induction false} RelocatedSums(st: State, st1: State, loose: set<nat>, k: nat)
    requires Relocated(st, st1, loose)
    ensures MemFrom(st1, k) == MemFrom(st, k) && CountFrom(st1, k) == CountFrom(st, k)
    decreases |st.chains| - k
  {
    hide Field, ListMem;
    if k < |st.chains| {
      forall i | 0 <= i < |st.chains[k]|
        ensures Field(ItemAt(st1, st1.chains[k][i]), MEMSIZE) == Field(ItemAt(st, st.chains[k][i]), MEMSIZE)
      {
        assert SameItem(st, st.chains[k][i], st1, st1.chains[k][i]);
      }
      SameListMem(st, st1, st.chains[k], st1.chains[k]);
      RelocatedSums(st, st1, loose, k + 1);
    }
  }

  lemma RelocatedHolds(st: State, st1: State, hash: Hash, loose: set<nat>, key: seq<int>, e: nat)
    requires Relocated(st, st1, loose) && Binds(st, hash, key, e)
    ensures Holds(st1, hash, key, ItemAt(st, e))
    ensures Field(ItemAt(st, e), REFS) > 0 ==> Binds(st1, hash, key, e) && ItemAt(st1, e) == ItemAt(st, e)
  {
    hide KeyIn, Field;
    var k := SlotOf(st, hash, key);
    var i :| 0 <= i < |st.chains[k]| && st.chains[k][i] == e;
    var e1 := st1.chains[k][i];
    assert SameItem(st, e, st1, e1);
    assert Binds(st1, hash, key, e1) && ItemAt(st1, e1) == ItemAt(st, e);
  }

  lemma RelocatedHeld(st: State, st1: State, hash: Hash, loose: set<nat>, key: seq<int>, e1: nat)
    requires Relocated(st, st1, loose) && Binds(st1, hash, key, e1)
    ensures Holds(st, hash, key, ItemAt(st1, e1))
  {
    hide KeyIn, Field;
    var k := SlotOf(st1, hash, key);
    var i :| 0 <= i < |st1.chains[k]| && st1.chains[k][i] == e1;
    var e := st.chains[k][i];
    assert SameItem(st, e, st1, e1);
    assert Binds(st, hash, key, e) && ItemAt(st, e) == ItemAt(st1, e1);
  }

  /** Moving entries does not change what the keys are bound to. */
  lemma RelocatedSameMap(st: State, st1: State, hash: Hash, loose: set<nat>)
    requires Relocated(st, st1, loose)
    ensures forall key, c :: Holds(st1, hash, key, c) <==> Holds(st, hash, key, c)
  {
    hide Binds, ItemAt, Relocated;
    forall key, c
      ensures Holds(st1, hash, key, c) <==> Holds(st, hash, key, c)
    {
      if Holds(st, hash, key, c) {
        var e: nat :| Binds(st, hash, key, e) && ItemAt(st, e) == c;
        RelocatedHolds(st, st1, hash, loose, key, e);
      }
      if Holds(st1, hash, key, c) {
        var e: nat :| Binds(st1, hash, key, e) && ItemAt(st1, e) == c;
        RelocatedHeld(st, st1, hash, loose, key, e);
      }
    }
  }

  // ----- What an expunge leaves -----

  ghost predicate SlotsEmpty(st: State) {
    forall k | 1 <= k < |st.chains| :: st.chains[k] == []
  }

  ghost function Cleaned(st: State, cacheTtl: int, gcTtl: int, t: int, now: int): State
    requires |st.chains| > 1
  {
    Collect(ExpireFrom(st, 1, cacheTtl, t, now), 0, now, gcTtl)
  }

  /** Exactly the entries that had not expired are still there, with their contents. */
  ghost predicate Spared(st: State, st1: State, hash: Hash, cacheTtl: int, t: int) {
    forall key, c {:trigger Holds(st1, hash, key, c)} ::
           Holds(st1, hash, key, c) <==> Holds(st, hash, key, c) && !Expired(c, cacheTtl, t)
  }

  lemma CleanedHolds(st: State, hash: Hash, cacheTtl: int, gcTtl: int, t: int, now: int)
    requires Sound(st, hash)
    ensures |st.chains| > 1
    ensures Sound(Cleaned(st, cacheTtl, gcTtl, t, now), hash)
            && Spared(st, Cleaned(st, cacheTtl, gcTtl, t, now), hash, cacheTtl, t)
  {
    hide Sound, ExpireFrom, Collect, Expired, Binds, ItemAt;
    SoundSized(st, hash);
    ExpireBinds(st, hash, cacheTtl, t, now);
    var st1 := ExpireFrom(st, 1, cacheTtl, t, now);
    SoundSized(st1, hash);
    CollectSound(st1, hash, now, gcTtl);
    var st2 := Collect(st1, 0, now, gcTtl);
    forall key, c
      ensures Holds(st2, hash, key, c) <==> Holds(st, hash, key, c) && !Expired(c, cacheTtl, t)
    {
      if Holds(st2, hash, key, c) {
        var e: nat :| Binds(st2, hash, key, e) && ItemAt(st2, e) == c;
        assert Binds(st1, hash, key, e) && ItemAt(st1, e) == c;
      }
      if Holds(st, hash, key, c) && !Expired(c, cacheTtl, t) {
        var e: nat :| Binds(st, hash, key, e) && ItemAt(st, e) == c;
        assert Binds(st1, hash, key, e) && ItemAt(st1, e) == c;
        assert Binds(st2, hash, key, e) && ItemAt(st2, e) == c;
      }
    }
  }

  lemma SoundSized(st: State, hash: Hash)
    requires Sound(st, hash)
    ensures |st.chains| > 1 && Separate(st.chains)
  {
  }

  lemma ExpireBinds(st: State, hash: Hash, cacheTtl: int, t: int, now: int)
    requires Sound(st, hash)
    ensures |st.chains| > 1
    ensures var st1 := ExpireFrom(st, 1, cacheTtl, t, now);
            && Sound(st1, hash)
            && forall key, f: nat {:trigger Binds(st1, hash, key, f)} {:trigger Binds(st, hash, key, f)} ::
                 && (Binds(st1, hash, key, f) <==> Binds(st, hash, key, f) && !Expired(ItemAt(st, f), cacheTtl, t))
                 && (Binds(st1, hash, key, f) ==> ItemAt(st1, f) == ItemAt(st, f))
  {
    hide Sound, ExpireFrom, Expired, Binds, ItemAt;
    SoundSized(st, hash);
    ExpireFromRefines(st, hash, 1, cacheTtl, t, now);
    ExpireRefines(st, hash, cacheTtl, t, now);
  }

  // ----- A new cache -----

  ghost function EmptyChains(nslots: nat): Chains {
    seq(nslots + 1, i => [])
  }

  lemma EmptyImage(hb: nat, nslots: nat, pay: Payloads)
    requires pay == map[hb := seq(GC + 1 + nslots, i => 0)]
    ensures Image(pay, hb, EmptyChains(nslots))
            && StateOf(pay, hb, EmptyChains(nslots)) == State(map[], EmptyChains(nslots))
    ensures Counters(pay, hb) == seq(GC, i => 0)
  {
    var chains := EmptyChains(nslots);
    forall k | 0 <= k < |chains|
      ensures ListAt(pay, hb, chains, k)
    {
      assert Cells(hb, k, chains[k]) == [Head(hb, k)];
    }
  }

  lemma {:induction false} EmptySums(st: State, k: nat)
    requires SlotsEmpty(st) && k > 0
    ensures MemFrom(st, k) == 0 && CountFrom(st, k) == 0
    decreases |st.chains| - k
  {
    if k < |st.chains| {
      EmptySums(st, k + 1);
    }
  }

  lemma EmptyGood(nslots: nat, hash: Hash)
    requires nslots > 0
    ensures Good(State(map[], EmptyChains(nslots)), seq(GC, i => 0), hash, {})
  {
    EmptySums(State(map[], EmptyChains(nslots)), 1);
  }

  // ----- Facts for the methods of the cache -----

  /** What removing an entry reads: the guards against underflow are always passed. */
  lemma RemovalFacts(st: State, counters: seq<int>, hash: Hash, loose: set<nat>, k: nat, i: nat, now: int)
    requires Good(st, counters, hash, loose) && At(st, k, i) && k > 0
    ensures |counters| == GC && counters[MEM] > 0 && counters[ENTRIES] > 0 && |st.chains| > 1
    ensures var e := st.chains[k][i];
            && e in st.items && |st.items[e]| >= KEY - TTL
            && Field(st.items[e], MEMSIZE) == st.items[e][MEMSIZE - TTL]
            && Field(st.items[e], REFS) == st.items[e][REFS - TTL]
            && Remove(st, k, i, now) == Disposed(State(st.items, Removed(st.chains, k, i)), e, now)
  {
    hide Separate, OwnedBy, KeyIn, MemFrom, CountFrom;
    CountersCover(st, counters, hash, k, i);
    assert InPlace(st, hash, k, st.chains[k][i]);
  }

  /** What becomes of an entry that was taken out of its slot. */
  ghost function Disposed(st: State, e: nat, now: int): State
    requires e in st.items && |st.items[e]| >= KEY - TTL && |st.chains| > 0
  {
    if st.items[e][REFS - TTL] <= 0 then State(st.items - {e}, st.chains)
    else State(st.items[e := st.items[e][DTIME - TTL := now]], Inserted(st.chains, 0, 0, e))
  }

  lemma SlotIn(st: State, counters: seq<int>, hash: Hash, loose: set<nat>, key: seq<int>)
    requires Good(st, counters, hash, loose)
    ensures 0 < SlotOf(st, hash, key) < |st.chains|
  {
  }

  lemma EntryFacts(st: State, counters: seq<int>, hash: Hash, loose: set<nat>, k: nat, i: nat)
    requires Good(st, counters, hash, loose) && At(st, k, i) && k > 0
    ensures var e := st.chains[k][i];
            e in st.items && ItemOk(hash, st.items[e]) && |st.items[e]| >= KEY - TTL && ItemAt(st, e) == st.items[e]
  {
    hide KeyIn;
    assert InPlace(st, hash, k, st.chains[k][i]);
  }

  lemma GoodSized(st: State, counters: seq<int>, hash: Hash, loose: set<nat>)
    requires Good(st, counters, hash, loose)
    ensures |st.chains| > 1 && |counters| == GC && Separate(st.chains)
  {
  }

  lemma StaysWhen(st: State, i: nat, now: int, gcTtl: int)
    requires |st.chains| > 0 && i < |st.chains[0]| && st.chains[0][i] in st.items
             && |st.items[st.chains[0][i]]| >= KEY - TTL
    ensures var c := st.items[st.chains[0][i]];
            Collect(st, i, now, gcTtl) ==
              if c[REFS - TTL] > 0 && (if gcTtl != 0 then now - c[DTIME - TTL] else 0) <= gcTtl
              then Collect(st, i + 1, now, gcTtl) else Collect(Drop(st, 0, i), i, now, gcTtl)
  {
    hide Drop;
  }

  lemma CollectEnd(st: State, now: int, gcTtl: int)
    requires |st.chains| > 0
    ensures Collect(st, |st.chains[0]|, now, gcTtl) == st
  {
  }

  lemma DroppedCell(hb: nat, st: State, i: nat)
    requires At(st, 0, i)
    ensures var st1 := Drop(st, 0, i);
            && |st1.chains| == |st.chains| && |st1.chains[0]| == |st.chains[0]| - 1
            && CellOf(hb, st1.chains, 0, i) == CellOf(hb, st.chains, 0, i)
  {
  }

  // ----- Changes of metadata -----

  /** Times, hits, reference counts and numbers may change, but an unlisted entry stays referenced. */
  ghost predicate MetaOk(loose: set<nat>, e: nat, f: nat, x: int) {
    Changing(f) && (f == REFS && e in loose ==> x > 0)
  }

  /** The words of an entry that change while it is in the cache: metadata, and the value if
      it is a number. */
  ghost predicate Changing(f: nat) {
    TTL <= f < VAL + 2 && f != MEMSIZE
  }

  ghost function WithMeta(st: State, e: nat, f: nat, x: int): State {
    if e in st.items && TTL <= f < TTL + |st.items[e]| then st.(items := st.items[e := st.items[e][f - TTL := x]])
      else st
  }

  lemma MetaItem(c: Item, f: nat, x: int)
    requires Changing(f) && |c| >= KEY - TTL
    ensures var c1 := c[f - TTL := x];
            KeyIn(c1) == KeyIn(c) && forall g | TTL <= g && g != f :: Field(c1, g) == Field(c, g)
  {
    var c1, n := c[f - TTL := x], Field(c, KEYLEN);
    if 0 <= n && KEY - TTL + n <= |c| {
      UnpackSame(c[KEY - TTL..], c1[KEY - TTL..], n);
    }
  }

  lemma MetaPlaced(st: State, hash: Hash, e: nat, f: nat, x: int)
    requires Placed(st, hash) && e in st.items && Changing(f) && |st.items[e]| >= KEY - TTL
    ensures Placed(WithMeta(st, e, f, x), hash)
  {
    hide KeyIn, Field;
    var st1 := WithMeta(st, e, f, x);
    MetaItem(st.items[e], f, x);
    forall k, i | 1 <= k < |st1.chains| && 0 <= i < |st1.chains[k]|
      ensures InPlace(st1, hash, k, st1.chains[k][i])
    {
      assert InPlace(st, hash, k, st.chains[k][i]);
    }
    forall k, i, j | 1 <= k < |st1.chains| && 0 <= i < j < |st1.chains[k]|
      ensures KeyIn(ItemAt(st1, st1.chains[k][i])) != KeyIn(ItemAt(st1, st1.chains[k][j]))
    {
      assert InPlace(st, hash, k, st.chains[k][i]) && InPlace(st, hash, k, st.chains[k][j]);
    }
  }

  lemma {:induction false} SameMem(st: State, st1: State, k: nat)
    requires st1.chains == st.chains && forall e :: Field(ItemAt(st1, e), MEMSIZE) == Field(ItemAt(st, e), MEMSIZE)
    ensures MemFrom(st1, k) == MemFrom(st, k) && CountFrom(st1, k) == CountFrom(st, k)
    decreases |st.chains| - k
  {
    hide Field, ListMem, ItemAt;
    if k < |st.chains| {
      ListMemSame(st, st1, st.chains[k]);
      SameMem(st, st1, k + 1);
    }
  }

  lemma MetaOwned(st: State, loose: set<nat>, e: nat, f: nat, x: int)
    requires OwnedBy(st, loose) && e in st.items && MetaOk(loose, e, f, x) && |st.items[e]| >= KEY - TTL
    ensures OwnedBy(WithMeta(st, e, f, x), loose)
  {
    hide Unlisted, Field, KeyIn;
    var st1 := WithMeta(st, e, f, x);
    MetaItem(st.items[e], f, x);
    forall e1 | e1 in loose
      ensures LooseIn(st1, e1)
    {
      assert LooseIn(st, e1);
      if e1 == e && f == REFS {
        assert Field(st1.items[e1], REFS) == x by {
          MetaField(st.items[e], f, x);
        }
      }
    }
    forall e1 | e1 in st1.items
      ensures OwnedIn(st1, loose, e1)
    {
      assert OwnedIn(st, loose, e1);
    }
  }

  lemma MetaField(c: Item, f: nat, x: int)
    requires Changing(f) && |c| >= KEY - TTL
    ensures Field(c[f - TTL := x], f) == x
  {
  }

  /** Metadata is neither key nor size: the cache stays well formed. */
  lemma MetaGood(st: State, counters: seq<int>, hash: Hash, loose: set<nat>, e: nat, f: nat, x: int)
    requires Good(st, counters, hash, loose) && e in st.items && MetaOk(loose, e, f, x)
    ensures |st.items[e]| >= KEY - TTL ==> Good(WithMeta(st, e, f, x), counters, hash, loose)
  {
    hide Placed, OwnedBy, KeyIn, MemFrom, CountFrom, Separate, Field;
    if |st.items[e]| >= KEY - TTL {
      MetaPlaced(st, hash, e, f, x);
      MetaOwned(st, loose, e, f, x);
      MetaItem(st.items[e], f, x);
      SameMem(st, WithMeta(st, e, f, x), 1);
    }
  }

  /** The value of the entry was updated in place at time `t`. */
  ghost function Updated(st: State, e: nat, t: int, bits: int, kind: int): State {
    WithMeta(WithMeta(WithMeta(st, e, VAL, bits), e, KIND, kind), e, MTIME, t)
  }

  /** The integer under the key was updated: `done` is nothing if the key is not found, and false
      if its value is no integer. */
  ghost predicate LongUpdated(st: State, st1: State, hash: Hash, key: seq<int>, t: int, updater: int -> (int, bool),
                              done: Option<bool>) {
    |st.chains| > 1
    && match Find(st, hash, key, t)
       case None => done.None? && st1 == st
       case Some(e) =>
         var c := ItemAt(st, e);
         if Field(c, KIND) != IS_LONG then done == Some(false) && st1 == st
         else
           done == Some(updater(Field(c, VAL)).1)
           && st1 == Updated(st, e, t, updater(Field(c, VAL)).0, IS_LONG)
  }

  lemma UpdateParts(st: State, e: nat, t: int, bits: int)
    requires e in st.items && |st.items[e]| >= KEY - TTL
    ensures st.items[e][KIND - TTL] == Field(ItemAt(st, e), KIND) && st.items[e][VAL - TTL] == Field(ItemAt(st, e), VAL)
    ensures e in WithMeta(st, e, VAL, bits).items
    ensures WithMeta(WithMeta(st, e, VAL, bits), e, MTIME, t) == Updated(st, e, t, bits, Field(ItemAt(st, e), KIND))
  {
    var c := st.items[e];
    assert c[VAL - TTL := bits][KIND - TTL := c[KIND - TTL]] == c[VAL - TTL := bits];
  }

  /** The entry was accessed at time `t`. */
  ghost predicate Accessed(st: State, st1: State, e: nat, t: int) {
    st1 == WithMeta(WithMeta(st, e, NHITS, Field(ItemAt(st, e), NHITS) + 1), e, ATIME, t)
  }

  lemma UsedTwice(st: State, e: nat, t: int)
    requires e in st.items && |st.items[e]| >= KEY - TTL
    ensures e in WithMeta(st, e, NHITS, st.items[e][NHITS - TTL] + 1).items
    ensures Accessed(st, WithMeta(WithMeta(st, e, NHITS, st.items[e][NHITS - TTL] + 1), e, ATIME, t), e, t)
  {
  }

  lemma FoundEntry(st: State, counters: seq<int>, hash: Hash, loose: set<nat>, key: seq<int>, t: int)
    requires Good(st, counters, hash, loose)
    ensures |st.chains| > 1
    ensures Find(st, hash, key, t).Some? ==>
              Find(st, hash, key, t).value in st.items && |st.items[Find(st, hash, key, t).value]| >= KEY - TTL
  {
    hide OwnedBy, Separate, KeyIn, HardExpired;
    var k := SlotOf(st, hash, key);
    var i := Search(st, k, 0, key);
    if i < |st.chains[k]| {
      EntryFacts(st, counters, hash, loose, k, i);
    }
  }

  lemma LooseHasRefs(st: State, counters: seq<int>, hash: Hash, loose: set<nat>, e: nat)
    requires Good(st, counters, hash, loose) && e in st.items
    ensures e in loose ==> Field(ItemAt(st, e), REFS) > 0
    ensures |st.items[e]| >= KEY - TTL ==> Field(ItemAt(st, e), REFS) == st.items[e][REFS - TTL]
  {
    hide Sound;
    assert e in loose ==> LooseIn(st, e);
  }

  // ----- Steps of an insertion -----

  lemma WalkStep(st: State, hb: nat, k: nat, i: nat, key: seq<int>, cacheTtl: int, t: int, now: int)
    requires 0 < k && At(st, k, i)
    ensures var c := ItemAt(st, st.chains[k][i]);
            var st1 := Remove(st, k, i, now);
            && Walk(st, k, i, key, cacheTtl, t, now) ==
                 (if KeyIn(c) == key then (st, i)
                  else if Expired(c, cacheTtl, t) then Walk(st1, k, i, key, cacheTtl, t, now)
                  else Walk(st, k, i + 1, key, cacheTtl, t, now))
            && |st1.chains| == |st.chains| && |st1.chains[k]| == |st.chains[k]| - 1
            && CellOf(hb, st1.chains, k, i) == CellOf(hb, st.chains, k, i)
  {
    hide Expired, KeyIn, ItemAt;
    RemoveCell(hb, st, k, i, now);
  }

  lemma RemoveCell(hb: nat, st: State, k: nat, i: nat, now: int)
    requires 0 < k && At(st, k, i)
    ensures var st1 := Remove(st, k, i, now);
            && |st1.chains| == |st.chains| && |st1.chains[k]| == |st.chains[k]| - 1
            && CellOf(hb, st1.chains, k, i) == CellOf(hb, st.chains, k, i)
  {
    hide Field, ItemAt;
  }

  lemma WalkEnd(st: State, k: nat, key: seq<int>, cacheTtl: int, t: int, now: int)
    requires 0 < k < |st.chains|
    ensures Walk(st, k, |st.chains[k]|, key, cacheTtl, t, now) == (st, |st.chains[k]|)
  {
  }

  lemma CreditedInserts(counters0: seq<int>, counters: seq<int>, size: int)
    requires |counters| == GC && SameBut(counters0, counters, {MEM, ENTRIES})
    ensures OneInsert(counters0, Credited(counters, size), true)
  {
  }

  /** An insertion counts itself, if it succeeds, and the entries that come and go. */
  ghost predicate OneInsert(counters: seq<int>, counters1: seq<int>, ok: bool) {
    && |counters| == GC && SameBut(counters, counters1, {MEM, ENTRIES, INSERTS})
    && counters1[INSERTS] == counters[INSERTS] + if ok then 1 else 0
  }

  lemma NoInsert(counters: seq<int>, counters1: seq<int>)
    requires |counters| == GC && SameBut(counters, counters1, {MEM, ENTRIES})
    ensures OneInsert(counters, counters1, false)
  {
  }

  lemma InsertAfter(counters: seq<int>, counters1: seq<int>, counters2: seq<int>, ok: bool)
    requires SameBut(counters, counters1, {MEM, ENTRIES}) && OneInsert(counters1, counters2, ok)
    ensures OneInsert(counters, counters2, ok)
  {
  }

  ghost function Placing(st: State, k: nat, i: nat, e: nat): State
    requires k < |st.chains| && i <= |st.chains[k]|
  {
    State(st.items, Inserted(st.chains, k, i, e))
  }

  lemma PlacingGood(st: State, counters: seq<int>, hash: Hash, loose: set<nat>, k: nat, i: nat, e: nat)
    requires Good(st, counters, hash, loose) && 0 < k < |st.chains| && i <= |st.chains[k]| && e in loose
    requires Sound(Placing(st, k, i, e), hash)
    ensures |counters| == GC && e in st.items && Unlisted(st.chains, e)
    ensures Good(Placing(st, k, i, e), Credited(counters, Field(ItemAt(st, e), MEMSIZE)), hash, loose - {e})
  {
    hide Sound, OwnedIn, MemFrom, CountFrom, Unlisted, Inserted;
    assert LooseIn(st, e);
    InsertOwned(st, loose, k, i, e);
    InsertSums(st, k, i, e);
  }

  /** A new entry with this key that was not inserted yet. */
  ghost predicate NewItem(st: State, hash: Hash, e: nat, key: seq<int>) {
    e in st.items && ItemOk(hash, st.items[e]) && KeyIn(st.items[e]) == key
  }

  /** Where the walk stopped: what is done with the entry there, and then with the new one. */
  lemma SettleFacts(walked: State, hb: nat, k: nat, i: nat, e: nat, exclusive: bool, t: int, now: int)
    requires 0 < k < |walked.chains| && i <= |walked.chains[k]|
    ensures InsertAt(walked, k, i, e, exclusive, t, now) ==
              (if i == |walked.chains[k]| then (Placing(walked, k, i, e), true)
               else if exclusive && !HardExpired(ItemAt(walked, walked.chains[k][i]), t) then (walked, false)
               else (Placing(Remove(walked, k, i, now), k, i, e), true))
    ensures i < |walked.chains[k]| ==>
              var st1 := Remove(walked, k, i, now);
              && |st1.chains| == |walked.chains| && |st1.chains[k]| == |walked.chains[k]| - 1
              && CellOf(hb, st1.chains, k, i) == CellOf(hb, walked.chains, k, i)
  {
    hide HardExpired, ItemAt, Field;
    if i < |walked.chains[k]| {
      RemoveCell(hb, walked, k, i, now);
    }
  }

  /** What happens in an insertion, step by step. */
  lemma InsertFacts(st: State, counters: seq<int>, hash: Hash, loose: set<nat>, e: nat, key: seq<int>, exclusive: bool,
                    cacheTtl: int, gcTtl: int, now: int)
    requires Good(st, counters, hash, loose) && e in loose && NewItem(st, hash, e, key)
    ensures |st.chains| > 1 && |counters| == GC
    ensures var t, k := Field(ItemAt(st, e), CTIME), SlotOf(st, hash, key);
            && 0 < k < |st.chains|
            && var (walked, i) := Walk(Collect(st, 0, now, gcTtl), k, 0, key, cacheTtl, t, now);
            && |walked.chains| == |st.chains| && i <= |walked.chains[k]|
            && CacheModel.Insert(st, hash, e, exclusive, cacheTtl, gcTtl, now)
               == InsertAt(walked, k, i, e, exclusive, t, now)
            && Sound(InsertAt(walked, k, i, e, exclusive, t, now).0, hash)
            && (|st.items[e]| >= KEY - TTL ==> t == st.items[e][CTIME - TTL])
  {
    hide Sound, OwnedIn, Counted, Walk, Collect, KeyIn, InsertAt, ItemOk;
    GoodSized(st, counters, hash, loose);
    SlotIn(st, counters, hash, loose, key);
    assert LooseIn(st, e);
    InsertRefines(st, hash, e, exclusive, cacheTtl, gcTtl, now);
  }

  // ----- Steps of emptying slots -----

  ghost predicate SameBut(counters: seq<int>, counters1: seq<int>, but: set<nat>) {
    |counters1| == |counters| && forall f: nat | f < |counters| && f !in but :: counters1[f] == counters[f]
  }

  lemma SameButSelf(counters: seq<int>, but: set<nat>)
    ensures SameBut(counters, counters, but)
  {
  }

  lemma SameButTrans(a: seq<int>, b: seq<int>, c: seq<int>, but: set<nat>)
    requires SameBut(a, b, but) && SameBut(b, c, but)
    ensures SameBut(a, c, but)
  {
  }

  lemma DebitedSame(counters0: seq<int>, counters: seq<int>, size: int)
    requires |counters| == GC && SameBut(counters0, counters, {MEM, ENTRIES})
    ensures SameBut(counters0, Debited(counters, size), {MEM, ENTRIES})
  {
  }

  lemma ExpireStep(st: State, hb: nat, k: nat, i: nat, cacheTtl: int, t: int, now: int)
    requires 0 < k && At(st, k, i)
    ensures var st1 := Remove(st, k, i, now);
            && ExpireList(st, k, i, cacheTtl, t, now) ==
                 (if Expired(ItemAt(st, st.chains[k][i]), cacheTtl, t) then ExpireList(st1, k, i, cacheTtl, t, now)
                  else ExpireList(st, k, i + 1, cacheTtl, t, now))
            && |st1.chains| == |st.chains| && |st1.chains[k]| == |st.chains[k]| - 1
            && CellOf(hb, st1.chains, k, i) == CellOf(hb, st.chains, k, i)
  {
    hide Expired, ItemAt;
    RemoveCell(hb, st, k, i, now);
  }

  lemma ExpireEnd(st: State, k: nat, cacheTtl: int, t: int, now: int)
    requires 0 < k < |st.chains|
    ensures ExpireList(st, k, |st.chains[k]|, cacheTtl, t, now) == st
  {
  }

  lemma ExpireSlotStep(st: State, k: nat, cacheTtl: int, t: int, now: int)
    requires 0 < k < |st.chains|
    ensures ExpireFrom(st, k, cacheTtl, t, now) == ExpireFrom(ExpireList(st, k, 0, cacheTtl, t, now), k + 1, cacheTtl,
                                                              t, now)
  {
    hide ExpireList;
  }

  lemma ExpireSlotsEnd(st: State, cacheTtl: int, t: int, now: int)
    requires |st.chains| > 0
    ensures ExpireFrom(st, |st.chains|, cacheTtl, t, now) == st
  {
  }

  lemma ClearStep(st: State, hb: nat, k: nat, now: int)
    requires 0 < k && At(st, k, 0)
    ensures var st1 := Remove(st, k, 0, now);
            && ClearList(st, k, now) == ClearList(st1, k, now)
            && |st1.chains| == |st.chains| && |st1.chains[k]| == |st.chains[k]| - 1
  {
    RemoveCell(hb, st, k, 0, now);
  }

  lemma ClearEnd(st: State, k: nat, now: int)
    requires 0 < k < |st.chains|
    ensures st.chains[k] == [] ==> ClearList(st, k, now) == st
  {
  }

  lemma ClearSlotStep(st: State, k: nat, now: int)
    requires 0 < k < |st.chains|
    ensures ClearFrom(st, k, now) == ClearFrom(ClearList(st, k, now), k + 1, now)
  {
    hide ClearList;
  }

  lemma ClearSlotsEnd(st: State, now: int)
    requires |st.chains| > 0
    ensures ClearFrom(st, |st.chains|, now) == st
  {
  }

  /** When all slots have been cleared, the counters have come down to zero by themselves. */
  lemma ClearedFacts(st: State, counters: seq<int>, st1: State, counters1: seq<int>, hash: Hash, loose: set<nat>,
                     now: int)
    requires Good(st, counters, hash, loose) && Good(st1, counters1, hash, loose)
    requires |st.chains| > 1 && st1 == ClearFrom(st, 1, now) && SameBut(counters, counters1, {MEM, ENTRIES})
    ensures |counters1| == GC && |counters| == GC
    ensures SlotsEmpty(st1) && counters1[MEM] == 0 && counters1[ENTRIES] == 0
    ensures counters1[EXPUNGES] == counters[EXPUNGES] && counters1[CLEANUPS] == counters[CLEANUPS]
  {
    hide Placed, Separate, OwnedBy, ClearFrom, MemFrom, CountFrom;
    ClearRefines(st, hash, now);
    EmptySums(st1, 1);
  }

  // ----- Expunging -----

  /** What a default expunge does to a cache: a huge request empties it; otherwise the expired
      entries go, and then the cache is either emptied, or its entries are moved together,
      and then emptied unless there is now room for the request. */
  ghost predicate Expunged(st: State, st1: State, loose: set<nat>, huge: bool, room: bool, cacheTtl: int, gcTtl: int,
                           t: int, now: int) {
    |st.chains| > 1 &&
    if huge then st1 == Collect(ClearFrom(st, 1, now), 0, now, gcTtl)
    else
      || st1 == ClearFrom(Cleaned(st, cacheTtl, gcTtl, t, now), 1, now)
      || Compacted(st, st1, loose, room, cacheTtl, gcTtl, t, now)
  }

  ghost predicate Compacted(st: State, st1: State, loose: set<nat>, room: bool, cacheTtl: int, gcTtl: int, t: int,
                            now: int)
    requires |st.chains| > 1
  {
    exists st2: State ::
        Relocated(Cleaned(st, cacheTtl, gcTtl, t, now), st2, loose) && ClearedOrRoom(st2, st1, room, now)
  }

  /** Emptied, or left alone because there is room. */
  ghost predicate ClearedOrRoom(st: State, st1: State, room: bool, now: int) {
    |st.chains| > 1 && (st1 == ClearFrom(st, 1, now) || (room && st1 == st))
  }

  /** Nobody refers to any entry. */
  ghost predicate Unreferenced(st: State) {
    forall e | e in st.items :: Field(st.items[e], REFS) <= 0
  }

  /** When memory is only fragmented, an expunge makes room and costs no unexpired entry, if
      nobody refers to what is left after cleaning. */
  ghost predicate PaysOff(st: State, st1: State, hash: Hash, huge: bool, enough: bool, room: bool, cacheTtl: int,
                          gcTtl: int, t: int, now: int)
    requires |st.chains| > 1
  {
    !huge && enough && Unreferenced(Cleaned(st, cacheTtl, gcTtl, t, now)) ==>
      room && Spared(st, st1, hash, cacheTtl, t)
  }

  lemma CleanedAndMoved(st: State, st1: State, hash: Hash, loose: set<nat>, cacheTtl: int, gcTtl: int, t: int, now: int)
    requires Sound(st, hash)
    ensures |st.chains| > 1
    ensures Relocated(Cleaned(st, cacheTtl, gcTtl, t, now), st1, loose) ==> Spared(st, st1, hash, cacheTtl, t)
  {
    hide Sound, Relocated, Cleaned, Holds, Expired;
    CleanedHolds(st, hash, cacheTtl, gcTtl, t, now);
    if Relocated(Cleaned(st, cacheTtl, gcTtl, t, now), st1, loose) {
      RelocatedSameMap(Cleaned(st, cacheTtl, gcTtl, t, now), st1, hash, loose);
    }
  }

  /** The outcome of an expunge: all slots are empty; or exactly the unexpired entries are
      still there, and there is room for the request. */
  lemma ExpungeOutcome(st: State, st1: State, hash: Hash, loose: set<nat>, huge: bool, room: bool, cacheTtl: int,
                       gcTtl: int, t: int, now: int)
    requires Sound(st, hash) && Expunged(st, st1, loose, huge, room, cacheTtl, gcTtl, t, now)
    ensures SlotsEmpty(st1) || (!huge && room && Spared(st, st1, hash, cacheTtl, t))
  {
    hide Sound, ClearFrom, Collect, Relocated, Cleaned, Holds, Expired;
    CleanedHolds(st, hash, cacheTtl, gcTtl, t, now);
    var cleaned := Cleaned(st, cacheTtl, gcTtl, t, now);
    SoundSized(cleaned, hash);
    if huge {
      ClearRefines(st, hash, now);
      SoundSized(ClearFrom(st, 1, now), hash);
      CollectKeepsEmpty(ClearFrom(st, 1, now), now, gcTtl);
    } else if st1 == ClearFrom(cleaned, 1, now) {
      ClearRefines(cleaned, hash, now);
    } else {
      var st2 :| Relocated(cleaned, st2, loose) && ClearedOrRoom(st2, st1, room, now);
      RelocatedSound(cleaned, st2, hash, loose);
      SoundSized(st2, hash);
      RelocatedSameMap(cleaned, st2, hash, loose);
      ClearRefines(st2, hash, now);
    }
  }

  lemma RelocatedSound(st: State, st1: State, hash: Hash, loose: set<nat>)
    requires Relocated(st, st1, loose) && Sound(st, hash)
    ensures Sound(st1, hash)
  {
    hide Placed, Separate;
    RelocatedPlaced(st, st1, hash, loose);
  }

  lemma CollectKeepsEmpty(st: State, now: int, gcTtl: int)
    requires |st.chains| > 1 && SlotsEmpty(st) && Separate(st.chains)
    ensures SlotsEmpty(Collect(st, 0, now, gcTtl))
  {
    hide Collect;
  }

  /** The state after the defragmenter ran, from what it keeps. */
  lemma CompactFacts(o: Origin, pay: Payloads, chains: Chains, counters: seq<int>, hash: Hash)
    requires CacheOk(o.pay, o.hb, o.chains, o.loose) && Witness(o, pay, chains)
    requires Good(StateOf(o.pay, o.hb, o.chains), counters, hash, o.loose) && Counters(o.pay, o.hb) == counters
    ensures Image(pay, o.hb, chains) && |chains| == |o.chains| && Counters(pay, o.hb) == counters
    ensures Relocated(StateOf(o.pay, o.hb, o.chains), StateOf(pay, o.hb, chains), o.loose)
    ensures Good(StateOf(pay, o.hb, chains), counters, hash, o.loose)
  {
    hide Sound, OwnedBy, Image, CacheOk, SameMeaning, MemFrom, CountFrom;
    CacheOkIsOwned(o.pay, o.hb, o.chains, o.loose);
    CacheOkIsOwned(pay, o.hb, chains, o.loose);
    MeaningRelocated(o, pay, chains);
    RelocatedSound(StateOf(o.pay, o.hb, o.chains), StateOf(pay, o.hb, chains), hash, o.loose);
    RelocatedSums(StateOf(o.pay, o.hb, o.chains), StateOf(pay, o.hb, chains), o.loose, 1);
  }

  lemma ChainedEntry(pay: Payloads, hb: nat, chains: Chains, k: nat, i: nat)
    requires Chained(pay, hb, chains) && k < |chains| && i < |chains[k]|
    ensures chains[k][i] in pay && chains[k][i] != hb
  {
    hide AllLinked, Separate;
    assert IsEntry(pay, hb, chains[k][i]);
  }

  lemma CacheOkParts(pay: Payloads, hb: nat, chains: Chains, loose: set<nat>)
    requires CacheOk(pay, hb, chains, loose)
    ensures Chained(pay, hb, chains) && Separate(chains) && HeaderOk(pay, hb, chains)
    ensures forall e | e in loose :: e in pay && e != hb
  {
    hide AllLinked, AllEntries, Separate;
    assert forall e | e in loose :: IsLoose(pay, hb, chains, e);
  }

  lemma MeaningRelocated(o: Origin, pay: Payloads, chains: Chains)
    requires CacheOk(o.pay, o.hb, o.chains, o.loose) && Witness(o, pay, chains)
    ensures Relocated(StateOf(o.pay, o.hb, o.chains), StateOf(pay, o.hb, chains), o.loose)
    ensures |chains| == |o.chains| && Counters(pay, o.hb) == Counters(o.pay, o.hb)
  {
    hide CacheOk, Chained, Record, Separate, Refs, Field;
    var st, st1 := StateOf(o.pay, o.hb, o.chains), StateOf(pay, o.hb, chains);
    CacheOkParts(o.pay, o.hb, o.chains, o.loose);
    CacheOkParts(pay, o.hb, chains, o.loose);
    CacheOkIsOwned(pay, o.hb, chains, o.loose);
    forall k, i | 0 <= k < |o.chains| && 0 <= i < |o.chains[k]|
      ensures SameItem(st, o.chains[k][i], st1, chains[k][i])
    {
      ChainedEntry(o.pay, o.hb, o.chains, k, i);
      ChainedEntry(pay, o.hb, chains, k, i);
      assert SameEntry(o.pay, o.chains[k][i], pay, chains[k][i]);
      RefsField(o.pay, o.hb, o.chains[k][i]);
    }
  }

  lemma GoodOwned(st: State, counters: seq<int>, hash: Hash, loose: set<nat>)
    requires Good(st, counters, hash, loose)
    ensures OwnedBy(st, loose)
  {
  }

  lemma StartsMeaning(o: Origin)
    requires CacheOk(o.pay, o.hb, o.chains, o.loose)
    ensures StillMeans(o, o.pay)
  {
    hide CacheOk, Record, Refs;
    CacheOkParts(o.pay, o.hb, o.chains, o.loose);
    assert Witness(o, o.pay, o.chains);
  }

  ghost function WitnessOf(o: Origin, pay: Payloads): (chains: Chains)
    requires StillMeans(o, pay)
    ensures Witness(o, pay, chains)
  {
    var chains :| Witness(o, pay, chains);
    chains
  }

  // ----- New entries -----

  /** `e` is a new entry of `n` words with one reference, in no list. */
  ghost predicate Allocated(st: State, st1: State, e: nat, n: nat) {
    && e !in st.items && Unlisted(st.chains, e) && st1.chains == st.chains
    && e in st1.items && st1.items == st.items[e := st1.items[e]]
    && |st1.items[e]| + TTL == n && n >= KEY && st1.items[e][REFS - TTL] == 1
  }

  lemma AllocatedOwned(st: State, st1: State, loose: set<nat>, e: nat, n: nat)
    requires OwnedBy(st, loose) && Allocated(st, st1, e, n)
    ensures OwnedBy(st1, loose + {e})
  {
    hide Unlisted;
    forall f | f in loose + {e}
      ensures LooseIn(st1, f)
    {
      assert f in loose ==> LooseIn(st, f);
    }
    forall f | f in st1.items
      ensures OwnedIn(st1, loose + {e}, f)
    {
      assert f in st.items ==> OwnedIn(st, loose, f);
    }
  }

  lemma AllocatedSlots(st: State, st1: State, e: nat, n: nat)
    requires Allocated(st, st1, e, n)
    ensures SameSlots(st, st1)
  {
  }

  lemma AllocatedGood(st: State, st1: State, counters: seq<int>, hash: Hash, loose: set<nat>, e: nat, n: nat)
    requires Good(st, counters, hash, loose) && Allocated(st, st1, e, n)
    ensures Good(st1, counters, hash, loose + {e})
  {
    hide Placed, Separate, OwnedBy, SameSlots, MemFrom, CountFrom, Allocated;
    AllocatedSlots(st, st1, e, n);
    AllocatedOwned(st, st1, loose, e, n);
    SameSlotsPlaced(st, st1, hash);
    SameSlotsSums(st, st1, hash);
    AllocatedChains(st, st1, e, n);
  }

  lemma AllocatedChains(st: State, st1: State, e: nat, n: nat)
    requires Allocated(st, st1, e, n)
    ensures st1.chains == st.chains
  {
  }

  lemma GoodSound(st: State, counters: seq<int>, hash: Hash, loose: set<nat>)
    requires Good(st, counters, hash, loose)
    ensures Sound(st, hash)
  {
  }

  // ----- Freeing entries -----

  /** The allocated blocks of the heap but those of the entries in `gone`. */
  ghost function Kept(h: Heap, gone: set<nat>): Tiles {
    map o | o in h.blocks && h.blocks[o].Used? && o + B !in gone :: h.blocks[o]
  }

  /** From the one state to the other entries were freed, and no other block of memory. */
  ghost predicate FreedOnly(st: State, h: Heap, st1: State, h1: Heap) {
    st1.items.Keys <= st.items.Keys && UsedPart(h1.blocks) == Kept(h, st.items.Keys - st1.items.Keys)
  }

  lemma FreedNothing(st: State, h: Heap, st1: State)
    requires st1.items.Keys == st.items.Keys
    ensures FreedOnly(st, h, st1, h)
  {
  }

  lemma FreedTwice(st: State, h: Heap, st1: State, h1: Heap, st2: State, h2: Heap)
    requires FreedOnly(st, h, st1, h1) && FreedOnly(st1, h1, st2, h2)
    ensures FreedOnly(st, h, st2, h2)
  {
    var gone, gone1 := st.items.Keys - st1.items.Keys, st1.items.Keys - st2.items.Keys;
    assert st.items.Keys - st2.items.Keys == gone + gone1;
    forall o | o in Kept(h, gone + gone1)
      ensures o in Kept(h1, gone1) && h1.blocks[o] == h.blocks[o]
    {
      assert o in Kept(h, gone);
      assert o in UsedPart(h1.blocks);
    }
    forall o | o in Kept(h1, gone1)
      ensures o in Kept(h, gone + gone1)
    {
      assert o in UsedPart(h1.blocks);
      assert o in Kept(h, gone);
    }
  }

  lemma FreedOne(st: State, h: Heap, st1: State, h1: Heap, lo: nat, hi: nat, e: nat, size: nat)
    requires WellFormed(h, lo, hi) && Freed(h, h1, e, size) && B <= e && e - B in h.blocks && h.blocks[e - B].Used?
    requires e in st.items && st1.items.Keys == st.items.Keys - {e}
    ensures FreedOnly(st, h, st1, h1)
  {
    hide Tiled, CoalescedBut, ReleaseAt;
    ReleaseUsedPart(h.blocks, lo, hi, e - B);
    assert st.items.Keys - st1.items.Keys == {e};
  }

  // ----- Several expunges -----

  /** An expunge that another process completes. */
  datatype Rival = Rival(size: nat, extra: nat, t: int, now: int)

  /** What expunges, the last of them at `last`, have left: nothing in the slots, or exactly
      the entries that had not expired. */
  ghost predicate Thinned(st: State, st1: State, hash: Hash, cacheTtl: int, last: Option<int>) {
    match last
    case None => st1 == st
    case Some(t) => SlotsEmpty(st1) || Spared(st, st1, hash, cacheTtl, t)
  }

  ghost function Later(last: Option<int>, t: int): (later: Option<int>)
    ensures later.Some? && later.value >= t
  {
    if last.Some? && last.value > t then last else Some(t)
  }

  lemma ThinnedNone(st: State, hash: Hash, cacheTtl: int)
    ensures Thinned(st, st, hash, cacheTtl, None)
  {
  }

  lemma EmptySpared(st: State, st1: State, hash: Hash, cacheTtl: int, t: int)
    requires SlotsEmpty(st) && Sound(st, hash) && Sound(st1, hash) && Spared(st, st1, hash, cacheTtl, t)
    ensures SlotsEmpty(st1)
  {
    hide Expired, KeyIn, ItemAt;
    forall k | 1 <= k < |st1.chains|
      ensures st1.chains[k] == []
    {
      if st1.chains[k] != [] {
        var e := st1.chains[k][0];
        BindsAt(st1, hash, k, 0);
        var key := KeyIn(ItemAt(st1, e));
        assert Holds(st1, hash, key, ItemAt(st1, e));
        assert Holds(st, hash, key, ItemAt(st1, e));
        var f: nat :| Binds(st, hash, key, f);
        BindsSlot(st, hash, key);
        assert false;
      }
    }
  }

  lemma SparedTwice(st: State, st1: State, st2: State, hash: Hash, cacheTtl: int, t: int, t1: int)
    requires Spared(st, st1, hash, cacheTtl, t) && Spared(st1, st2, hash, cacheTtl, t1)
    ensures Spared(st, st2, hash, cacheTtl, if t > t1 then t else t1)
  {
    hide Holds;
  }

  /** One more expunge. */
  lemma ThinnedMore(st: State, st1: State, st2: State, hash: Hash, cacheTtl: int, last: Option<int>, t: int)
    requires Thinned(st, st1, hash, cacheTtl, last) && Sound(st1, hash) && Sound(st2, hash)
    requires SlotsEmpty(st2) || Spared(st1, st2, hash, cacheTtl, t)
    ensures Thinned(st, st2, hash, cacheTtl, Later(last, t))
  {
    hide Sound, Spared, SlotsEmpty;
    if !SlotsEmpty(st2) && last.Some? {
      if SlotsEmpty(st1) {
        EmptySpared(st1, st2, hash, cacheTtl, t);
      } else {
        SparedTwice(st, st1, st2, hash, cacheTtl, last.value, t);
      }
    }
  }

  /** What an allocation may have cost the cache: nothing if it is too large anyway or there
      was room; else the expired entries, and then all entries if it still fails.  It fails only
      if no free block fits at the end. */
  ghost predicate MadeRoom(st: State, made: State, hash: Hash, tooLarge: bool, room: bool, found: bool, fits: bool,
                           cacheTtl: int, last: Option<int>) {
    && Thinned(st, made, hash, cacheTtl, last) && (found <==> !tooLarge && fits)
    && if tooLarge || room then last.None? && (found <==> !tooLarge) else last.Some? && (found || SlotsEmpty(made))
  }

  /** A filled-in entry: metadata and then its words from the value on. */
  ghost function NewEntry(body: seq<int>, life: int, t: int, refs: int): Item {
    [life, refs, 0, t, t, 0, t, VAL + |body|] + body
  }

  ghost function Stamped(c: Item, t: int): Item {
    if |c| < KEY - TTL then c else c[CTIME - TTL := t][MTIME - TTL := t][ATIME - TTL := t][DTIME - TTL := 0]
  }

  ghost function WithTimes(c: Item, size: int, life: int, t: int): Item
    requires |c| >= KEY - TTL
  {
    Stamped(c[MEMSIZE - TTL := size][TTL - TTL := life][NHITS - TTL := 0], t)
  }

  lemma LooseIsIn(st: State, counters: seq<int>, hash: Hash, loose: set<nat>, e: nat)
    requires Good(st, counters, hash, loose) && e in loose
    ensures e in st.items && Unlisted(st.chains, e)
  {
    hide Sound, Unlisted, Field;
    assert LooseIn(st, e);
  }

  /** The first `i` words behind the metadata have been written. */
  ghost predicate Filled(st: State, st1: State, e: nat, body: seq<int>, i: nat) {
    && st1.chains == st.chains && e in st1.items && st1.items == st.items[e := st1.items[e]] && i <= |body|
    && |st1.items[e]| == VAL - TTL + |body| && st1.items[e][REFS - TTL] == 1
    && st1.items[e][VAL - TTL..VAL - TTL + i] == body[..i]
  }

  lemma FilledStart(st: State, e: nat, body: seq<int>)
    requires e in st.items && |ItemAt(st, e)| == VAL - TTL + |body| && Field(ItemAt(st, e), REFS) == 1
    ensures Filled(st, st, e, body, 0)
  {
  }

  lemma FilledNext(st: State, st1: State, e: nat, body: seq<int>, i: nat, x: int)
    requires Filled(st, st1, e, body, i) && i < |body| && x == body[i]
    ensures |ItemAt(st1, e)| == VAL - TTL + |body|
    ensures Filled(st, State(st1.items[e := ItemAt(st1, e)[VAL + i - TTL := x]], st1.chains), e, body, i + 1)
  {
    var c := st1.items[e];
    var c1 := c[VAL + i - TTL := x];
    assert c1[VAL - TTL..VAL - TTL + i] == c[VAL - TTL..VAL - TTL + i];
    assert c1[VAL - TTL..VAL - TTL + i + 1] == c1[VAL - TTL..VAL - TTL + i] + [x];
  }

  /** The metadata is written last. */
  lemma FilledAll(st: State, st1: State, e: nat, body: seq<int>, life: int, t: int)
    requires Filled(st, st1, e, body, |body|)
    ensures |ItemAt(st1, e)| == VAL - TTL + |body| && ItemAt(st1, e) == st1.items[e]
    ensures e in st1.items
            && (|body| >= KEY - VAL ==> WithTimes(st1.items[e], VAL + |body|, life, t) == NewEntry(body, life, t, 1))
    ensures st1.chains == st.chains
    ensures st.items[e := NewEntry(body, life, t, 1)] == st1.items[e := NewEntry(body, life, t, 1)]
  {
    var c := st1.items[e];
    assert c == c[..VAL - TTL] + body;
  }

  lemma WrittenGood(st: State, counters: seq<int>, hash: Hash, loose: set<nat>, e: nat, f: nat, x: int)
    requires Good(st, counters, hash, loose) && e in loose && TTL <= f < TTL + |ItemAt(st, e)| && f != REFS
    ensures e in st.items && ItemAt(st, e) == st.items[e]
    ensures Good(State(st.items[e := ItemAt(st, e)[f - TTL := x]], st.chains), counters, hash, loose)
  {
    hide Placed, Separate, OwnedBy, SameSlots, MemFrom, CountFrom;
    LooseIsIn(st, counters, hash, loose, e);
    var st1 := State(st.items[e := ItemAt(st, e)[f - TTL := x]], st.chains);
    UnlistedSlots(st, st1, e);
    WrittenOwned(st, loose, e, f, x);
    SameSlotsPlaced(st, st1, hash);
    SameSlotsSums(st, st1, hash);
  }

  lemma UnlistedSlots(st: State, st1: State, e: nat)
    requires Unlisted(st.chains, e) && st1.chains == st.chains
    requires forall f | f in st.items && f != e :: f in st1.items && st1.items[f] == st.items[f]
    ensures SameSlots(st, st1)
  {
  }

  lemma WrittenOwned(st: State, loose: set<nat>, e: nat, f: nat, x: int)
    requires OwnedBy(st, loose) && e in loose && e in st.items && TTL <= f < TTL + |ItemAt(st, e)| && f != REFS
    ensures OwnedBy(State(st.items[e := ItemAt(st, e)[f - TTL := x]], st.chains), loose)
  {
    hide Unlisted;
    var st1 := State(st.items[e := ItemAt(st, e)[f - TTL := x]], st.chains);
    forall e1 | e1 in loose
      ensures LooseIn(st1, e1)
    {
      assert LooseIn(st, e1);
    }
    forall e1 | e1 in st1.items
      ensures OwnedIn(st1, loose, e1)
    {
      assert OwnedIn(st, loose, e1);
    }
  }

  // ----- Storing -----

  /** The words of an entry from the value on, with the key and its hash in their places. */
  ghost predicate KeyedBody(hash: Hash, body: seq<int>, key: seq<int>) {
    && |body| >= KEY - VAL + |key| / 8 + 1 && body[HASH - VAL] == hash(key) && body[KEYLEN - VAL] == |key|
    && Unpack(body[KEY - VAL..], |key|) == key
  }

  /** What a store means for the map from keys to entries. */
  ghost predicate StoreEffect(st: State, st1: State, hash: Hash, key: seq<int>, c: Item, exclusive: bool, cacheTtl: int,
                              t: int, ok: bool) {
    && (ok <==> !(exclusive && Taken(st, hash, key, t)))
    && (forall d {:trigger Holds(st1, hash, key, d)} ::
        Holds(st1, hash, key, d) <==> if ok then d == c else Holds(st, hash, key, d))
    && OthersAfterStore(st, st1, hash, key, cacheTtl, t)
  }

  /** Under the other keys everything is as before, but expired entries may be gone. */
  ghost predicate OthersAfterStore(st: State, st1: State, hash: Hash, key: seq<int>, cacheTtl: int, t: int) {
    forall key', d {:trigger Holds(st1, hash, key', d)} {:trigger Holds(st, hash, key', d)} | key' != key ::
      && (Holds(st1, hash, key', d) ==> Holds(st, hash, key', d))
      && (Holds(st, hash, key', d) && !Holds(st1, hash, key', d) ==> Expired(d, cacheTtl, t))
  }

  lemma BodySized(hash: Hash, body: seq<int>, key: seq<int>, life: int, t: int)
    requires KeyedBody(hash, body, key)
    ensures |body| >= KEY - VAL
    ensures var c := NewEntry(body, life, t, 1);
            && ItemOk(hash, c) && KeyIn(c) == key && Field(c, CTIME) == t && Field(c, REFS) == 1
            && c[REFS - TTL := 0] == NewEntry(body, life, t, 0) && |c| >= KEY - TTL
  {
    var c := NewEntry(body, life, t, 1);
    assert c[KEY - TTL..] == body[KEY - VAL..];
  }

  lemma AllocatedFacts(st: State, st1: State, e: nat, n: nat, c: Item)
    requires Allocated(st, st1, e, n)
    ensures |ItemAt(st1, e)| == n - TTL && Field(ItemAt(st1, e), REFS) == 1
    ensures e !in st.items && Unlisted(st.chains, e) && st1.chains == st.chains && st1.items[e := c] == st.items[e := c]
  {
  }

  lemma DiscardGood(st: State, counters: seq<int>, hash: Hash, loose: set<nat>, e: nat)
    requires Good(st, counters, hash, loose) && e in loose
    ensures Good(State(st.items - {e}, st.chains), counters, hash, loose - {e})
  {
    hide Placed, Separate, OwnedBy, SameSlots, MemFrom, CountFrom;
    LooseIsIn(st, counters, hash, loose, e);
    var st1 := State(st.items - {e}, st.chains);
    UnlistedSlots(st, st1, e);
    DiscardOwned(st, loose, e);
    SameSlotsPlaced(st, st1, hash);
    SameSlotsSums(st, st1, hash);
  }

  lemma DiscardOwned(st: State, loose: set<nat>, e: nat)
    requires OwnedBy(st, loose) && e in loose
    ensures OwnedBy(State(st.items - {e}, st.chains), loose - {e})
  {
    hide Unlisted, Field;
    var st1 := State(st.items - {e}, st.chains);
    forall e1 | e1 in loose - {e}
      ensures LooseIn(st1, e1)
    {
      assert LooseIn(st, e1);
    }
    forall e1 | e1 in st1.items
      ensures OwnedIn(st1, loose - {e}, e1)
    {
      assert OwnedIn(st, loose, e1);
    }
  }

  /** The new entry is filled in and not inserted yet. */
  lemma FilledNew(st: State, st1: State, counters: seq<int>, hash: Hash, loose: set<nat>, e: nat, key: seq<int>,
                  body: seq<int>, life: int, t: int)
    requires KeyedBody(hash, body, key) && e !in st.items
             && st1 == State(st.items[e := NewEntry(body, life, t, 1)], st.chains)
    ensures NewItem(st1, hash, e, key)
  {
    hide KeyedBody, NewEntry, KeyIn, ItemOk;
    BodySized(hash, body, key, life, t);
  }

  /** Nothing but an unlisted entry differs, so the keys hold the same. */
  lemma UnlistedHolds(st: State, st1: State, hash: Hash, e: nat)
    requires Placed(st, hash) && Unlisted(st.chains, e) && st1.chains == st.chains
    requires forall f | f in st.items && f != e :: f in st1.items && st1.items[f] == st.items[f]
    ensures BindsAllBut(st, st1, hash, {}) && Placed(st1, hash)
  {
    hide Placed, SameSlots, Binds, BindsAllBut;
    UnlistedSlots(st, st1, e);
    SameSlotsBinds(st, st1, hash);
    SameSlotsPlaced(st, st1, hash);
  }

  /** After inserting: releasing the new entry or discarding it completes the store. */
  lemma StoreFacts(made: State, st: State, counters: seq<int>, hash: Hash, loose: set<nat>, e: nat, key: seq<int>,
                   body: seq<int>, life: int, exclusive: bool, cacheTtl: int, gcTtl: int, t: int, now: int)
    requires Good(st, counters, hash, loose) && e in loose && KeyedBody(hash, body, key)
    requires e !in made.items && Unlisted(made.chains, e)
             && st == State(made.items[e := NewEntry(body, life, t, 1)], made.chains)
    ensures |st.chains| > 1
    ensures var (inserted, ok) := Insert(st, hash, e, exclusive, cacheTtl, gcTtl, now);
            if ok then
              && e in inserted.items && Field(ItemAt(inserted, e), REFS) == 1
              && StoreEffect(made, WithMeta(inserted, e, REFS, 0), hash, key, NewEntry(body, life, t, 0), exclusive,
                             cacheTtl, t, ok)
            else StoreEffect(made, State(inserted.items - {e}, inserted.chains), hash, key,
                             NewEntry(body, life, t, 0), exclusive, cacheTtl, t, ok)
  {
    hide Placed, Separate, OwnedBy, Counted, KeyedBody, NewEntry, KeyIn, ItemOk, Field, Unlisted, Insert, Expired,
         HardExpired, Binds, StoreEffect, Holds, Taken, WithMeta;
    BodySized(hash, body, key, life, t);
    assert Unlisted(st.chains, e);
    InsertRefines(st, hash, e, exclusive, cacheTtl, gcTtl, now);
    UnlistedHolds(st, made, hash, e);
    var (inserted, ok) := Insert(st, hash, e, exclusive, cacheTtl, gcTtl, now);
    if ok {
      StoredEffect(made, st, inserted, hash, key, e, NewEntry(body, life, t, 1), exclusive, cacheTtl, t);
    } else {
      var st1 := State(inserted.items - {e}, inserted.chains);
      UnlistedHolds(inserted, st1, hash, e);
      RefusedEffect(made, st, inserted, st1, hash, key, NewEntry(body, life, t, 0), exclusive, cacheTtl, t);
    }
  }

  lemma TakenSame(made: State, st: State, hash: Hash, key: seq<int>, t: int)
    requires BindsAllBut(st, made, hash, {})
    ensures Taken(made, hash, key, t) <==> Taken(st, hash, key, t)
  {
    hide Binds, HardExpired, ItemAt;
    if Taken(st, hash, key, t) {
      var e: nat :| Binds(st, hash, key, e) && !HardExpired(ItemAt(st, e), t);
      assert Binds(made, hash, key, e);
    }
  }

  lemma HoldsSame(st: State, st1: State, hash: Hash, key: seq<int>, d: Item)
    requires BindsAllBut(st, st1, hash, {})
    ensures Holds(st1, hash, key, d) <==> Holds(st, hash, key, d)
  {
    hide Binds, ItemAt;
    if Holds(st, hash, key, d) {
      var e: nat :| Binds(st, hash, key, e) && ItemAt(st, e) == d;
      assert Binds(st1, hash, key, e);
    }
  }

  /** What an insertion did for the other keys, said of entries' contents. */
  lemma OthersHold(st: State, st1: State, hash: Hash, key: seq<int>, cacheTtl: int, t: int)
    requires ExpiredOrSame(st, st1, hash, key, cacheTtl, t)
    ensures OthersAfterStore(st, st1, hash, key, cacheTtl, t)
  {
    hide Binds, ItemAt, Expired;
    forall key', d | key' != key
      ensures Holds(st1, hash, key', d) ==> Holds(st, hash, key', d)
      ensures Holds(st, hash, key', d) && !Holds(st1, hash, key', d) ==> Expired(d, cacheTtl, t)
    {
      if Holds(st1, hash, key', d) {
        var e: nat :| Binds(st1, hash, key', e) && ItemAt(st1, e) == d;
        assert Binds(st, hash, key', e);
      } else if Holds(st, hash, key', d) {
        var e: nat :| Binds(st, hash, key', e) && ItemAt(st, e) == d;
        assert !Binds(st1, hash, key', e);
      }
    }
  }

  lemma RefusedEffect(made: State, st: State, inserted: State, st1: State, hash: Hash, key: seq<int>, c: Item,
                      exclusive: bool, cacheTtl: int, t: int)
    requires BindsAllBut(st, made, hash, {}) && BindsAllBut(inserted, st1, hash, {})
    requires ExpiredOrSame(st, inserted, hash, key, cacheTtl, t) && exclusive && Taken(st, hash, key, t)
    requires forall f: nat ::
             (Binds(inserted, hash, key, f) <==> Binds(st, hash, key, f))
                 && (Binds(inserted, hash, key, f) ==> ItemAt(inserted, f) == ItemAt(st, f))
    ensures StoreEffect(made, st1, hash, key, c, exclusive, cacheTtl, t, false)
  {
    hide Binds, ItemAt, Expired, Taken, BindsAllBut;
    TakenSame(made, st, hash, key, t);
    OthersHold(st, inserted, hash, key, cacheTtl, t);
    forall key', d
      ensures Holds(made, hash, key', d) <==> Holds(st, hash, key', d)
      ensures Holds(st1, hash, key', d) <==> Holds(inserted, hash, key', d)
    {
      HoldsSame(st, made, hash, key', d);
      HoldsSame(inserted, st1, hash, key', d);
    }
    forall d
      ensures Holds(inserted, hash, key, d) <==> Holds(st, hash, key, d)
    {
    }
  }

  lemma StoredEffect(made: State, st: State, inserted: State, hash: Hash, key: seq<int>, e: nat, c: Item,
                     exclusive: bool, cacheTtl: int, t: int)
    requires BindsAllBut(st, made, hash, {}) && |c| >= KEY - TTL && KeyIn(c) == key
    requires ExpiredOrSame(st, inserted, hash, key, cacheTtl, t) && !(exclusive && Taken(st, hash, key, t))
             && Sound(inserted, hash)
    requires ItemAt(inserted, e) == c && forall f: nat :: Binds(inserted, hash, key, f) <==> f == e
    ensures StoreEffect(made, WithMeta(inserted, e, REFS, 0), hash, key, c[REFS - TTL := 0], exclusive, cacheTtl, t,
                        true)
  {
    hide Binds, Expired, Taken, BindsAllBut, KeyIn, Sound;
    var st1 := WithMeta(inserted, e, REFS, 0);
    TakenSame(made, st, hash, key, t);
    OthersHold(st, inserted, hash, key, cacheTtl, t);
    MetaBinds(inserted, hash, e, REFS, 0);
    forall key', d
      ensures Holds(made, hash, key', d) <==> Holds(st, hash, key', d)
      ensures key' != key ==> (Holds(st1, hash, key', d) <==> Holds(inserted, hash, key', d))
      ensures Holds(st1, hash, key, d) <==> d == c[REFS - TTL := 0]
    {
      HoldsSame(st, made, hash, key', d);
      assert Binds(st1, hash, key, e);
      BindsOnce(inserted, hash, key, key', e);
    }
  }

  lemma BindsOnce(st: State, hash: Hash, key: seq<int>, key': seq<int>, e: nat)
    requires Binds(st, hash, key, e)
    ensures Binds(st, hash, key', e) ==> key' == key
  {
    hide KeyIn;
  }

  lemma MetaBinds(st: State, hash: Hash, e: nat, f: nat, x: int)
    requires Changing(f) && |ItemAt(st, e)| >= KEY - TTL
    ensures forall key, e1: nat :: Binds(WithMeta(st, e, f, x), hash, key, e1) <==> Binds(st, hash, key, e1)
    ensures forall e1: nat | e1 != e :: ItemAt(WithMeta(st, e, f, x), e1) == ItemAt(st, e1)
  {
    hide KeyIn;
    MetaItem(ItemAt(st, e), f, x);
  }

  /** The words of an entry from its value on. */
  ghost function BodyOf(c: Item): seq<int> {
    if |c| >= VAL - TTL then c[VAL - TTL..] else []
  }

  /** The recorded size of the entry is that of its memory. */
  ghost predicate Whole(c: Item) {
    |c| >= KEY - TTL && Field(c, MEMSIZE) == TTL + |c|
  }

  lemma NewBody(body: seq<int>, life: int, t: int, refs: int)
    requires |body| >= KEY - VAL
    ensures var c := NewEntry(body, life, t, refs);
            BodyOf(c) == body && Whole(c)
  {
  }

  /** Counting and referring leave the words of an entry alone. */
  lemma MetaBody(c: Item, f: nat, x: int)
    requires TTL <= f < MEMSIZE && |c| >= KEY - TTL
    ensures BodyOf(c[f - TTL := x]) == BodyOf(c) && (Whole(c) ==> Whole(c[f - TTL := x]))
  {
  }

  /** What a key alone holds is found, until its time to live is over. */
  lemma HeldThenFind(st: State, hash: Hash, key: seq<int>, body: seq<int>, life: int, t: int, t1: int)
    requires Sound(st, hash) && |body| >= KEY - VAL
    requires forall d {:trigger Holds(st, hash, key, d)} :: Holds(st, hash, key, d) <==> d == NewEntry(body, life, t, 0)
    ensures |st.chains| > 1
    ensures Find(st, hash, key, t1).Some? <==> life == 0 || t1 <= t + life
    ensures Find(st, hash, key, t1).Some? ==>
              ItemAt(st, Find(st, hash, key, t1).value) == NewEntry(body, life, t, 0)
  {
    hide Placed, Separate, KeyIn, Find, Binds, ItemAt;
    var c := NewEntry(body, life, t, 0);
    SoundSized(st, hash);
    assert HardExpired(c, t1) <==> life != 0 && t + life < t1;
    assert Holds(st, hash, key, c);
    var e: nat :| Binds(st, hash, key, e) && ItemAt(st, e) == c;
    FindRefines(st, hash, key, t1, e);
    if Find(st, hash, key, t1).Some? {
      var f := Find(st, hash, key, t1).value;
      FindRefines(st, hash, key, t1, f);
      assert Holds(st, hash, key, ItemAt(st, f));
    }
  }

  /** After a store a lookup finds exactly what was stored, until its time to live is over,
      also if the entry was moved meanwhile. */
  lemma StoreThenFind(st: State, st1: State, st2: State, hash: Hash, loose: set<nat>, key: seq<int>, body: seq<int>,
                      life: int, exclusive: bool, cacheTtl: int, t: int, t1: int)
    requires Sound(st1, hash) && |body| >= KEY - VAL && (st2 == st1 || Relocated(st1, st2, loose))
    requires StoreEffect(st, st1, hash, key, NewEntry(body, life, t, 0), exclusive, cacheTtl, t, true)
    ensures |st2.chains| > 1
    ensures Find(st2, hash, key, t1).Some? <==> life == 0 || t1 <= t + life
    ensures Find(st2, hash, key, t1).Some? ==>
              ItemAt(st2, Find(st2, hash, key, t1).value) == NewEntry(body, life, t, 0)
  {
    hide Sound, Find, Holds, ItemAt, NewEntry, Relocated;
    if st2 != st1 {
      RelocatedSameMap(st1, st2, hash, loose);
      RelocatedSound(st1, st2, hash, loose);
    }
    HeldThenFind(st2, hash, key, body, life, t, t1);
  }

  lemma ListedNotLoose(st: State, counters: seq<int>, hash: Hash, loose: set<nat>, k: nat, i: nat)
    requires Good(st, counters, hash, loose) && At(st, k, i)
    ensures st.chains[k][i] !in loose
  {
    hide Sound, Field;
    ListedIn(st.chains, k, i);
    assert st.chains[k][i] in loose ==> LooseIn(st, st.chains[k][i]);
  }

  // ----- Counters that start at zero -----

  /** The words of an entry with the integer zero: its value and its type, and then the key. */
  function ZeroBody(hash: Hash, key: seq<Byte>): (body: seq<int>)
    ensures |body| >= KEY - VAL
  {
    [0, IS_LONG, 1, hash(key), |key|] + Pack(key)
  }

  lemma ZeroKeyed(hash: Hash, key: seq<Byte>)
    ensures KeyedBody(hash, ZeroBody(hash, key), key)
  {
    hide Pack, Unpack;
    assert ZeroBody(hash, key)[KEY - VAL..] == Pack(key);
    UnpackPack(key);
  }

  lemma UpdateFinds(st: State, hash: Hash, key: seq<int>, t: int, updater: int -> (int, bool))
    requires |st.chains| > 1
    ensures forall st1, done {:trigger LongUpdated(st, st1, hash, key, t, updater, done)} ::
              LongUpdated(st, st1, hash, key, t, updater, done) ==>
                (done.None? <==> Find(st, hash, key, t).None?) && (done.None? ==> st1 == st)
  {
    hide Find;
  }

  /** A key that is not found is not taken, and making room does not change that. */
  lemma NotTaken(st: State, made: State, hash: Hash, key: seq<int>, t: int, cacheTtl: int, last: Option<int>)
    requires Sound(st, hash) && |st.chains| > 1 && Find(st, hash, key, t).None?
    requires Thinned(st, made, hash, cacheTtl, last)
    ensures !Taken(made, hash, key, t)
  {
    hide Sound, Find, HardExpired, Expired, ItemAt;
    forall e: nat
      ensures !(Binds(st, hash, key, e) && !HardExpired(ItemAt(st, e), t))
    {
      FindRefines(st, hash, key, t, e);
    }
    forall e: nat | Binds(made, hash, key, e)
      ensures HardExpired(ItemAt(made, e), t)
    {
      if last.Some? && !SlotsEmpty(made) {
        assert Holds(made, hash, key, ItemAt(made, e));
        assert Holds(st, hash, key, ItemAt(made, e));
      } else if last.Some? {
        SlotInside(made, hash, key);
      }
    }
  }

  lemma SlotInside(st: State, hash: Hash, key: seq<int>)
    requires |st.chains| > 1
    ensures 1 <= SlotOf(st, hash, key) < |st.chains|
  {
  }

  /** A zero that was stored for a key that was not found is found then, and updated. */
  lemma ZeroStored(st: State, made: State, mid: State, hash: Hash, key: seq<Byte>, life: int, t: int, cacheTtl: int,
                   last: Option<int>, tooLarge: bool, room: bool, memory: bool, fits: bool, ok: bool,
                   updater: int -> (int, bool))
    requires Sound(st, hash) && |st.chains| > 1 && Find(st, hash, key, t).None? && Sound(mid, hash)
    requires MadeRoom(st, made, hash, tooLarge, room, memory, fits, cacheTtl, last) && (!memory ==> mid == made)
    requires memory ==>
               StoreEffect(made, mid, hash, key, NewEntry(ZeroBody(hash, key), life, t, 0), true, cacheTtl, t, ok)
    ensures |mid.chains| > 1 && (memory ==> ok)
    ensures forall st1, done {:trigger LongUpdated(mid, st1, hash, key, t, updater, done)} ::
              LongUpdated(mid, st1, hash, key, t, updater, done) ==>
                && (!memory ==> done.None?) && (memory && life >= 0 ==> done == Some(updater(0).1))
  {
    hide Sound, Find, Thinned, NewEntry, Holds, Taken;
    NotTaken(st, made, hash, key, t, cacheTtl, last);
    SoundSized(mid, hash);
    if memory {
      HeldThenFind(mid, hash, key, ZeroBody(hash, key), life, t, t);
      ZeroFields(hash, key, life, t);
    } else {
      NotTakenFind(mid, hash, key, t);
    }
  }

  lemma ZeroFields(hash: Hash, key: seq<Byte>, life: int, t: int)
    ensures var c := NewEntry(ZeroBody(hash, key), life, t, 0);
            Field(c, KIND) == IS_LONG && Field(c, VAL) == 0
  {
    hide Pack;
  }

  lemma NotTakenFind(st: State, hash: Hash, key: seq<int>, t: int)
    requires Sound(st, hash) && |st.chains| > 1 && !Taken(st, hash, key, t)
    ensures Find(st, hash, key, t).None?
  {
    hide Sound, HardExpired, Binds, Find;
    if Find(st, hash, key, t).Some? {
      FindRefines(st, hash, key, t, Find(st, hash, key, t).value);
    }
  }

  lemma NewNotLoose(st: State, counters: seq<int>, hash: Hash, loose: set<nat>, e: nat)
    requires Good(st, counters, hash, loose) && e !in st.items
    ensures e !in loose
  {
    hide Sound, Unlisted, Field;
    assert e in loose ==> LooseIn(st, e);
  }
}
