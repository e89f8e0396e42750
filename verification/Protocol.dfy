/** Processes that share the cache: every step of one of them happens under the lock of the
    cache or of the allocator, or is a single atomic update.  An entry is safe to use for as
    long as a reference to it is held, whatever the others do. */
module Protocol {
  import opened CacheLists
  import opened CacheModel
  import opened CacheImage
  import opened CacheState
  import CacheMove

  /** A reference that some process holds, and what it has read through it. */
  datatype Pin = Pin(e: nat, words: seq<int>)

  /** The shared cache, the entries that are being made, and the references that are held. */
  datatype World = World(st: State, loose: set<nat>, pins: map<nat, Pin>)

  datatype Config = Config(hash: Hash, cacheTtl: int, gcTtl: nat)

  ghost predicate Simple(c: Item) {
    Field(c, KIND) < IS_STRING
  }

  /** What does not change about an entry once it is made: size, key, what the value refers
      to, and the value itself unless it is a number or another simple one, which may be
      updated in place, but stays simple. */
  ghost function Words(c: Item): seq<int> {
    if |c| < KEY - TTL then []
    else [c[MEMSIZE - TTL], if Simple(c) then 1 else 0] + (if Simple(c) then []
                                                           else c[VAL - TTL..VAL + 2 - TTL]) + c[VAL + 2 - TTL..]
  }

  ghost function Held(pins: map<nat, Pin>, e: nat): set<nat> {
    set t | t in pins && pins[t].e == e
  }

  // ----- Steps -----

  datatype Action =
    | Create(e: nat, c: Item, t: nat)                        // memory for an entry, referenced from the start
    | Write(t: nat, f: nat, x: int)                          // filling in an entry that is not in the cache yet
    | Store(t: nat, exclusive: bool, now: int)               // inserting it
    | Discard(t: nat)                                        // giving it up
    | FindPin(key: seq<int>, at: int, t: nat)                // looking a key up and referring to its entry
    | VisitPin(k: nat, i: nat, t: nat)                       // referring to an entry met in any list
    | Unpin(t: nat)                                          // releasing a reference
    | Update(key: seq<int>, at: int, bits: int, kind: int)   // a simple value, in place
    | Remove(key: seq<int>, now: int)                        // deleting a key
    | Expunge(huge: bool, room: bool, at: int, now: int)     // making room, with defragmentation
    | Clear(now: int)

  /** No reference is held for longer than removed entries are kept. */
  ghost predicate Timely(w: World, now: int, gcTtl: nat) {
    forall t | t in w.pins && |w.st.chains| > 0 && w.pins[t].e in w.st.chains[0] ::
      gcTtl == 0 || now - Field(ItemAt(w.st, w.pins[t].e), DTIME) <= gcTtl
  }

  ghost function Refer(w: World, e: nat, t: nat): World {
    World(WithMeta(w.st, e, REFS, Field(ItemAt(w.st, e), REFS) + 1), w.loose,
          w.pins[t := Pin(e, Words(ItemAt(w.st, e)))])
  }

  ghost predicate Next(cfg: Config, w: World, a: Action, w1: World) {
    |w.st.chains| > 1 &&
    match a
    case Create(e, c, t) =>
      && e !in w.st.items && t !in w.pins && |c| >= KEY - TTL && Field(c, REFS) == 1
      && w1 == World(w.st.(items := w.st.items[e := c]), w.loose + {e}, w.pins[t := Pin(e, Words(c))])
    case Write(t, f, x) =>
      && t in w.pins && w.pins[t].e in w.loose && f != REFS && TTL <= f < TTL + |ItemAt(w.st, w.pins[t].e)|
      && var c := ItemAt(w.st, w.pins[t].e)[f - TTL := x];
      w1 == World(w.st.(items := w.st.items[w.pins[t].e := c]), w.loose, w.pins[t := Pin(w.pins[t].e, Words(c))])
    case Store(t, exclusive, now) =>
      && t in w.pins && w.pins[t].e in w.loose && Timely(w, now, cfg.gcTtl)
      && var e := w.pins[t].e;
      && e in w.st.items && ItemOk(cfg.hash, w.st.items[e])
      && var (st1, ok) := Insert(w.st, cfg.hash, e, exclusive, cfg.cacheTtl, cfg.gcTtl, now);
      w1 == World(st1, if ok then w.loose - {e} else w.loose, w.pins)
    case Discard(t) =>
      && t in w.pins && w.pins[t].e in w.loose
      && w1 == World(w.st.(items := w.st.items - {w.pins[t].e}), w.loose - {w.pins[t].e}, w.pins - {t})
    case FindPin(key, at, t) =>
      && t !in w.pins
      && var found := Find(w.st, cfg.hash, key, at);
      if found.None? then w1 == w
      else exists st2 :: Accessed(w.st, st2, found.value, at) && w1 == Refer(w.(st := st2), found.value, t)
    case VisitPin(k, i, t) => At(w.st, k, i) && t !in w.pins && w1 == Refer(w, w.st.chains[k][i], t)
    case Unpin(t) =>
      && t in w.pins && w.pins[t].e !in w.loose
      && w1 == World(WithMeta(w.st, w.pins[t].e, REFS, Field(ItemAt(w.st, w.pins[t].e), REFS) - 1), w.loose,
                     w.pins - {t})
    case Update(key, at, bits, kind) =>
      var found := Find(w.st, cfg.hash, key, at);
      if found.None? || !Simple(ItemAt(w.st, found.value)) then w1 == w
      else kind < IS_STRING && w1 == w.(st := Updated(w.st, found.value, at, bits, kind))
    case Remove(key, now) => w1 == w.(st := Delete(w.st, cfg.hash, key, now).0)
    case Expunge(huge, room, at, now) =>
      Timely(w, now, cfg.gcTtl) && w1.loose == w.loose && w1.pins == w.pins
      && Expunged(w.st, w1.st, w.loose, huge, room, cfg.cacheTtl, cfg.gcTtl, at, now)
    case Clear(now) =>
      Timely(w, now, cfg.gcTtl) && w1 == w.(st := Collect(ClearFrom(w.st, 1, now), 0, now, cfg.gcTtl))
  }

  // ----- The invariant -----

  /** The entry is in memory, at the same address, with the same words. */
  ghost predicate PinSafe(st: State, p: Pin) {
    p.e in st.items && |st.items[p.e]| >= KEY - TTL && Words(st.items[p.e]) == p.words
  }

  ghost predicate PinsSafe(st: State, pins: map<nat, Pin>) {
    forall t {:trigger PinSafe(st, pins[t])} | t in pins :: PinSafe(st, pins[t])
  }

  ghost predicate RefsRight(st: State, pins: map<nat, Pin>, e: nat) {
    Field(ItemAt(st, e), REFS) == |Held(pins, e)|
  }

  /** The reference count of an entry is the number of references that are held. */
  ghost predicate AllRefsRight(st: State, pins: map<nat, Pin>) {
    forall e {:trigger RefsRight(st, pins, e)} | e in st.items :: RefsRight(st, pins, e)
  }

  ghost predicate LooseOnce(pins: map<nat, Pin>, loose: set<nat>) {
    forall e {:trigger Held(pins, e)} | e in loose :: |Held(pins, e)| == 1
  }

  ghost predicate Sized(st: State) {
    forall e | e in st.items :: |st.items[e]| >= KEY - TTL
  }

  /** What is in a list is in memory. */
  ghost predicate AllIn(st: State) {
    forall f: nat {:trigger Unlisted(st.chains, f)} :: !Unlisted(st.chains, f) ==> f in st.items
  }

  ghost predicate Inv(cfg: Config, w: World) {
    && Sound(w.st, cfg.hash) && OwnedBy(w.st, w.loose) && AllIn(w.st) && PinsSafe(w.st, w.pins)
    && AllRefsRight(w.st, w.pins)
    && LooseOnce(w.pins, w.loose) && Sized(w.st)
  }

  ghost predicate Init(w: World, nslots: nat) {
    nslots > 0 && w == World(State(map[], EmptyChains(nslots)), {}, map[])
  }

  lemma InitInv(cfg: Config, w: World, nslots: nat)
    requires Init(w, nslots)
    ensures Inv(cfg, w)
  {
    hide MemFrom, CountFrom;
    EmptyGood(nslots, cfg.hash);
  }

  // ----- Held references -----

  lemma HeldSome(pins: map<nat, Pin>, t: nat)
    requires t in pins
    ensures |Held(pins, pins[t].e)| > 0
  {
    assert t in Held(pins, pins[t].e);
  }

  lemma HeldMore(pins: map<nat, Pin>, t: nat, p: Pin, e: nat)
    requires t !in pins
    ensures |Held(pins[t := p], e)| == |Held(pins, e)| + if p.e == e then 1 else 0
  {
    var pins1 := pins[t := p];
    assert Held(pins1, e) == Held(pins, e) + if p.e == e then {t} else {};
  }

  lemma HeldLess(pins: map<nat, Pin>, t: nat, e: nat)
    requires t in pins
    ensures |Held(pins - {t}, e)| == |Held(pins, e)| - if pins[t].e == e then 1 else 0
  {
    assert Held(pins - {t}, e) == Held(pins, e) - {t};
  }

  lemma HeldSame(pins: map<nat, Pin>, t: nat, p: Pin, e: nat)
    requires t in pins && p.e == pins[t].e
    ensures Held(pins[t := p], e) == Held(pins, e)
  {
  }

  // ----- Cleaning keeps what is held -----

  /** What cleaning relies on and keeps, at a given time. */
  ghost predicate HeldSafe(st: State, pins: map<nat, Pin>, now: int, gcTtl: nat) {
    && PinsSafe(st, pins) && AllRefsRight(st, pins) && Sized(st)
    && forall t | t in pins && |st.chains| > 0 && pins[t].e in st.chains[0] ::
         gcTtl == 0 || now - Field(ItemAt(st, pins[t].e), DTIME) <= gcTtl
  }

  lemma DtimeKeeps(c: Item, now: int)
    requires |c| >= KEY - TTL
    ensures var c1 := WithDtime(c, now);
            && |c1| == |c| && Words(c1) == Words(c) && Field(c1, REFS) == Field(c, REFS) && Field(c1, DTIME) == now
  {
  }

  lemma NoRefs()
    ensures Field([], REFS) == 0
  {
  }

  lemma RemoveKeepsPinned(st: State, pins: map<nat, Pin>, k: nat, i: nat, now: int, gcTtl: nat)
    requires HeldSafe(st, pins, now, gcTtl) && At(st, k, i) && k > 0
    ensures HeldSafe(CacheModel.Remove(st, k, i, now), pins, now, gcTtl)
  {
    hide Words, Field, Held, WithDtime;
    var e, st1 := st.chains[k][i], CacheModel.Remove(st, k, i, now);
    NoRefs();
    if e in st.items {
      DtimeKeeps(st.items[e], now);
      assert RefsRight(st, pins, e);
    }
    forall t | t in pins
      ensures PinSafe(st1, pins[t])
      ensures pins[t].e in st1.chains[0] ==> gcTtl == 0 || now - Field(ItemAt(st1, pins[t].e), DTIME) <= gcTtl
    {
      HeldSome(pins, t);
      assert PinSafe(st, pins[t]);
    }
    forall f | f in st1.items
      ensures RefsRight(st1, pins, f)
    {
      if f in st.items {
        assert RefsRight(st, pins, f);
      }
    }
  }

  lemma DropKeepsPinned(st: State, pins: map<nat, Pin>, i: nat, now: int, gcTtl: nat)
    requires HeldSafe(st, pins, now, gcTtl) && At(st, 0, i) && !StaysInGc(ItemAt(st, st.chains[0][i]), now, gcTtl)
    ensures HeldSafe(Drop(st, 0, i), pins, now, gcTtl)
  {
    hide Words, Field, Held;
    var e, st1 := st.chains[0][i], Drop(st, 0, i);
    forall t | t in pins
      ensures PinSafe(st1, pins[t])
    {
      HeldSome(pins, t);
      assert PinSafe(st, pins[t]);
      assert RefsRight(st, pins, pins[t].e);
    }
    forall f | f in st1.items
      ensures RefsRight(st1, pins, f)
    {
      assert RefsRight(st, pins, f);
    }
  }

  /** Cleaning neither frees nor changes an entry that is referred to. */
  lemma CleaningKeepsPinned(pins: map<nat, Pin>, now: int, gcTtl: nat)
    ensures KeptByCleaning(st => HeldSafe(st, pins, now, gcTtl), now, gcTtl)
  {
    hide HeldSafe, CacheModel.Remove, Drop, StaysInGc;
    var P := (st: State) => HeldSafe(st, pins, now, gcTtl);
    forall st: State, k: nat, i: nat | P(st) && At(st, k, i) && k > 0
      ensures P(CacheModel.Remove(st, k, i, now))
    {
      RemoveKeepsPinned(st, pins, k, i, now, gcTtl);
    }
    forall st: State, i: nat | P(st) && At(st, 0, i) && !StaysInGc(ItemAt(st, st.chains[0][i]), now, gcTtl)
      ensures P(Drop(st, 0, i))
    {
      DropKeepsPinned(st, pins, i, now, gcTtl);
    }
  }

  lemma CleanedPinned(pins: map<nat, Pin>, st: State, now: int, gcTtl: nat)
    requires HeldSafe(st, pins, now, gcTtl) && |st.chains| > 0
    ensures HeldSafe(Collect(st, 0, now, gcTtl), pins, now, gcTtl)
  {
    hide HeldSafe;
    CleaningKeepsPinned(pins, now, gcTtl);
    CollectKeeps(st => HeldSafe(st, pins, now, gcTtl), st, 0, now, gcTtl);
  }

  lemma WalkedPinned(pins: map<nat, Pin>, st: State, k: nat, key: seq<int>, cacheTtl: int, t: int, now: int, gcTtl: nat)
    requires HeldSafe(st, pins, now, gcTtl) && 0 < k < |st.chains|
    ensures HeldSafe(Walk(st, k, 0, key, cacheTtl, t, now).0, pins, now, gcTtl)
  {
    hide HeldSafe;
    CleaningKeepsPinned(pins, now, gcTtl);
    WalkKeeps(st => HeldSafe(st, pins, now, gcTtl), st, k, 0, key, cacheTtl, t, now, gcTtl);
  }

  lemma ExpiredPinned(pins: map<nat, Pin>, st: State, cacheTtl: int, t: int, now: int, gcTtl: nat)
    requires HeldSafe(st, pins, now, gcTtl) && |st.chains| > 1
    ensures HeldSafe(Cleaned(st, cacheTtl, gcTtl, t, now), pins, now, gcTtl)
  {
    hide HeldSafe, ExpireFrom, Collect;
    CleaningKeepsPinned(pins, now, gcTtl);
    ExpireFromKeeps(st => HeldSafe(st, pins, now, gcTtl), st, 1, cacheTtl, t, now, gcTtl);
    CleanedPinned(pins, ExpireFrom(st, 1, cacheTtl, t, now), now, gcTtl);
  }

  lemma ClearedPinned(pins: map<nat, Pin>, st: State, now: int, gcTtl: nat)
    requires HeldSafe(st, pins, now, gcTtl) && |st.chains| > 1
    ensures HeldSafe(ClearFrom(st, 1, now), pins, now, gcTtl)
  {
    hide HeldSafe, ClearFrom;
    CleaningKeepsPinned(pins, now, gcTtl);
    ClearFromKeeps(st => HeldSafe(st, pins, now, gcTtl), st, 1, now, gcTtl);
  }

  /** The same for soundness and ownership. */
  ghost predicate InOrder(st: State, hash: Hash, loose: set<nat>) {
    Sound(st, hash) && OwnedBy(st, loose) && AllIn(st)
  }

  lemma RemoveAllIn(st: State, k: nat, i: nat, now: int)
    requires Separate(st.chains) && AllIn(st) && At(st, k, i) && k > 0
    ensures AllIn(CacheModel.Remove(st, k, i, now))
  {
    hide Separate, Unlisted, Removed, Inserted, Field;
    var e, chains1, st1 := st.chains[k][i], Removed(st.chains, k, i), CacheModel.Remove(st, k, i, now);
    RemovedShape(st.chains, k, i);
    forall f: nat | !Unlisted(st1.chains, f)
      ensures f in st1.items
    {
      RemovedListed(st.chains, k, i, f);
      InsertedListed(chains1, 0, 0, e, f);
    }
  }

  lemma RemovedShape(chains: Chains, k: nat, i: nat)
    requires k < |chains| && i < |chains[k]|
    ensures |Removed(chains, k, i)| == |chains|
  {
  }

  lemma DropAllIn(st: State, i: nat)
    requires Separate(st.chains) && AllIn(st) && At(st, 0, i)
    ensures AllIn(Drop(st, 0, i))
  {
    hide Separate, Unlisted, Removed;
    var st1 := Drop(st, 0, i);
    forall f: nat | !Unlisted(st1.chains, f)
      ensures f in st1.items
    {
      RemovedListed(st.chains, 0, i, f);
    }
  }

  lemma InsertAllIn(st: State, k: nat, i: nat, e: nat)
    requires AllIn(st) && k < |st.chains| && i <= |st.chains[k]| && e in st.items
    ensures AllIn(st.(chains := Inserted(st.chains, k, i, e)))
  {
    hide Unlisted, Inserted;
    forall f: nat | !Unlisted(Inserted(st.chains, k, i, e), f)
      ensures f in st.items
    {
      InsertedListed(st.chains, k, i, e, f);
    }
  }

  lemma CleaningKeepsOwned(hash: Hash, loose: set<nat>, now: int, gcTtl: nat)
    ensures KeptByCleaning(st => InOrder(st, hash, loose), now, gcTtl)
  {
    hide Placed, Separate, OwnedBy, AllIn, CacheModel.Remove, Drop, StaysInGc, SameSlots;
    var P := (st: State) => InOrder(st, hash, loose);
    forall st: State, k: nat, i: nat | P(st) && At(st, k, i) && k > 0
      ensures P(CacheModel.Remove(st, k, i, now))
    {
      RemovePlaced(st, hash, k, i, now);
      RemoveOwned(st, loose, k, i, now);
      RemoveAllIn(st, k, i, now);
    }
    forall st: State, i: nat | P(st) && At(st, 0, i) && !StaysInGc(ItemAt(st, st.chains[0][i]), now, gcTtl)
      ensures P(Drop(st, 0, i))
    {
      DropSlots(st, i);
      SameSlotsPlaced(st, Drop(st, 0, i), hash);
      DropOwned(st, loose, i);
      DropAllIn(st, i);
    }
  }

  lemma CollectOwned(hash: Hash, loose: set<nat>, st: State, now: int, gcTtl: nat)
    requires InOrder(st, hash, loose) && |st.chains| > 0
    ensures InOrder(Collect(st, 0, now, gcTtl), hash, loose)
  {
    hide InOrder;
    CleaningKeepsOwned(hash, loose, now, gcTtl);
    CollectKeeps(st => InOrder(st, hash, loose), st, 0, now, gcTtl);
  }

  lemma WalkOwned(hash: Hash, loose: set<nat>, st: State, k: nat, key: seq<int>, cacheTtl: int, t: int, now: int,
                  gcTtl: nat)
    requires InOrder(st, hash, loose) && 0 < k < |st.chains|
    ensures InOrder(Walk(st, k, 0, key, cacheTtl, t, now).0, hash, loose)
  {
    hide InOrder;
    CleaningKeepsOwned(hash, loose, now, gcTtl);
    WalkKeeps(st => InOrder(st, hash, loose), st, k, 0, key, cacheTtl, t, now, gcTtl);
  }

  lemma CleanedOwned(hash: Hash, loose: set<nat>, st: State, cacheTtl: int, t: int, now: int, gcTtl: nat)
    requires InOrder(st, hash, loose) && |st.chains| > 1
    ensures InOrder(Cleaned(st, cacheTtl, gcTtl, t, now), hash, loose)
  {
    hide InOrder, ExpireFrom, Collect;
    CleaningKeepsOwned(hash, loose, now, gcTtl);
    ExpireFromKeeps(st => InOrder(st, hash, loose), st, 1, cacheTtl, t, now, gcTtl);
    CollectOwned(hash, loose, ExpireFrom(st, 1, cacheTtl, t, now), now, gcTtl);
  }

  lemma ClearOwned(hash: Hash, loose: set<nat>, st: State, now: int, gcTtl: nat)
    requires InOrder(st, hash, loose) && |st.chains| > 1
    ensures InOrder(ClearFrom(st, 1, now), hash, loose)
  {
    hide InOrder, ClearFrom;
    CleaningKeepsOwned(hash, loose, now, gcTtl);
    ClearFromKeeps(st => InOrder(st, hash, loose), st, 1, now, gcTtl);
  }

  // ----- Defragmentation keeps what is held -----

  lemma RelocatedPin(st: State, st1: State, loose: set<nat>, pins: map<nat, Pin>, e: nat)
    requires Relocated(st, st1, loose) && OwnedBy(st, loose) && e in st.items && Field(ItemAt(st, e), REFS) > 0
    ensures SameItem(st, e, st1, e)
    ensures e !in loose ==> exists k, i ::
            0 <= k < |st.chains| && 0 <= i < |st.chains[k]| && st.chains[k][i] == e && st1.chains[k][i] == e
  {
    hide Field;
    assert OwnedIn(st, loose, e);
    if e !in loose {
      var k, i := CacheMove.Position(st.chains, e);
      assert SameItem(st, st.chains[k][i], st1, st1.chains[k][i]);
    }
  }

  /** An entry that moved was referred to by nobody, and is not now. */
  lemma RelocatedRefs(st: State, st1: State, loose: set<nat>, pins: map<nat, Pin>, e1: nat)
    requires Relocated(st, st1, loose) && OwnedBy(st, loose) && PinsSafe(st, pins) && AllRefsRight(st, pins)
             && e1 in st1.items
    ensures RefsRight(st1, pins, e1)
  {
    hide Field, Unlisted, Separate, Words;
    if Held(pins, e1) != {} {
      var t :| t in Held(pins, e1);
      HeldSome(pins, t);
      assert PinSafe(st, pins[t]) && RefsRight(st, pins, e1);
      RelocatedPin(st, st1, loose, pins, e1);
    } else {
      assert OwnedIn(st1, loose, e1);
      if e1 in loose {
        assert SameItem(st, e1, st1, e1) && RefsRight(st, pins, e1);
      } else {
        ListedRefs(st, st1, loose, pins, e1);
      }
    }
  }

  lemma ListedRefs(st: State, st1: State, loose: set<nat>, pins: map<nat, Pin>, e1: nat)
    requires Relocated(st, st1, loose) && AllRefsRight(st, pins) && !Unlisted(st1.chains, e1) && Held(pins, e1) == {}
    ensures Field(ItemAt(st1, e1), REFS) == 0
  {
    hide Field, Separate;
    var k, i := CacheMove.Position(st1.chains, e1);
    var e := st.chains[k][i];
    assert SameItem(st, e, st1, e1) && RefsRight(st, pins, e);
  }

  lemma RelocatedSized(st: State, st1: State, loose: set<nat>)
    requires Relocated(st, st1, loose) && Sized(st)
    ensures Sized(st1)
  {
    hide Field, Separate;
    forall e1 | e1 in st1.items
      ensures |st1.items[e1]| >= KEY - TTL
    {
      assert OwnedIn(st1, loose, e1);
      if e1 in loose {
        assert SameItem(st, e1, st1, e1);
      } else {
        var k, i := CacheMove.Position(st1.chains, e1);
        assert SameItem(st, st.chains[k][i], st1, e1);
      }
    }
  }

  lemma RelocatedTimely(st: State, st1: State, loose: set<nat>, pins: map<nat, Pin>, t: nat)
    requires Relocated(st, st1, loose) && OwnedBy(st, loose) && PinsSafe(st, pins) && AllRefsRight(st, pins)
             && t in pins
    requires |st1.chains| > 0 && pins[t].e in st1.chains[0]
    ensures pins[t].e in st.chains[0] && ItemAt(st1, pins[t].e) == ItemAt(st, pins[t].e)
  {
    hide Field, Words;
    var e := pins[t].e;
    HeldSome(pins, t);
    assert PinSafe(st, pins[t]) && RefsRight(st, pins, e);
    RelocatedPin(st, st1, loose, pins, e);
    assert LooseIn(st1, e) || e !in loose;
    var j :| 0 <= j < |st1.chains[0]| && st1.chains[0][j] == e;
    var k, i :| 0 <= k < |st.chains| && 0 <= i < |st.chains[k]| && st.chains[k][i] == e && st1.chains[k][i] == e;
  }

  lemma RelocatedPinned(st: State, st1: State, loose: set<nat>, pins: map<nat, Pin>, now: int, gcTtl: nat)
    requires Relocated(st, st1, loose) && OwnedBy(st, loose) && HeldSafe(st, pins, now, gcTtl)
    ensures HeldSafe(st1, pins, now, gcTtl) && OwnedBy(st1, loose)
  {
    hide Field, Separate, OwnedBy, Held, Words, SameItem;
    RelocatedSized(st, st1, loose);
    forall t | t in pins
      ensures PinSafe(st1, pins[t])
      ensures |st1.chains| > 0 && pins[t].e in st1.chains[0] ==>
        gcTtl == 0 || now - Field(ItemAt(st1, pins[t].e), DTIME) <= gcTtl
    {
      HeldSome(pins, t);
      assert PinSafe(st, pins[t]) && RefsRight(st, pins, pins[t].e);
      RelocatedPin(st, st1, loose, pins, pins[t].e);
      SameItemIs(st, st1, pins[t].e);
      if |st1.chains| > 0 && pins[t].e in st1.chains[0] {
        RelocatedTimely(st, st1, loose, pins, t);
      }
    }
    forall e1 | e1 in st1.items
      ensures RefsRight(st1, pins, e1)
    {
      RelocatedRefs(st, st1, loose, pins, e1);
    }
  }

  lemma SameItemIs(st: State, st1: State, e: nat)
    requires SameItem(st, e, st1, e)
    ensures e in st.items && e in st1.items && st1.items[e] == st.items[e]
  {
  }

  // ----- Every step keeps the invariant -----

  lemma InvPinned(cfg: Config, w: World, now: int)
    requires Inv(cfg, w) && Timely(w, now, cfg.gcTtl)
    ensures HeldSafe(w.st, w.pins, now, cfg.gcTtl) && InOrder(w.st, cfg.hash, w.loose) && |w.st.chains| > 1
  {
    hide Separate, PinsSafe, AllRefsRight;
  }

  lemma PinnedInv(cfg: Config, w: World, now: int)
    requires HeldSafe(w.st, w.pins, now, cfg.gcTtl) && InOrder(w.st, cfg.hash, w.loose) && LooseOnce(w.pins, w.loose)
    ensures Inv(cfg, w)
  {
    hide Placed, Separate, PinsSafe, AllRefsRight;
  }

  lemma CreateStep(cfg: Config, w: World, e: nat, c: Item, t: nat, w1: World)
    requires Inv(cfg, w) && Next(cfg, w, Create(e, c, t), w1)
    ensures Inv(cfg, w1)
  {
    hide Placed, Separate, Field, Words, Held, SameSlots;
    NotListed(w, e);
    assert Allocated(w.st, w1.st, e, |c| + TTL) by {
      RefsWord(c);
    }
    AllocatedSlots(w.st, w1.st, e, |c| + TTL);
    SameSlotsPlaced(w.st, w1.st, cfg.hash);
    AllocatedOwned(w.st, w1.st, w.loose, e, |c| + TTL);
    NoneHeld(w, e);
    forall f | f in w1.st.items
      ensures RefsRight(w1.st, w1.pins, f)
    {
      HeldMore(w.pins, t, Pin(e, Words(c)), f);
      assert f != e ==> RefsRight(w.st, w.pins, f);
    }
    forall f | f in w1.loose
      ensures |Held(w1.pins, f)| == 1
    {
      HeldMore(w.pins, t, Pin(e, Words(c)), f);
      assert f in w.loose ==> |Held(w.pins, f)| == 1 && LooseIn(w.st, f);
    }
    forall t1 | t1 in w1.pins
      ensures PinSafe(w1.st, w1.pins[t1])
    {
      assert t1 != t ==> PinSafe(w.st, w.pins[t1]);
    }
  }

  lemma RefsWord(c: Item)
    requires |c| >= KEY - TTL
    ensures Field(c, REFS) == c[REFS - TTL]
  {
  }

  /** A place that holds no entry is in no list. */
  lemma NotListed(w: World, e: nat)
    requires OwnedBy(w.st, w.loose) && e !in w.st.items
    ensures e !in w.loose && (AllIn(w.st) ==> Unlisted(w.st.chains, e))
  {
    hide Unlisted, Field;
    assert e in w.loose ==> LooseIn(w.st, e);
  }

  lemma NoneHeld(w: World, e: nat)
    requires PinsSafe(w.st, w.pins) && e !in w.st.items
    ensures Held(w.pins, e) == {}
  {
    forall t | t in w.pins
      ensures w.pins[t].e != e
    {
      assert PinSafe(w.st, w.pins[t]);
    }
  }

  lemma WriteStep(cfg: Config, w: World, t: nat, f: nat, x: int, w1: World)
    requires Inv(cfg, w) && Next(cfg, w, Write(t, f, x), w1)
    ensures Inv(cfg, w1)
  {
    hide Placed, Separate, Words, Held, SameSlots, Field, Unlisted;
    var e := w.pins[t].e;
    assert LooseIn(w.st, e);
    UnlistedSlots(w.st, w1.st, e);
    SameSlotsPlaced(w.st, w1.st, cfg.hash);
    WrittenOwned(w.st, w.loose, e, f, x);
    WrittenRefs(w.st.items[e], f, x);
    forall g | g in w1.st.items
      ensures RefsRight(w1.st, w1.pins, g)
    {
      HeldSame(w.pins, t, w1.pins[t], g);
      assert RefsRight(w.st, w.pins, g);
    }
    forall g | g in w1.loose
      ensures |Held(w1.pins, g)| == 1
    {
      HeldSame(w.pins, t, w1.pins[t], g);
    }
    forall t1 | t1 in w1.pins
      ensures PinSafe(w1.st, w1.pins[t1])
    {
      assert PinSafe(w.st, w.pins[t1]);
      if t1 != t {
        OnlyHolder(w.pins, t, t1);
      }
    }
  }

  lemma WrittenRefs(c: Item, f: nat, x: int)
    requires TTL <= f < TTL + |c| && f != REFS
    ensures Field(c[f - TTL := x], REFS) == Field(c, REFS)
  {
  }

  /** Who holds the only reference to an entry is alone with it. */
  lemma OnlyHolder(pins: map<nat, Pin>, t: nat, t1: nat)
    requires t in pins && t1 in pins && t != t1
    ensures pins[t1].e == pins[t].e ==> |Held(pins, pins[t].e)| != 1
  {
    if pins[t1].e == pins[t].e {
      var s := Held(pins, pins[t].e);
      assert t1 in s - {t} && |s - {t}| == |s| - 1;
    }
  }

  lemma DiscardStep(cfg: Config, w: World, t: nat, w1: World)
    requires Inv(cfg, w) && Next(cfg, w, Discard(t), w1)
    ensures Inv(cfg, w1)
  {
    hide Placed, Separate, Words, Held, SameSlots, Field, Unlisted;
    var e := w.pins[t].e;
    assert LooseIn(w.st, e);
    UnlistedSlots(w.st, w1.st, e);
    SameSlotsPlaced(w.st, w1.st, cfg.hash);
    DiscardOwned(w.st, w.loose, e);
    forall g | g in w1.st.items
      ensures RefsRight(w1.st, w1.pins, g)
    {
      HeldLess(w.pins, t, g);
      assert RefsRight(w.st, w.pins, g);
    }
    forall g | g in w1.loose
      ensures |Held(w1.pins, g)| == 1
    {
      HeldLess(w.pins, t, g);
    }
    forall t1 | t1 in w1.pins
      ensures PinSafe(w1.st, w1.pins[t1])
    {
      assert PinSafe(w.st, w.pins[t1]);
      OnlyHolder(w.pins, t, t1);
    }
  }

  /** Metadata other than the reference count. */
  lemma MetaStep(cfg: Config, w: World, e: nat, f: nat, x: int)
    requires Inv(cfg, w) && e in w.st.items && Changing(f) && f != REFS
    requires f < MEMSIZE || (Simple(w.st.items[e]) && (f == KIND ==> x < IS_STRING))
    ensures Inv(cfg, w.(st := WithMeta(w.st, e, f, x)))
  {
    hide Placed, Separate, Field, Words, Held, Unlisted;
    var st1 := WithMeta(w.st, e, f, x);
    MetaPlaced(w.st, cfg.hash, e, f, x);
    MetaOwned(w.st, w.loose, e, f, x);
    MetaWords(w.st.items[e], f, x);
    forall g | g in st1.items
      ensures RefsRight(st1, w.pins, g)
    {
      assert RefsRight(w.st, w.pins, g);
    }
    forall t | t in w.pins
      ensures PinSafe(st1, w.pins[t])
    {
      assert PinSafe(w.st, w.pins[t]);
    }
  }

  lemma MetaWords(c: Item, f: nat, x: int)
    requires Changing(f) && |c| >= KEY - TTL
    requires f < MEMSIZE || (Simple(c) && (f == KIND ==> x < IS_STRING))
    ensures Simple(c[f - TTL := x]) <==> Simple(c)
    ensures Words(c[f - TTL := x]) == Words(c) && Field(c[f - TTL := x], REFS) == if f == REFS then x
            else Field(c, REFS)
  {
  }

  lemma ReferStep(cfg: Config, w: World, e: nat, t: nat)
    requires Inv(cfg, w) && e in w.st.items && e !in w.loose && t !in w.pins
    ensures Inv(cfg, Refer(w, e, t))
  {
    hide Placed, Separate, Field, Words, Held, Unlisted;
    var w1, x := Refer(w, e, t), Field(ItemAt(w.st, e), REFS) + 1;
    MetaPlaced(w.st, cfg.hash, e, REFS, x);
    MetaOwned(w.st, w.loose, e, REFS, x);
    MetaWords(w.st.items[e], REFS, x);
    forall g | g in w1.st.items
      ensures RefsRight(w1.st, w1.pins, g)
    {
      HeldMore(w.pins, t, w1.pins[t], g);
      assert RefsRight(w.st, w.pins, g);
    }
    forall g | g in w1.loose
      ensures |Held(w1.pins, g)| == 1
    {
      HeldMore(w.pins, t, w1.pins[t], g);
    }
    forall t1 | t1 in w1.pins
      ensures PinSafe(w1.st, w1.pins[t1])
    {
      assert t1 != t ==> PinSafe(w.st, w.pins[t1]);
    }
  }

  lemma UnpinStep(cfg: Config, w: World, t: nat, w1: World)
    requires Inv(cfg, w) && Next(cfg, w, Unpin(t), w1)
    ensures Inv(cfg, w1)
  {
    hide Placed, Separate, Field, Words, Held, Unlisted;
    var e := w.pins[t].e;
    assert PinSafe(w.st, w.pins[t]);
    var x := Field(ItemAt(w.st, e), REFS) - 1;
    MetaPlaced(w.st, cfg.hash, e, REFS, x);
    MetaOwned(w.st, w.loose, e, REFS, x);
    MetaWords(w.st.items[e], REFS, x);
    forall g | g in w1.st.items
      ensures RefsRight(w1.st, w1.pins, g)
    {
      HeldLess(w.pins, t, g);
      assert RefsRight(w.st, w.pins, g);
    }
    forall g | g in w1.loose
      ensures |Held(w1.pins, g)| == 1
    {
      HeldLess(w.pins, t, g);
    }
    forall t1 | t1 in w1.pins
      ensures PinSafe(w1.st, w1.pins[t1])
    {
      assert PinSafe(w.st, w.pins[t1]);
    }
  }

  /** What is in a slot is in memory and not being made. */
  lemma InSlot(w: World, k: nat, i: nat)
    requires OwnedBy(w.st, w.loose) && AllIn(w.st) && At(w.st, k, i)
    ensures w.st.chains[k][i] in w.st.items && w.st.chains[k][i] !in w.loose
  {
    hide Field;
    ListedIn(w.st.chains, k, i);
    assert w.st.chains[k][i] in w.loose ==> LooseIn(w.st, w.st.chains[k][i]);
  }

  lemma FindStep(cfg: Config, w: World, key: seq<int>, at: int, t: nat, w1: World)
    requires Inv(cfg, w) && Next(cfg, w, FindPin(key, at, t), w1)
    ensures Inv(cfg, w1)
  {
    hide Placed, Separate, Field, Words, Held, Unlisted, PinsSafe, AllRefsRight, LooseOnce, OwnedBy, AllIn, Sized,
         KeyIn, HardExpired, ItemAt, WithMeta, Refer;
    var found := Find(w.st, cfg.hash, key, at);
    if found.Some? {
      var k := SlotOf(w.st, cfg.hash, key);
      InSlot(w, k, Search(w.st, k, 0, key));
      var e := found.value;
      var n := Field(ItemAt(w.st, e), NHITS) + 1;
      MetaStep(cfg, w, e, NHITS, n);
      MetaIn(w.st, e, NHITS, n);
      MetaStep(cfg, w.(st := WithMeta(w.st, e, NHITS, n)), e, ATIME, at);
      MetaIn(WithMeta(w.st, e, NHITS, n), e, ATIME, at);
      ReferStep(cfg, w.(st := WithMeta(WithMeta(w.st, e, NHITS, n), e, ATIME, at)), e, t);
    }
  }

  lemma UpdateStep(cfg: Config, w: World, key: seq<int>, at: int, bits: int, kind: int, w1: World)
    requires Inv(cfg, w) && Next(cfg, w, Update(key, at, bits, kind), w1)
    ensures Inv(cfg, w1)
  {
    hide Placed, Separate, Field, Words, Held, Unlisted, PinsSafe, AllRefsRight, LooseOnce, OwnedBy, AllIn, KeyIn,
         HardExpired, WithMeta, Simple;
    var found := Find(w.st, cfg.hash, key, at);
    if found.Some? && Simple(ItemAt(w.st, found.value)) {
      var k := SlotOf(w.st, cfg.hash, key);
      InSlot(w, k, Search(w.st, k, 0, key));
      var e := found.value;
      var st1 := WithMeta(w.st, e, VAL, bits);
      var st2 := WithMeta(st1, e, KIND, kind);
      MetaStep(cfg, w, e, VAL, bits);
      StillSimple(w.st, e, VAL, bits);
      MetaStep(cfg, w.(st := st1), e, KIND, kind);
      StillSimple(st1, e, KIND, kind);
      MetaStep(cfg, w.(st := st2), e, MTIME, at);
    }
  }

  lemma StillSimple(st: State, e: nat, f: nat, x: int)
    requires e in st.items && |st.items[e]| >= KEY - TTL && Simple(st.items[e])
             && (f == VAL || (f == KIND && x < IS_STRING))
    ensures e in WithMeta(st, e, f, x).items && Simple(WithMeta(st, e, f, x).items[e])
    ensures |WithMeta(st, e, f, x).items[e]| >= KEY - TTL
  {
  }

  lemma MetaIn(st: State, e: nat, f: nat, x: int)
    ensures WithMeta(st, e, f, x).items.Keys == st.items.Keys && WithMeta(st, e, f, x).chains == st.chains
  {
  }

  lemma RemoveStep(cfg: Config, w: World, key: seq<int>, now: int, w1: World)
    requires Inv(cfg, w) && Next(cfg, w, Remove(key, now), w1)
    ensures Inv(cfg, w1)
  {
    hide Placed, Separate, Field, KeyIn, OwnedBy, AllIn, LooseOnce, CacheModel.Remove;
    var k := SlotOf(w.st, cfg.hash, key);
    var i := Search(w.st, k, 0, key);
    if i < |w.st.chains[k]| {
      RemovePlaced(w.st, cfg.hash, k, i, now);
      RemoveOwned(w.st, w.loose, k, i, now);
      RemoveAllIn(w.st, k, i, now);
      RemoveKeepsPinned(w.st, w.pins, k, i, now, 0);
    }
  }

  lemma ExpungeStep(cfg: Config, w: World, huge: bool, room: bool, at: int, now: int, w1: World)
    requires Inv(cfg, w) && Next(cfg, w, Expunge(huge, room, at, now), w1)
    ensures Inv(cfg, w1)
  {
    hide Inv, HeldSafe, InOrder, LooseOnce, ClearFrom, Cleaned, Collect, Relocated;
    InvPinned(cfg, w, now);
    InvLoose(cfg, w);
    CleanedShape(w.st, cfg.cacheTtl, cfg.gcTtl, at, now);
    ExpiredPinned(w.pins, w.st, cfg.cacheTtl, at, now, cfg.gcTtl);
    CleanedOwned(cfg.hash, w.loose, w.st, cfg.cacheTtl, at, now, cfg.gcTtl);
    var cleaned := Cleaned(w.st, cfg.cacheTtl, cfg.gcTtl, at, now);
    if huge {
      ClearedPinned(w.pins, w.st, now, cfg.gcTtl);
      ClearOwned(cfg.hash, w.loose, w.st, now, cfg.gcTtl);
      CleanedPinned(w.pins, ClearFrom(w.st, 1, now), now, cfg.gcTtl);
      CollectOwned(cfg.hash, w.loose, ClearFrom(w.st, 1, now), now, cfg.gcTtl);
    } else if w1.st == ClearFrom(cleaned, 1, now) {
      ClearedPinned(w.pins, cleaned, now, cfg.gcTtl);
      ClearOwned(cfg.hash, w.loose, cleaned, now, cfg.gcTtl);
    } else {
      var st2 :| Relocated(cleaned, st2, w.loose) && ClearedOrRoom(st2, w1.st, room, now);
      RelocatedOwned(cfg.hash, cleaned, st2, w.loose, w.pins, now, cfg.gcTtl);
      ClearedPinned(w.pins, st2, now, cfg.gcTtl);
      ClearOwned(cfg.hash, w.loose, st2, now, cfg.gcTtl);
    }
    PinnedInv(cfg, w1, now);
  }

  lemma InvLoose(cfg: Config, w: World)
    requires Inv(cfg, w)
    ensures LooseOnce(w.pins, w.loose)
  {
  }

  lemma CleanedShape(st: State, cacheTtl: int, gcTtl: int, t: int, now: int)
    requires |st.chains| > 1
    ensures |Cleaned(st, cacheTtl, gcTtl, t, now).chains| == |st.chains|
  {
    hide ExpireFrom, Collect;
  }

  lemma RelocatedOwned(hash: Hash, st: State, st1: State, loose: set<nat>, pins: map<nat, Pin>, now: int, gcTtl: nat)
    requires Relocated(st, st1, loose) && InOrder(st, hash, loose) && HeldSafe(st, pins, now, gcTtl)
    ensures InOrder(st1, hash, loose) && HeldSafe(st1, pins, now, gcTtl)
  {
    hide Placed, Separate, HeldSafe, OwnedBy;
    RelocatedSound(st, st1, hash, loose);
    RelocatedPinned(st, st1, loose, pins, now, gcTtl);
    forall f: nat | !Unlisted(st1.chains, f)
      ensures f in st1.items
    {
      var k, i := CacheMove.Position(st1.chains, f);
      assert SameItem(st, st.chains[k][i], st1, st1.chains[k][i]);
    }
  }

  lemma ClearingStep(cfg: Config, w: World, now: int, w1: World)
    requires Inv(cfg, w) && Next(cfg, w, Clear(now), w1)
    ensures Inv(cfg, w1)
  {
    hide Inv, HeldSafe, InOrder, LooseOnce, ClearFrom, Collect;
    InvPinned(cfg, w, now);
    InvLoose(cfg, w);
    ClearedPinned(w.pins, w.st, now, cfg.gcTtl);
    ClearOwned(cfg.hash, w.loose, w.st, now, cfg.gcTtl);
    CleanedPinned(w.pins, ClearFrom(w.st, 1, now), now, cfg.gcTtl);
    CollectOwned(cfg.hash, w.loose, ClearFrom(w.st, 1, now), now, cfg.gcTtl);
    PinnedInv(cfg, w1, now);
  }

  lemma ChainedPinned(st: State, pins: map<nat, Pin>, k: nat, i: nat, e: nat, now: int, gcTtl: nat)
    requires HeldSafe(st, pins, now, gcTtl) && 0 < k < |st.chains| && i <= |st.chains[k]|
    ensures HeldSafe(Placing(st, k, i, e), pins, now, gcTtl)
  {
    hide Words, Field, Held;
    var st1 := Placing(st, k, i, e);
    forall t | t in pins
      ensures PinSafe(st1, pins[t])
    {
      assert PinSafe(st, pins[t]);
    }
    forall g | g in st1.items
      ensures RefsRight(st1, pins, g)
    {
      assert RefsRight(st, pins, g);
    }
  }

  /** Putting a new entry where the walk stopped. */
  lemma SettledKeeps(cfg: Config, walked: State, loose: set<nat>, pins: map<nat, Pin>, k: nat, i: nat, e: nat,
                     exclusive: bool, t: int, now: int)
    requires InOrder(walked, cfg.hash, loose) && HeldSafe(walked, pins, now, cfg.gcTtl) && e in loose
    requires 0 < k < |walked.chains| && i <= |walked.chains[k]|
    ensures var (st1, ok) := InsertAt(walked, k, i, e, exclusive, t, now);
            HeldSafe(st1, pins, now, cfg.gcTtl) && OwnedBy(st1, if ok then loose - {e} else loose) && AllIn(st1)
  {
    hide Placed, Separate, HeldSafe, OwnedBy, AllIn, CacheModel.Remove, HardExpired, Inserted;
    LooseThere(walked, loose, e);
    SettleFacts(walked, 0, k, i, e, exclusive, t, now);
    if i == |walked.chains[k]| {
      ChainedPinned(walked, pins, k, i, e, now, cfg.gcTtl);
      InsertOwned(walked, loose, k, i, e);
      InsertAllIn(walked, k, i, e);
    } else {
      var st1 := CacheModel.Remove(walked, k, i, now);
      RemoveKeepsPinned(walked, pins, k, i, now, cfg.gcTtl);
      RemoveOwned(walked, loose, k, i, now);
      RemoveAllIn(walked, k, i, now);
      LooseThere(st1, loose, e);
      ChainedPinned(st1, pins, k, i, e, now, cfg.gcTtl);
      InsertOwned(st1, loose, k, i, e);
      InsertAllIn(st1, k, i, e);
    }
  }

  lemma LooseThere(st: State, loose: set<nat>, e: nat)
    requires OwnedBy(st, loose) && e in loose
    ensures e in st.items && Unlisted(st.chains, e)
  {
    hide Unlisted, Field;
    assert LooseIn(st, e);
  }

  lemma StoreStep(cfg: Config, w: World, t: nat, exclusive: bool, now: int, w1: World)
    requires Inv(cfg, w) && Next(cfg, w, Store(t, exclusive, now), w1)
    ensures Inv(cfg, w1)
  {
    hide Inv, HeldSafe, Placed, Separate, AllIn, OwnedBy, LooseOnce, Walk, Collect, InsertAt, ItemOk, KeyIn, ItemAt,
         Unlisted;
    var e := w.pins[t].e;
    InvPinned(cfg, w, now);
    InvLoose(cfg, w);
    LooseThere(w.st, w.loose, e);
    InsertRefines(w.st, cfg.hash, e, exclusive, cfg.cacheTtl, cfg.gcTtl, now);
    var c := ItemAt(w.st, e);
    var k, at, key := SlotOf(w.st, cfg.hash, KeyIn(c)), Field(c, CTIME), KeyIn(c);
    CleanedPinned(w.pins, w.st, now, cfg.gcTtl);
    CollectOwned(cfg.hash, w.loose, w.st, now, cfg.gcTtl);
    var st0 := Collect(w.st, 0, now, cfg.gcTtl);
    WalkedPinned(w.pins, st0, k, key, cfg.cacheTtl, at, now, cfg.gcTtl);
    WalkOwned(cfg.hash, w.loose, st0, k, key, cfg.cacheTtl, at, now, cfg.gcTtl);
    var (walked, i) := Walk(st0, k, 0, key, cfg.cacheTtl, at, now);
    SettledKeeps(cfg, walked, w.loose, w.pins, k, i, e, exclusive, at, now);
    FewerLoose(w.pins, w.loose, e);
    PinnedInv(cfg, w1, now);
  }

  lemma FewerLoose(pins: map<nat, Pin>, loose: set<nat>, e: nat)
    requires LooseOnce(pins, loose)
    ensures LooseOnce(pins, loose - {e})
  {
  }

  /** Every step of every process keeps the invariant. */
  lemma NextInv(cfg: Config, w: World, a: Action, w1: World)
    requires Inv(cfg, w) && Next(cfg, w, a, w1)
    ensures Inv(cfg, w1)
  {
    hide Inv, Next;
    match a
    case Create(e, c, t) => CreateStep(cfg, w, e, c, t, w1);
    case Write(t, f, x) => WriteStep(cfg, w, t, f, x, w1);
    case Store(t, exclusive, now) => StoreStep(cfg, w, t, exclusive, now, w1);
    case Discard(t) => DiscardStep(cfg, w, t, w1);
    case FindPin(key, at, t) => FindStep(cfg, w, key, at, t, w1);
    case VisitPin(k, i, t) => VisitStep(cfg, w, k, i, t, w1);
    case Unpin(t) => UnpinStep(cfg, w, t, w1);
    case Update(key, at, bits, kind) => UpdateStep(cfg, w, key, at, bits, kind, w1);
    case Remove(key, now) => RemoveStep(cfg, w, key, now, w1);
    case Expunge(huge, room, at, now) => ExpungeStep(cfg, w, huge, room, at, now, w1);
    case Clear(now) => ClearingStep(cfg, w, now, w1);
  }

  lemma VisitStep(cfg: Config, w: World, k: nat, i: nat, t: nat, w1: World)
    requires Inv(cfg, w) && Next(cfg, w, VisitPin(k, i, t), w1)
    ensures Inv(cfg, w1)
  {
    hide Sound, PinsSafe, AllRefsRight, LooseOnce, Sized, OwnedBy, AllIn, Refer;
    InSlot(w, k, i);
    ReferStep(cfg, w, w.st.chains[k][i], t);
  }

  // ----- Runs -----

  /** A run: worlds and the actions between them. */
  ghost predicate IsRun(cfg: Config, nslots: nat, ws: seq<World>, acts: seq<Action>) {
    && |ws| == |acts| + 1 && Init(ws[0], nslots)
    && forall n {:trigger acts[n]} | 0 <= n < |acts| :: Next(cfg, ws[n], acts[n], ws[n + 1])
  }

  lemma {:induction false} RunInv(cfg: Config, nslots: nat, ws: seq<World>, acts: seq<Action>, n: nat)
    requires IsRun(cfg, nslots, ws, acts) && n < |ws|
    ensures Inv(cfg, ws[n])
  {
    hide Inv, Next;
    if n == 0 {
      InitInv(cfg, ws[0], nslots);
    } else {
      RunInv(cfg, nslots, ws, acts, n - 1);
      assert Next(cfg, ws[n - 1], acts[n - 1], ws[n]);
      NextInv(cfg, ws[n - 1], acts[n - 1], ws[n]);
    }
  }

  /** Ownership in every reachable state: each entry in memory is in exactly one place of one
      list, or in none and referred to exactly once, by who is making it. */
  lemma OwnershipSafe(cfg: Config, nslots: nat, ws: seq<World>, acts: seq<Action>, n: nat, e: nat)
    requires IsRun(cfg, nslots, ws, acts) && n < |ws| && e in ws[n].st.items
    ensures Separate(ws[n].st.chains)
    ensures if e in ws[n].loose then Unlisted(ws[n].st.chains, e) && Field(ItemAt(ws[n].st, e), REFS) == 1
            else !Unlisted(ws[n].st.chains, e)
  {
    hide IsRun, Placed, Separate, Unlisted, Field, PinsSafe, Held;
    RunInv(cfg, nslots, ws, acts, n);
    assert OwnedIn(ws[n].st, ws[n].loose, e) && RefsRight(ws[n].st, ws[n].pins, e);
    if e in ws[n].loose {
      assert LooseIn(ws[n].st, e) && |Held(ws[n].pins, e)| == 1;
    } else {
      assert OwnedIn(ws[n].st, ws[n].loose, e);
    }
  }

  /** The reference `t` is held all the time from `i` to `j`, and its entry is not filled in
      further meanwhile. */
  ghost predicate HeldThrough(ws: seq<World>, acts: seq<Action>, i: nat, j: nat, t: nat) {
    && i <= j < |ws| && |ws| == |acts| + 1
    && (forall n | i <= n <= j :: t in ws[n].pins)
    && (forall n | i <= n < j :: !(acts[n].Write? && acts[n].t == t))
  }

  lemma SamePin(cfg: Config, w: World, a: Action, w1: World, t: nat)
    requires Next(cfg, w, a, w1) && t in w.pins && t in w1.pins && !(a.Write? && a.t == t)
    ensures w1.pins[t] == w.pins[t]
  {
    hide Expunged, Insert, Delete, Find, ClearFrom, Collect, ItemOk, Field, Words, WithMeta, Accessed;
  }

  lemma {:induction false} SamePinThrough(cfg: Config, nslots: nat, ws: seq<World>, acts: seq<Action>, i: nat, j: nat,
                                          t: nat)
    requires IsRun(cfg, nslots, ws, acts) && HeldThrough(ws, acts, i, j, t)
    ensures ws[j].pins[t] == ws[i].pins[t]
    decreases j
  {
    hide Next;
    if i < j {
      SamePinThrough(cfg, nslots, ws, acts, i, j - 1, t);
      assert Next(cfg, ws[j - 1], acts[j - 1], ws[j]);
      SamePin(cfg, ws[j - 1], acts[j - 1], ws[j], t);
    }
  }

  /** Pin safety: as long as the reference is held, its entry is where it was, with the same
      size and key, and with the same value unless that is a number or the like, whatever the
      other processes update, delete, replace, expunge, collect or defragment meanwhile. */
  lemma PinSafety(cfg: Config, nslots: nat, ws: seq<World>, acts: seq<Action>, i: nat, j: nat, t: nat)
    requires IsRun(cfg, nslots, ws, acts) && HeldThrough(ws, acts, i, j, t)
    ensures var e := ws[i].pins[t].e;
            && ws[j].pins[t].e == e && e in ws[i].st.items && e in ws[j].st.items
            && Words(ws[j].st.items[e]) == Words(ws[i].st.items[e])
            && Field(ws[j].st.items[e], REFS) > 0
  {
    hide IsRun, Words, Field, Held;
    RunInv(cfg, nslots, ws, acts, i);
    RunInv(cfg, nslots, ws, acts, j);
    SamePinThrough(cfg, nslots, ws, acts, i, j, t);
    assert PinSafe(ws[i].st, ws[i].pins[t]) && PinSafe(ws[j].st, ws[j].pins[t]);
    HeldSome(ws[j].pins, t);
    assert RefsRight(ws[j].st, ws[j].pins, ws[j].pins[t].e);
  }
}
