/** The cache as a state machine over its lists: expiry, removal, garbage collection,
    insertion, lookup and deletion. */
module CacheModel {
  import opened HeapModel
  import opened CacheLists
  import opened Packing

  // ----- Entries -----

  /** All words of an entry but its links. */
  type Item = seq<int>

  ghost function Field(c: Item, f: nat): int {
    if TTL <= f < TTL + |c| then c[f - TTL] else 0
  }

  /** A string of `n` bytes fits behind the metadata, with the zero byte at its end. */
  ghost predicate KeyFits(c: Item, n: int) {
    0 <= n && KEY - TTL + n / 8 + 1 <= |c|
  }

  ghost function KeyIn(c: Item): seq<int> {
    var n := Field(c, KEYLEN);
    if KeyFits(c, n) then Unpack(c[KEY - TTL..], n) else []
  }

  type Hash = seq<int> -> nat

  /** The stored hash and key length are right, and the entry has a size. */
  ghost predicate ItemOk(hash: Hash, c: Item) {
    && KeyFits(c, Field(c, KEYLEN))
    && Field(c, HASH) == hash(KeyIn(c)) && Field(c, MEMSIZE) > 0
  }

  /** Older than its own TTL: to be treated like a missing entry. */
  ghost predicate HardExpired(c: Item, t: int) {
    Field(c, TTL) != 0 && Field(c, CTIME) + Field(c, TTL) < t
  }

  /** Not used for longer than the TTL of the cache: may be removed at any time. */
  ghost predicate SoftExpired(c: Item, cacheTtl: int, t: int) {
    Field(c, TTL) == 0 && cacheTtl != 0 && Field(c, ATIME) + cacheTtl < t
  }

  ghost predicate Expired(c: Item, cacheTtl: int, t: int) {
    HardExpired(c, t) || SoftExpired(c, cacheTtl, t)
  }

  // ----- States -----

  /** The entries in shared memory by address, and the lists they are in. */
  datatype State = State(items: map<nat, Item>, chains: Chains)

  ghost function ItemAt(st: State, e: nat): Item {
    if e in st.items then st.items[e] else []
  }

  ghost function Slots(st: State): nat
  {
    if |st.chains| > 1 then |st.chains| - 1 else 1
  }

  /** The list of a key. */
  ghost function SlotOf(st: State, hash: Hash, key: seq<int>): nat {
    1 + hash(key) % Slots(st)
  }

  ghost predicate InPlace(st: State, hash: Hash, k: nat, e: nat) {
    e in st.items && ItemOk(hash, st.items[e]) && SlotOf(st, hash, KeyIn(st.items[e])) == k
  }

  /** Every entry is in the slot of its key, and no key occurs twice. */
  ghost predicate Placed(st: State, hash: Hash) {
    && |st.chains| > 1
    && (forall k, i | 1 <= k < |st.chains| && 0 <= i < |st.chains[k]| :: InPlace(st, hash, k, st.chains[k][i]))
    && (forall k, i, j | 1 <= k < |st.chains| && 0 <= i < j < |st.chains[k]| ::
          KeyIn(ItemAt(st, st.chains[k][i])) != KeyIn(ItemAt(st, st.chains[k][j])))
  }

  // ----- Removal -----

  ghost predicate At(st: State, k: nat, i: nat) {
    k < |st.chains| && i < |st.chains[k]|
  }

  /** Takes an entry out of its slot: freed if nobody refers to it, else kept for later in
      the list of removed entries. */
  ghost function Remove(st: State, k: nat, i: nat, now: int): State
    requires At(st, k, i)
  {
    var e, chains := st.chains[k][i], Removed(st.chains, k, i);
    if Field(ItemAt(st, e), REFS) <= 0 then State(st.items - {e}, chains)
    else State(st.items[e := WithDtime(ItemAt(st, e), now)], Inserted(chains, 0, 0, e))
  }

  ghost function WithDtime(c: Item, now: int): Item {
    if DTIME - TTL < |c| then c[DTIME - TTL := now] else c
  }

  // ----- Garbage collection of removed entries -----

  ghost predicate StaysInGc(c: Item, now: int, gcTtl: int) {
    Field(c, REFS) > 0 && (gcTtl == 0 || now - Field(c, DTIME) <= gcTtl)
  }

  /** The list of removed entries from position `i` on is cleaned up. */
  ghost function Collect(st: State, i: nat, now: int, gcTtl: int): (r: State)
    requires |st.chains| > 0
    ensures |r.chains| == |st.chains| && forall k | 0 < k < |st.chains| :: r.chains[k] == st.chains[k]
    decreases |st.chains[0]| - i
  {
    if i >= |st.chains[0]| then st
    else if StaysInGc(ItemAt(st, st.chains[0][i]), now, gcTtl) then Collect(st, i + 1, now, gcTtl)
    else Collect(Drop(st, 0, i), i, now, gcTtl)
  }

  /** Takes an entry out of its list and frees it. */
  ghost function Drop(st: State, k: nat, i: nat): State
    requires At(st, k, i)
  {
    State(st.items - {st.chains[k][i]}, Removed(st.chains, k, i))
  }

  // ----- Insertion -----

  /** Walks list `k` from position `i` to the entry with the key or to the end and removes
      the expired entries on the way; returns where it stopped. */
  ghost function Walk(st: State, k: nat, i: nat, key: seq<int>, cacheTtl: int, t: int, now: int): (r: (State, nat))
    requires 0 < k < |st.chains| && i <= |st.chains[k]|
    ensures |r.0.chains| == |st.chains| && r.1 <= |r.0.chains[k]|
    decreases |st.chains[k]| - i
  {
    if i == |st.chains[k]| then (st, i)
    else
      var c := ItemAt(st, st.chains[k][i]);
      if KeyIn(c) == key then (st, i)
      else if Expired(c, cacheTtl, t) then Walk(Remove(st, k, i, now), k, i, key, cacheTtl, t, now)
      else Walk(st, k, i + 1, key, cacheTtl, t, now)
  }

  /** Puts `e` at position `i` of list `k`, where the walk stopped. */
  ghost function InsertAt(walked: State, k: nat, i: nat, e: nat, exclusive: bool, t: int, now: int): (State, bool)
    requires 0 < k < |walked.chains| && i <= |walked.chains[k]|
  {
    if i == |walked.chains[k]| then (walked.(chains := Inserted(walked.chains, k, i, e)), true)
    else if exclusive && !HardExpired(ItemAt(walked, walked.chains[k][i]), t) then (walked, false)
    else
      var removed := Remove(walked, k, i, now);
      (removed.(chains := Inserted(removed.chains, k, i, e)), true)
  }

  /** Puts the entry `e` into the slot of its key; an existing entry with that key makes way,
      unless the insertion is exclusive and that entry is not hard expired. */
  ghost function Insert(st: State, hash: Hash, e: nat, exclusive: bool, cacheTtl: int, gcTtl: int,
                        now: int): (State, bool)
    requires |st.chains| > 1
  {
    var c := ItemAt(st, e);
    var t, k := Field(c, CTIME), SlotOf(st, hash, KeyIn(c));
    var (walked, i) := Walk(Collect(st, 0, now, gcTtl), k, 0, KeyIn(c), cacheTtl, t, now);
    InsertAt(walked, k, i, e, exclusive, t, now)
  }

  // ----- Lookup and deletion -----

  /** The first position from `i` on that holds the key, or the length of the list. */
  ghost function Search(st: State, k: nat, i: nat, key: seq<int>): (r: nat)
    requires k < |st.chains| && i <= |st.chains[k]|
    ensures i <= r <= |st.chains[k]|
    ensures r < |st.chains[k]| ==> KeyIn(ItemAt(st, st.chains[k][r])) == key
    ensures forall j | i <= j < r :: KeyIn(ItemAt(st, st.chains[k][j])) != key
    decreases |st.chains[k]| - i
  {
    if i == |st.chains[k]| || KeyIn(ItemAt(st, st.chains[k][i])) == key then i else Search(st, k, i + 1, key)
  }

  ghost function Find(st: State, hash: Hash, key: seq<int>, t: int): Option<nat>
    requires |st.chains| > 1
  {
    var k := SlotOf(st, hash, key);
    var i := Search(st, k, 0, key);
    if i == |st.chains[k]| || HardExpired(ItemAt(st, st.chains[k][i]), t) then None else Some(st.chains[k][i])
  }

  ghost function Delete(st: State, hash: Hash, key: seq<int>, now: int): (State, bool)
    requires |st.chains| > 1
  {
    var k := SlotOf(st, hash, key);
    var i := Search(st, k, 0, key);
    if i == |st.chains[k]| then (st, false) else (Remove(st, k, i, now), true)
  }

  // ----- Emptying slots -----

  /** Removes the expired entries of list `k` from position `i` on. */
  ghost function ExpireList(st: State, k: nat, i: nat, cacheTtl: int, t: int, now: int): (r: State)
    requires 0 < k < |st.chains| && i <= |st.chains[k]|
    ensures |r.chains| == |st.chains|
    decreases |st.chains[k]| - i
  {
    if i == |st.chains[k]| then st
    else if Expired(ItemAt(st, st.chains[k][i]), cacheTtl, t)
      then ExpireList(Remove(st, k, i, now), k, i, cacheTtl, t, now)
    else ExpireList(st, k, i + 1, cacheTtl, t, now)
  }

  ghost function ExpireFrom(st: State, k: nat, cacheTtl: int, t: int, now: int): (r: State)
    requires 0 < k <= |st.chains|
    ensures |r.chains| == |st.chains|
    decreases |st.chains| - k
  {
    if k == |st.chains| then st else ExpireFrom(ExpireList(st, k, 0, cacheTtl, t, now), k + 1, cacheTtl, t, now)
  }

  ghost function ClearList(st: State, k: nat, now: int): (r: State)
    requires 0 < k < |st.chains|
    ensures |r.chains| == |st.chains|
    decreases |st.chains[k]|
  {
    if st.chains[k] == [] then st else ClearList(Remove(st, k, 0, now), k, now)
  }

  ghost function ClearFrom(st: State, k: nat, now: int): (r: State)
    requires 0 < k <= |st.chains|
    ensures |r.chains| == |st.chains|
    decreases |st.chains| - k
  {
    if k == |st.chains| then st else ClearFrom(ClearList(st, k, now), k + 1, now)
  }

  // ----- The cache as a map -----

  /** The slot of `key` holds the entry `e` under this key. */
  ghost predicate Binds(st: State, hash: Hash, key: seq<int>, e: nat) {
    |st.chains| > 1 && e in st.chains[SlotOf(st, hash, key)] && KeyIn(ItemAt(st, e)) == key
  }

  /** The states bind the same keys to the same entries, apart from those in `gone`. */
  ghost predicate BindsAllBut(st: State, st1: State, hash: Hash, gone: set<nat>) {
    forall key, e {:trigger Binds(st1, hash, key, e)} ::
      && (Binds(st1, hash, key, e) ==> Binds(st, hash, key, e) && ItemAt(st1, e) == ItemAt(st, e))
      && (Binds(st1, hash, key, e) <==> Binds(st, hash, key, e) && e !in gone)
  }

  /** The slots alone decide whether entries are in place. */
  ghost predicate SameSlots(st: State, st1: State) {
    && |st1.chains| == |st.chains|
    && (forall k | 0 < k < |st.chains| :: st1.chains[k] == st.chains[k])
    && (forall k, i | 0 < k < |st.chains| && 0 <= i < |st.chains[k]| ::
          st.chains[k][i] in st.items ==>
            st.chains[k][i] in st1.items && st1.items[st.chains[k][i]] == st.items[st.chains[k][i]])
  }

  lemma SameSlotsPlaced(st: State, st1: State, hash: Hash)
    requires Placed(st, hash) && SameSlots(st, st1)
    ensures Placed(st1, hash)
  {
    forall k, i | 1 <= k < |st1.chains| && 0 <= i < |st1.chains[k]|
      ensures InPlace(st1, hash, k, st1.chains[k][i])
    {
      assert InPlace(st, hash, k, st.chains[k][i]);
    }
    forall k, i, j | 1 <= k < |st1.chains| && 0 <= i < j < |st1.chains[k]|
      ensures KeyIn(ItemAt(st1, st1.chains[k][i])) != KeyIn(ItemAt(st1, st1.chains[k][j]))
    {
      assert InPlace(st, hash, k, st.chains[k][i]) && InPlace(st, hash, k, st.chains[k][j]);
    }
  }

  lemma RemovedPlaced(st: State, hash: Hash, k: nat, i: nat)
    requires Placed(st, hash) && At(st, k, i) && k > 0
    ensures Placed(st.(chains := Removed(st.chains, k, i)), hash)
  {
    hide KeyIn, ItemOk;
    var es, st1 := st.chains[k], st.(chains := Removed(st.chains, k, i));
    var es1 := st1.chains[k];
    assert forall j | 0 <= j < |es1| :: es1[j] == es[if j < i then j else j + 1];
    forall l, j | 1 <= l < |st1.chains| && 0 <= j < |st1.chains[l]|
      ensures InPlace(st1, hash, l, st1.chains[l][j])
    {
      assert InPlace(st, hash, l, st.chains[l][if l != k || j < i then j else j + 1]);
    }
  }

  /** Removing splits into leaving the slot and changes that no slot sees. */
  lemma RemoveSlots(st: State, k: nat, i: nat, now: int)
    requires Separate(st.chains) && At(st, k, i) && k > 0
    ensures SameSlots(st.(chains := Removed(st.chains, k, i)), Remove(st, k, i, now))
    ensures Separate(Remove(st, k, i, now).chains)
  {
    var e, chains := st.chains[k][i], Removed(st.chains, k, i);
    RemovedSeparate(st.chains, k, i);
    if Field(ItemAt(st, e), REFS) > 0 {
      InsertedSeparate(chains, 0, 0, e);
    }
    hide Separate, Removed;
    assert forall l, j | 0 < l < |chains| && 0 <= j < |chains[l]| :: chains[l][j] != e;
  }

  lemma RemovePlaced(st: State, hash: Hash, k: nat, i: nat, now: int)
    requires Placed(st, hash) && Separate(st.chains) && At(st, k, i) && k > 0
    ensures Placed(Remove(st, k, i, now), hash) && Separate(Remove(st, k, i, now).chains)
  {
    hide Placed, Separate, SameSlots;
    RemovedPlaced(st, hash, k, i);
    RemoveSlots(st, k, i, now);
    SameSlotsPlaced(st.(chains := Removed(st.chains, k, i)), Remove(st, k, i, now), hash);
  }

  lemma RemoveBinds(st: State, hash: Hash, k: nat, i: nat, now: int)
    requires Placed(st, hash) && Separate(st.chains) && At(st, k, i) && k > 0
    ensures BindsAllBut(st, Remove(st, k, i, now), hash, {st.chains[k][i]})
  {
    hide Placed, KeyIn;
    var e0, es, st1 := st.chains[k][i], st.chains[k], Remove(st, k, i, now);
    RemoveSlots(st, k, i, now);
    RemovedSeparate(st.chains, k, i);
    forall key, e
      ensures Binds(st1, hash, key, e) ==> Binds(st, hash, key, e) && ItemAt(st1, e) == ItemAt(st, e)
      ensures Binds(st1, hash, key, e) <==> Binds(st, hash, key, e) && e !in {e0}
    {
      var s := SlotOf(st, hash, key);
      RemovedMembers(st.chains, k, i, s, e);
      if e != e0 {
        assert ItemAt(st1, e) == ItemAt(st, e);
      }
    }
  }

  lemma RemovedMembers(chains: Chains, k: nat, i: nat, s: nat, e: nat)
    requires Separate(chains) && k < |chains| && i < |chains[k]| && s < |chains|
    ensures e in Removed(chains, k, i)[s] <==> e in chains[s] && e != chains[k][i]
  {
    var es, es1 := chains[k], Removed(chains, k, i)[k];
    if s == k && e in es && e != es[i] {
      var j :| 0 <= j < |es| && es[j] == e;
      assert es1[if j < i then j else j - 1] == e;
    }
    assert forall j | 0 <= j < |es1| :: es1[j] == es[if j < i then j else j + 1];
    if e == chains[k][i] {
      RemovedSeparate(chains, k, i);
    }
  }

  ghost predicate Sound(st: State, hash: Hash) {
    Placed(st, hash) && Separate(st.chains)
  }

  /** Compared with `st`, only expired entries under other keys than `key` are no longer bound. */
  ghost predicate OnlyExpiredGone(st: State, st1: State, hash: Hash, key: seq<int>, cacheTtl: int, t: int) {
    forall key', e {:trigger Binds(st, hash, key', e)} {:trigger Binds(st1, hash, key', e)} ::
      && (Binds(st1, hash, key', e) ==> Binds(st, hash, key', e) && ItemAt(st1, e) == ItemAt(st, e))
      && (Binds(st, hash, key', e) && !Binds(st1, hash, key', e) ==> Expired(ItemAt(st, e), cacheTtl, t) && key' != key)
  }

  lemma BindsAt(st: State, hash: Hash, k: nat, i: nat)
    requires Placed(st, hash) && At(st, k, i) && k > 0
    ensures Binds(st, hash, KeyIn(ItemAt(st, st.chains[k][i])), st.chains[k][i])
    ensures SlotOf(st, hash, KeyIn(ItemAt(st, st.chains[k][i]))) == k
  {
    assert InPlace(st, hash, k, st.chains[k][i]);
  }

  lemma {:induction false} WalkSound(st: State, hash: Hash, k: nat, i: nat, key: seq<int>, cacheTtl: int, t: int,
                                     now: int)
    requires Sound(st, hash) && 0 < k < |st.chains| && i <= |st.chains[k]|
    requires forall j | 0 <= j < i :: KeyIn(ItemAt(st, st.chains[k][j])) != key
    ensures var (st1, i1) := Walk(st, k, i, key, cacheTtl, t, now);
            && Sound(st1, hash) && OnlyExpiredGone(st, st1, hash, key, cacheTtl, t)
            && (forall j | 0 <= j < i1 :: KeyIn(ItemAt(st1, st1.chains[k][j])) != key)
            && (i1 < |st1.chains[k]| ==> KeyIn(ItemAt(st1, st1.chains[k][i1])) == key)
    decreases |st.chains[k]| - i
  {
    hide Placed, Separate, Remove, KeyIn, Expired, Binds;
    if i < |st.chains[k]| && KeyIn(ItemAt(st, st.chains[k][i])) != key {
      var c := ItemAt(st, st.chains[k][i]);
      if Expired(c, cacheTtl, t) {
        var st1 := Remove(st, k, i, now);
        RemovePlaced(st, hash, k, i, now);
        RemoveBinds(st, hash, k, i, now);
        BindsAt(st, hash, k, i);
        RemoveKeeps(st, k, i, now);
        assert OnlyExpiredGone(st, st1, hash, key, cacheTtl, t) by {
          BindsKey(st, hash);
        }
        WalkSound(st1, hash, k, i, key, cacheTtl, t, now);
        hide BindsAllBut;
      } else {
        WalkSound(st, hash, k, i + 1, key, cacheTtl, t, now);
      }
    }
  }

  lemma BindsKey(st: State, hash: Hash)
    ensures forall key, e :: Binds(st, hash, key, e) ==> KeyIn(ItemAt(st, e)) == key
  {
  }

  lemma RemoveKeeps(st: State, k: nat, i: nat, now: int)
    requires At(st, k, i) && k > 0 && Separate(st.chains)
    ensures var st1 := Remove(st, k, i, now);
            && |st1.chains| == |st.chains| && |st1.chains[k]| == |st.chains[k]| - 1
            && (forall j | 0 <= j < i ::
                st1.chains[k][j] == st.chains[k][j] && ItemAt(st1, st1.chains[k][j]) == ItemAt(st, st.chains[k][j]))
            && (forall l | 0 < l < |st.chains| && l != k :: st1.chains[l] == st.chains[l])
  {
    assert forall j | 0 <= j < i :: st.chains[k][j] != st.chains[k][i];
  }

  // ----- Garbage collection touches no slot -----

  lemma DropSlots(st: State, i: nat)
    requires Separate(st.chains) && At(st, 0, i)
    ensures SameSlots(st, Drop(st, 0, i)) && Separate(Drop(st, 0, i).chains)
  {
    RemovedSeparate(st.chains, 0, i);
  }

  lemma SameSlotsTrans(a: State, b: State, c: State)
    requires SameSlots(a, b) && SameSlots(b, c)
    ensures SameSlots(a, c)
  {
  }

  lemma {:induction false} CollectSlots(st: State, i: nat, now: int, gcTtl: int)
    requires Separate(st.chains) && |st.chains| > 0
    ensures SameSlots(st, Collect(st, i, now, gcTtl)) && Separate(Collect(st, i, now, gcTtl).chains)
    decreases |st.chains[0]| - i
  {
    hide Separate, SameSlots, StaysInGc, Drop;
    if i < |st.chains[0]| {
      if StaysInGc(ItemAt(st, st.chains[0][i]), now, gcTtl) {
        CollectSlots(st, i + 1, now, gcTtl);
      } else {
        DropSlots(st, i);
        DropShorter(st, i);
        CollectSlots(Drop(st, 0, i), i, now, gcTtl);
        SameSlotsTrans(st, Drop(st, 0, i), Collect(Drop(st, 0, i), i, now, gcTtl));
      }
    } else {
      SameSlotsSelf(st);
    }
  }

  lemma DropShorter(st: State, i: nat)
    requires At(st, 0, i)
    ensures |Drop(st, 0, i).chains| == |st.chains| && |Drop(st, 0, i).chains[0]| == |st.chains[0]| - 1
  {
  }

  lemma SameSlotsSelf(st: State)
    ensures SameSlots(st, st)
  {
  }

  lemma SameSlotsBinds(st: State, st1: State, hash: Hash)
    requires Placed(st, hash) && SameSlots(st, st1)
    ensures BindsAllBut(st, st1, hash, {})
  {
    hide KeyIn, ItemOk;
    forall key, e
      ensures Binds(st1, hash, key, e) ==> Binds(st, hash, key, e) && ItemAt(st1, e) == ItemAt(st, e)
      ensures Binds(st1, hash, key, e) <==> Binds(st, hash, key, e)
    {
      var s := SlotOf(st, hash, key);
      assert s == SlotOf(st1, hash, key) && 0 < s < |st.chains|;
      if e in st.chains[s] {
        var j :| 0 <= j < |st.chains[s]| && st.chains[s][j] == e;
        assert InPlace(st, hash, s, st.chains[s][j]);
      }
    }
  }

  lemma CollectSound(st: State, hash: Hash, now: int, gcTtl: int)
    requires Sound(st, hash)
    ensures var st1 := Collect(st, 0, now, gcTtl); Sound(st1, hash) && BindsAllBut(st, st1, hash, {})
  {
    hide Placed, Separate, SameSlots, Collect, BindsAllBut;
    SizedPlaced(st, hash);
    CollectSlots(st, 0, now, gcTtl);
    SameSlotsPlaced(st, Collect(st, 0, now, gcTtl), hash);
    SameSlotsBinds(st, Collect(st, 0, now, gcTtl), hash);
  }

  lemma SizedPlaced(st: State, hash: Hash)
    requires Placed(st, hash)
    ensures |st.chains| > 1
  {
  }

  /** The entry is in the list of removed entries, from position `i` on. */
  ghost predicate RemovedFrom(st: State, i: nat, e: nat) {
    |st.chains| > 0 && exists j :: i <= j < |st.chains[0]| && st.chains[0][j] == e
  }

  lemma DropFrom(st: State, i: nat, e: nat)
    requires Separate(st.chains) && At(st, 0, i)
    ensures RemovedFrom(Drop(st, 0, i), i, e) <==> RemovedFrom(st, i, e) && e != st.chains[0][i]
  {
    var es, es1 := st.chains[0], Drop(st, 0, i).chains[0];
    assert forall j | 0 <= j < |es1| :: es1[j] == es[if j < i then j else j + 1];
    if RemovedFrom(st, i, e) && e != es[i] {
      var j :| i <= j < |es| && es[j] == e;
      assert es1[j - 1] == e;
    }
  }

  lemma StepFrom(st: State, i: nat, e: nat)
    requires At(st, 0, i)
    ensures RemovedFrom(st, i, e) <==> e == st.chains[0][i] || RemovedFrom(st, i + 1, e)
  {
  }

  /** Garbage collection frees exactly the removed entries that need not stay, and the rest
      of the memory is left alone. */
  /** A removed entry that somebody refers to is kept, for ever or for the given time; one that
      nobody refers to is not. */
  lemma RemovedKept(st: State, now: int, gcTtl: int, j: nat)
    requires Separate(st.chains) && |st.chains| > 0 && j < |st.chains[0]| && st.chains[0][j] in st.items
    ensures var e, c := st.chains[0][j], st.items[st.chains[0][j]];
            e in Collect(st, 0, now, gcTtl).items <==>
              Field(c, REFS) > 0 && (gcTtl == 0 || now <= Field(c, DTIME) + gcTtl)
  {
    hide Separate, Collect;
    CollectExact(st, 0, now, gcTtl, st.chains[0][j]);
  }

  lemma {:induction false} CollectExact(st: State, i: nat, now: int, gcTtl: int, e: nat)
    requires Separate(st.chains) && |st.chains| > 0
    ensures var st1 := Collect(st, i, now, gcTtl);
            && (e in st1.items <==> e in st.items && !(RemovedFrom(st, i, e) && !StaysInGc(ItemAt(st, e), now, gcTtl)))
            && (e in st1.items ==> st1.items[e] == st.items[e])
    decreases |st.chains[0]| - i
  {
    hide Separate, StaysInGc, Drop, RemovedFrom;
    if i < |st.chains[0]| {
      StepFrom(st, i, e);
      SeparateFromHere(st, i, e);
      if StaysInGc(ItemAt(st, st.chains[0][i]), now, gcTtl) {
        CollectExact(st, i + 1, now, gcTtl, e);
      } else {
        DropSlots(st, i);
        DropShorter(st, i);
        DropFrom(st, i, e);
        DropItems(st, i, e);
        CollectExact(Drop(st, 0, i), i, now, gcTtl, e);
      }
    } else {
      NothingFrom(st, i, e);
    }
  }

  lemma SeparateFromHere(st: State, i: nat, e: nat)
    requires Separate(st.chains) && At(st, 0, i)
    ensures e == st.chains[0][i] ==> !RemovedFrom(st, i + 1, e)
  {
  }

  lemma DropItems(st: State, i: nat, e: nat)
    requires At(st, 0, i)
    ensures e in Drop(st, 0, i).items <==> e in st.items && e != st.chains[0][i]
    ensures e != st.chains[0][i] ==> ItemAt(Drop(st, 0, i), e) == ItemAt(st, e)
  {
  }

  lemma NothingFrom(st: State, i: nat, e: nat)
    requires |st.chains| > 0 && i >= |st.chains[0]|
    ensures !RemovedFrom(st, i, e)
  {
  }

  // ----- What the operations mean for the map -----

  /** A lookup finds exactly the entry bound to the key, unless it is hard expired. */
  lemma FindRefines(st: State, hash: Hash, key: seq<int>, t: int, e: nat)
    requires Sound(st, hash)
    ensures Find(st, hash, key, t) == Some(e) <==> Binds(st, hash, key, e) && !HardExpired(ItemAt(st, e), t)
  {
    hide KeyIn, HardExpired, Separate;
    var k := SlotOf(st, hash, key);
    var i := Search(st, k, 0, key);
    if e in st.chains[k] {
      var j :| 0 <= j < |st.chains[k]| && st.chains[k][j] == e;
      if i < |st.chains[k]| && KeyIn(ItemAt(st, e)) == key {
        UniqueKey(st, hash, k, i, j);
      }
    }
  }

  lemma SearchBinds(st: State, hash: Hash, key: seq<int>)
    requires Sound(st, hash)
    ensures var k := SlotOf(st, hash, key);
            var i := Search(st, k, 0, key);
            if i < |st.chains[k]|
            then forall e: nat :: Binds(st, hash, key, e) <==> e == st.chains[k][i]
            else forall e: nat :: !Binds(st, hash, key, e)
  {
    hide KeyIn, Separate;
    var k := SlotOf(st, hash, key);
    var i := Search(st, k, 0, key);
    forall e: nat | Binds(st, hash, key, e)
      ensures i < |st.chains[k]| && e == st.chains[k][i]
    {
      var j :| 0 <= j < |st.chains[k]| && st.chains[k][j] == e;
      UniqueKey(st, hash, k, i, j);
    }
  }

  lemma UniqueKey(st: State, hash: Hash, k: nat, i: nat, j: nat)
    requires Placed(st, hash) && 0 < k && At(st, k, i) && At(st, k, j)
    requires KeyIn(ItemAt(st, st.chains[k][i])) == KeyIn(ItemAt(st, st.chains[k][j]))
    ensures i == j
  {
    hide KeyIn;
  }

  /** Deleting removes the entry bound to the key, expired or not, and nothing else. */
  lemma DeleteRefines(st: State, hash: Hash, key: seq<int>, now: int)
    requires Sound(st, hash)
    ensures var (st1, found) := Delete(st, hash, key, now);
            && Sound(st1, hash)
            && (found <==> exists e: nat :: Binds(st, hash, key, e))
            && (forall e: nat :: !Binds(st1, hash, key, e))
            && OnlyThisKeyGone(st, st1, hash, key)
  {
    hide KeyIn, Separate, Binds;
    SizedPlaced(st, hash);
    SearchBinds(st, hash, key);
    var k := SlotOf(st, hash, key);
    var i := Search(st, k, 0, key);
    BindsKey(st, hash);
    if i < |st.chains[k]| {
      RemovePlaced(st, hash, k, i, now);
      RemoveBinds(st, hash, k, i, now);
      assert Binds(st, hash, key, st.chains[k][i]);
    }
  }

  ghost predicate OnlyThisKeyGone(st: State, st1: State, hash: Hash, key: seq<int>) {
    forall key', e {:trigger Binds(st1, hash, key', e)} | key' != key ::
      && (Binds(st1, hash, key', e) <==> Binds(st, hash, key', e))
      && (Binds(st, hash, key', e) ==> ItemAt(st1, e) == ItemAt(st, e))
  }

  /** A new entry, not in any list yet. */
  ghost predicate Insertable(st: State, hash: Hash, e: nat) {
    Unlisted(st.chains, e) && e in st.items && ItemOk(hash, st.items[e])
  }

  /** Another entry under the key of the new one that an exclusive insertion respects. */
  ghost predicate Taken(st: State, hash: Hash, key: seq<int>, t: int) {
    exists e: nat :: Binds(st, hash, key, e) && !HardExpired(ItemAt(st, e), t)
  }

  lemma InsertedPlaced(st: State, hash: Hash, k: nat, i: nat, e: nat)
    requires Placed(st, hash) && Insertable(st, hash, e) && 0 < k < |st.chains| && i <= |st.chains[k]|
    requires SlotOf(st, hash, KeyIn(st.items[e])) == k
    requires forall j | 0 <= j < |st.chains[k]| :: KeyIn(ItemAt(st, st.chains[k][j])) != KeyIn(st.items[e])
    ensures Placed(st.(chains := Inserted(st.chains, k, i, e)), hash)
  {
    hide KeyIn, ItemOk, Unlisted;
    var st1 := st.(chains := Inserted(st.chains, k, i, e));
    var es, es1 := st.chains[k], st1.chains[k];
    assert forall j | 0 <= j < |es1| :: es1[j] == if j < i then es[j] else if j == i then e else es[j - 1];
    forall l, j | 1 <= l < |st1.chains| && 0 <= j < |st1.chains[l]|
      ensures InPlace(st1, hash, l, st1.chains[l][j])
    {
      if l != k {
        assert InPlace(st, hash, l, st.chains[l][j]);
      } else if j != i {
        assert InPlace(st, hash, l, es[if j < i then j else j - 1]);
      }
    }
  }

  lemma InsertedBinds(st: State, hash: Hash, k: nat, i: nat, e: nat)
    requires |st.chains| > 1 && 0 < k < |st.chains| && i <= |st.chains[k]|
    requires SlotOf(st, hash, KeyIn(ItemAt(st, e))) == k
    ensures var st1 := st.(chains := Inserted(st.chains, k, i, e));
            forall key, f ::
                   Binds(st1, hash, key, f) <==> Binds(st, hash, key, f) || (f == e && key == KeyIn(ItemAt(st, e)))
  {
    hide KeyIn;
    var st1 := st.(chains := Inserted(st.chains, k, i, e));
    assert forall f :: f in st1.chains[k] <==> f in st.chains[k] || f == e;
  }

  lemma OnlyExpiredGoneTrans(a: State, b: State, c: State, hash: Hash, key: seq<int>, cacheTtl: int, t: int)
    requires BindsAllBut(a, b, hash, {}) && OnlyExpiredGone(b, c, hash, key, cacheTtl, t)
    ensures OnlyExpiredGone(a, c, hash, key, cacheTtl, t)
  {
    hide Binds, Expired;
    forall key', e
      ensures Binds(c, hash, key', e) ==> Binds(a, hash, key', e) && ItemAt(c, e) == ItemAt(a, e)
      ensures Binds(a, hash, key', e) && !Binds(c, hash, key', e) ==> Expired(ItemAt(a, e), cacheTtl, t) && key' != key
    {
      assert Binds(b, hash, key', e) <==> Binds(a, hash, key', e);
    }
  }

  lemma WalkedSound(st: State, hash: Hash, key: seq<int>, cacheTtl: int, gcTtl: int, t: int, now: int)
    requires Sound(st, hash)
    ensures |st.chains| > 1
    ensures var k := SlotOf(st, hash, key);
            var (st1, i) := Walk(Collect(st, 0, now, gcTtl), k, 0, key, cacheTtl, t, now);
            && Sound(st1, hash) && OnlyExpiredGone(st, st1, hash, key, cacheTtl, t)
            && (forall j | 0 <= j < i :: KeyIn(ItemAt(st1, st1.chains[k][j])) != key)
            && (i < |st1.chains[k]| ==> KeyIn(ItemAt(st1, st1.chains[k][i])) == key)
  {
    hide Placed, Separate, Collect, Walk, BindsAllBut, OnlyExpiredGone, KeyIn;
    SizedPlaced(st, hash);
    CollectSound(st, hash, now, gcTtl);
    var collected := Collect(st, 0, now, gcTtl);
    WalkSound(collected, hash, SlotOf(st, hash, key), 0, key, cacheTtl, t, now);
    OnlyExpiredGoneTrans(st, collected, Walk(collected, SlotOf(st, hash, key), 0, key, cacheTtl, t, now).0, hash, key,
                         cacheTtl, t);
  }

  /** The walk and the collection leave an unlisted entry alone. */
  lemma {:induction false} CollectKeepsFresh(st: State, i: nat, now: int, gcTtl: int, e: nat)
    requires |st.chains| > 0 && Unlisted(st.chains, e) && e in st.items
    ensures var st1 := Collect(st, i, now, gcTtl);
      Unlisted(st1.chains, e) && e in st1.items && st1.items[e] == st.items[e]
    decreases |st.chains[0]| - i
  {
    hide StaysInGc;
    if i < |st.chains[0]| {
      if StaysInGc(ItemAt(st, st.chains[0][i]), now, gcTtl) {
        CollectKeepsFresh(st, i + 1, now, gcTtl, e);
      } else {
        CollectKeepsFresh(Drop(st, 0, i), i, now, gcTtl, e);
      }
    }
  }

  lemma RemoveKeepsFresh(st: State, k: nat, i: nat, now: int, e: nat)
    requires At(st, k, i) && k > 0 && Unlisted(st.chains, e) && e in st.items
    ensures var st1 := Remove(st, k, i, now); Unlisted(st1.chains, e) && e in st1.items && st1.items[e] == st.items[e]
  {
    assert st.chains[k][i] != e;
  }

  lemma {:induction false} WalkKeepsFresh(st: State, k: nat, i: nat, key: seq<int>, cacheTtl: int, t: int, now: int,
                                          e: nat)
    requires 0 < k < |st.chains| && i <= |st.chains[k]| && Unlisted(st.chains, e) && e in st.items
    ensures var st1 := Walk(st, k, i, key, cacheTtl, t, now).0;
      Unlisted(st1.chains, e) && e in st1.items && st1.items[e] == st.items[e]
    decreases |st.chains[k]| - i
  {
    hide Remove, Unlisted, KeyIn, Expired;
    if i < |st.chains[k]| && KeyIn(ItemAt(st, st.chains[k][i])) != key {
      if Expired(ItemAt(st, st.chains[k][i]), cacheTtl, t) {
        RemoveKeepsFresh(st, k, i, now, e);
        RemoveShorter(st, k, i, now);
        WalkKeepsFresh(Remove(st, k, i, now), k, i, key, cacheTtl, t, now, e);
      } else {
        WalkKeepsFresh(st, k, i + 1, key, cacheTtl, t, now, e);
      }
    }
  }

  lemma RemoveShorter(st: State, k: nat, i: nat, now: int)
    requires At(st, k, i) && k > 0
    ensures var st1 := Remove(st, k, i, now); |st1.chains| == |st.chains| && |st1.chains[k]| == |st.chains[k]| - 1
  {
  }

  lemma KeepsFresh(st: State, hash: Hash, key: seq<int>, cacheTtl: int, gcTtl: int, t: int, now: int, e: nat)
    requires |st.chains| > 1 && Insertable(st, hash, e)
    ensures var st1 := Walk(Collect(st, 0, now, gcTtl), SlotOf(st, hash, key), 0, key, cacheTtl, t, now).0;
            Insertable(st1, hash, e) && e in st1.items && e in st.items && st1.items[e] == st.items[e]
  {
    hide Collect, Walk, Unlisted;
    CollectKeepsFresh(st, 0, now, gcTtl, e);
    WalkKeepsFresh(Collect(st, 0, now, gcTtl), SlotOf(st, hash, key), 0, key, cacheTtl, t, now, e);
  }

  /** Insertion: an exclusive one fails exactly if an entry with the key exists that is not
      hard expired; otherwise the new entry replaces whatever had its key.  Besides, only
      expired entries disappear. */
  lemma InsertRefines(st: State, hash: Hash, e: nat, exclusive: bool, cacheTtl: int, gcTtl: int, now: int)
    requires Sound(st, hash) && Insertable(st, hash, e)
    ensures |st.chains| > 1
    ensures var c := ItemAt(st, e);
            var key, t := KeyIn(c), Field(c, CTIME);
            var (st1, ok) := Insert(st, hash, e, exclusive, cacheTtl, gcTtl, now);
            && Sound(st1, hash)
            && (ok <==> !(exclusive && Taken(st, hash, key, t)))
            && (ok ==> ItemAt(st1, e) == c && forall f: nat :: Binds(st1, hash, key, f) <==> f == e)
            && (!ok ==> Unlisted(st1.chains, e) && forall f: nat ::
                  (Binds(st1, hash, key, f) <==> Binds(st, hash, key, f))
                      && (Binds(st1, hash, key, f) ==> ItemAt(st1, f) == ItemAt(st, f)))
            && ExpiredOrSame(st, st1, hash, key, cacheTtl, t)
  {
    hide Placed, Separate, Collect, Walk, KeyIn, Binds, OnlyExpiredGone, Insertable, HardExpired, Expired, Remove;
    SizedPlaced(st, hash);
    var c := ItemAt(st, e);
    var key, t := KeyIn(c), Field(c, CTIME);
    var k := SlotOf(st, hash, key);
    var (walked, i) := Walk(Collect(st, 0, now, gcTtl), k, 0, key, cacheTtl, t, now);
    WalkedSound(st, hash, key, cacheTtl, gcTtl, t, now);
    KeepsFresh(st, hash, key, cacheTtl, gcTtl, t, now, e);
    InsertWalked(st, walked, hash, k, i, e, exclusive, cacheTtl, t, now);
  }

  /** The keys other than `key` are bound as before, or no longer if their entry had expired. */
  ghost predicate ExpiredOrSame(st: State, st1: State, hash: Hash, key: seq<int>, cacheTtl: int, t: int) {
    forall key', f {:trigger Binds(st1, hash, key', f)} {:trigger Binds(st, hash, key', f)} | key' != key ::
      && (Binds(st1, hash, key', f) ==> Binds(st, hash, key', f) && ItemAt(st1, f) == ItemAt(st, f))
      && (Binds(st, hash, key', f) && !Binds(st1, hash, key', f) ==> Expired(ItemAt(st, f), cacheTtl, t))
  }

  /** Where the walk stopped, the key is or is not bound. */
  lemma BoundWhereStopped(st: State, hash: Hash, k: nat, i: nat, key: seq<int>)
    requires Placed(st, hash) && 0 < k < |st.chains| && i <= |st.chains[k]| && k == SlotOf(st, hash, key)
    requires forall j | 0 <= j < i :: KeyIn(ItemAt(st, st.chains[k][j])) != key
    requires i < |st.chains[k]| ==> KeyIn(ItemAt(st, st.chains[k][i])) == key
    ensures forall f: nat :: Binds(st, hash, key, f) <==> i < |st.chains[k]| && f == st.chains[k][i]
  {
    hide KeyIn;
    forall f: nat | Binds(st, hash, key, f)
      ensures i < |st.chains[k]| && f == st.chains[k][i]
    {
      var j :| 0 <= j < |st.chains[k]| && st.chains[k][j] == f;
      UniqueKey(st, hash, k, i, j);
    }
  }

  lemma BindsSlot(st: State, hash: Hash, key: seq<int>)
    requires |st.chains| > 1
    ensures 0 < SlotOf(st, hash, key) < |st.chains|
  {
  }

  /** Inserting a fresh entry whose key is not in the list. */
  lemma InsertFree(st: State, hash: Hash, k: nat, i: nat, e: nat)
    requires Sound(st, hash) && Insertable(st, hash, e) && 0 < k < |st.chains| && i <= |st.chains[k]|
    requires k == SlotOf(st, hash, KeyIn(st.items[e]))
    requires forall f: nat :: !Binds(st, hash, KeyIn(st.items[e]), f)
    ensures var st1 := st.(chains := Inserted(st.chains, k, i, e));
            Sound(st1, hash) && forall key, f: nat ::
                Binds(st1, hash, key, f) <==> Binds(st, hash, key, f) || (f == e && key == KeyIn(st.items[e]))
  {
    hide KeyIn, Separate, ItemOk, Unlisted;
    SizedPlaced(st, hash);
    InsertedSeparate(st.chains, k, i, e);
    InsertedBinds(st, hash, k, i, e);
    forall j | 0 <= j < |st.chains[k]|
      ensures KeyIn(ItemAt(st, st.chains[k][j])) != KeyIn(st.items[e])
    {
      BindsAt(st, hash, k, j);
      assert !Binds(st, hash, KeyIn(st.items[e]), st.chains[k][j]);
    }
    InsertedPlaced(st, hash, k, i, e);
  }

  lemma InsertReplaces(walked: State, hash: Hash, k: nat, i: nat, e: nat, now: int)
    requires Sound(walked, hash) && Insertable(walked, hash, e) && 0 < k && At(walked, k, i)
    requires k == SlotOf(walked, hash, KeyIn(walked.items[e]))
    requires forall f: nat :: Binds(walked, hash, KeyIn(walked.items[e]), f) <==> f == walked.chains[k][i]
    ensures var removed := Remove(walked, k, i, now);
            && 0 < k < |removed.chains| && i <= |removed.chains[k]|
            && var st1 := removed.(chains := Inserted(removed.chains, k, i, e));
            && Sound(st1, hash) && ItemAt(st1, e) == walked.items[e]
            && (forall key, f: nat :: Binds(st1, hash, key, f) <==>
                  if key == KeyIn(walked.items[e]) then f == e else Binds(walked, hash, key, f))
            && (forall key, f: nat | key != KeyIn(walked.items[e]) && Binds(st1, hash, key, f) ::
                ItemAt(st1, f) == ItemAt(walked, f))
  {
    hide Placed, Separate, KeyIn, ItemOk, Unlisted, Remove, Binds;
    var removed, key := Remove(walked, k, i, now), KeyIn(walked.items[e]);
    RemovePlaced(walked, hash, k, i, now);
    RemoveBinds(walked, hash, k, i, now);
    RemoveKeepsFresh(walked, k, i, now, e);
    RemoveShorter(walked, k, i, now);
    BindsKey(walked, hash);
    assert Binds(walked, hash, key, walked.chains[k][i]);
    InsertFree(removed, hash, k, i, e);
  }

  lemma InsertWalked(st: State, walked: State, hash: Hash, k: nat, i: nat, e: nat, exclusive: bool, cacheTtl: int,
                     t: int, now: int)
    requires Insertable(walked, hash, e) && e in walked.items && e in st.items && walked.items[e] == st.items[e]
             && |walked.chains| == |st.chains| > 1
    requires 0 < k < |walked.chains| && i <= |walked.chains[k]| && k == SlotOf(st, hash, KeyIn(st.items[e]))
    requires Sound(walked, hash) && OnlyExpiredGone(st, walked, hash, KeyIn(st.items[e]), cacheTtl, t)
    requires forall j | 0 <= j < i :: KeyIn(ItemAt(walked, walked.chains[k][j])) != KeyIn(st.items[e])
    requires i < |walked.chains[k]| ==> KeyIn(ItemAt(walked, walked.chains[k][i])) == KeyIn(st.items[e])
    ensures var c, key := st.items[e], KeyIn(st.items[e]);
            var (st1, ok) := InsertAt(walked, k, i, e, exclusive, t, now);
            && Sound(st1, hash)
            && (ok <==> !(exclusive && Taken(st, hash, key, t)))
            && (ok ==> ItemAt(st1, e) == c && forall f: nat :: Binds(st1, hash, key, f) <==> f == e)
            && (!ok ==> Unlisted(st1.chains, e) && forall f: nat ::
                  (Binds(st1, hash, key, f) <==> Binds(st, hash, key, f))
                      && (Binds(st1, hash, key, f) ==> ItemAt(st1, f) == ItemAt(st, f)))
            && ExpiredOrSame(st, st1, hash, key, cacheTtl, t)
  {
    hide Placed, Separate, KeyIn, ItemOk, Unlisted, Remove, Binds, HardExpired, Expired;
    var key := KeyIn(st.items[e]);
    BoundWhereStopped(walked, hash, k, i, key);
    forall f: nat
      ensures Binds(st, hash, key, f) <==> Binds(walked, hash, key, f)
      ensures Binds(st, hash, key, f) ==> ItemAt(walked, f) == ItemAt(st, f)
    {
    }
    if i == |walked.chains[k]| {
      InsertFree(walked, hash, k, i, e);
    } else {
      assert Binds(walked, hash, key, walked.chains[k][i]);
      if !(exclusive && !HardExpired(ItemAt(walked, walked.chains[k][i]), t)) {
        InsertReplaces(walked, hash, k, i, e, now);
      }
    }
  }

  // ----- Emptying slots, and what it means -----

  /** Of the slots from `k` up to `n`, exactly the expired entries are no longer bound. */
  ghost predicate ExpiredGone(st: State, st1: State, hash: Hash, k: nat, n: nat, cacheTtl: int, t: int) {
    forall key, f: nat {:trigger Binds(st1, hash, key, f)} {:trigger Binds(st, hash, key, f)} ::
      && (Binds(st1, hash, key, f) <==>
            Binds(st, hash, key, f) && !(k <= SlotOf(st, hash, key) < n && Expired(ItemAt(st, f), cacheTtl, t)))
      && (Binds(st1, hash, key, f) ==> ItemAt(st1, f) == ItemAt(st, f))
  }

  lemma {:induction false} ExpireListRefines(st: State, hash: Hash, k: nat, i: nat, cacheTtl: int, t: int, now: int)
    requires Sound(st, hash) && 0 < k < |st.chains| && i <= |st.chains[k]|
    requires forall j | 0 <= j < i :: !Expired(ItemAt(st, st.chains[k][j]), cacheTtl, t)
    ensures var st1 := ExpireList(st, k, i, cacheTtl, t, now);
            Sound(st1, hash) && ExpiredGone(st, st1, hash, k, k + 1, cacheTtl, t)
    decreases |st.chains[k]| - i
  {
    hide Placed, Separate, Remove, KeyIn, Expired, Binds, BindsAllBut, ExpiredGone;
    if i == |st.chains[k]| {
      NoneExpired(st, hash, k, cacheTtl, t);
    } else if Expired(ItemAt(st, st.chains[k][i]), cacheTtl, t) {
      var st1 := Remove(st, k, i, now);
      RemovePlaced(st, hash, k, i, now);
      RemoveBinds(st, hash, k, i, now);
      RemoveKeeps(st, k, i, now);
      ExpireListRefines(st1, hash, k, i, cacheTtl, t, now);
      ExpiredGoneStep(st, st1, ExpireList(st1, k, i, cacheTtl, t, now), hash, k, i, cacheTtl, t);
    } else {
      ExpireListRefines(st, hash, k, i + 1, cacheTtl, t, now);
    }
  }

  /** One more expired entry is gone. */
  lemma ExpiredGoneStep(st: State, st1: State, st2: State, hash: Hash, k: nat, i: nat, cacheTtl: int, t: int)
    requires Placed(st, hash) && At(st, k, i) && k > 0 && |st1.chains| == |st.chains|
    requires BindsAllBut(st, st1, hash, {st.chains[k][i]}) && Expired(ItemAt(st, st.chains[k][i]), cacheTtl, t)
    requires ExpiredGone(st1, st2, hash, k, k + 1, cacheTtl, t)
    ensures ExpiredGone(st, st2, hash, k, k + 1, cacheTtl, t)
  {
    hide Placed, KeyIn, Expired, Binds;
    BindsAt(st, hash, k, i);
    BindsKey(st, hash);
    forall key, f: nat
      ensures Binds(st2, hash, key, f) <==>
        Binds(st, hash, key, f)
        && !(k <= SlotOf(st, hash, key) < k + 1 && Expired(ItemAt(st, f), cacheTtl, t))
      ensures Binds(st2, hash, key, f) ==> ItemAt(st2, f) == ItemAt(st, f)
    {
      assert Binds(st1, hash, key, f) <==> Binds(st, hash, key, f) && f != st.chains[k][i];
    }
  }

  lemma NoneExpired(st: State, hash: Hash, k: nat, cacheTtl: int, t: int)
    requires |st.chains| > 1 && 0 < k < |st.chains|
    requires forall j | 0 <= j < |st.chains[k]| :: !Expired(ItemAt(st, st.chains[k][j]), cacheTtl, t)
    ensures ExpiredGone(st, st, hash, k, k + 1, cacheTtl, t)
  {
    hide KeyIn, Expired;
  }

  lemma {:induction false} ExpireFromRefines(st: State, hash: Hash, k: nat, cacheTtl: int, t: int, now: int)
    requires Sound(st, hash) && 0 < k <= |st.chains|
    ensures var st1 := ExpireFrom(st, k, cacheTtl, t, now);
            Sound(st1, hash) && ExpiredGone(st, st1, hash, k, |st.chains|, cacheTtl, t)
    decreases |st.chains| - k
  {
    hide Placed, Separate, ExpireList, KeyIn, Expired, Binds;
    if k < |st.chains| {
      ExpireListRefines(st, hash, k, 0, cacheTtl, t, now);
      ExpireFromRefines(ExpireList(st, k, 0, cacheTtl, t, now), hash, k + 1, cacheTtl, t, now);
    }
  }

  /** Removing the expired entries of all slots: the others stay bound, with their contents. */
  lemma ExpireRefines(st: State, hash: Hash, cacheTtl: int, t: int, now: int)
    requires Sound(st, hash)
    ensures |st.chains| > 1
    ensures var st1 := ExpireFrom(st, 1, cacheTtl, t, now);
            && Sound(st1, hash)
            && forall key, f: nat ::
               Binds(st1, hash, key, f) <==> Binds(st, hash, key, f) && !Expired(ItemAt(st, f), cacheTtl, t)
  {
    hide Placed, Separate, ExpireFrom, KeyIn, Expired, Binds;
    SizedPlaced(st, hash);
    ExpireFromRefines(st, hash, 1, cacheTtl, t, now);
    forall key
      ensures 1 <= SlotOf(st, hash, key) < |st.chains|
    {
      BindsSlot(st, hash, key);
    }
  }

  lemma {:induction false} ClearListEmpties(st: State, hash: Hash, k: nat, now: int)
    requires Sound(st, hash) && 0 < k < |st.chains|
    ensures var st1 := ClearList(st, k, now);
            Sound(st1, hash) && st1.chains[k] == [] && forall l | 0 < l < |st.chains| && l != k ::
                st1.chains[l] == st.chains[l]
    decreases |st.chains[k]|
  {
    hide Placed, Separate, Remove;
    if st.chains[k] != [] {
      RemovePlaced(st, hash, k, 0, now);
      RemoveKeeps(st, k, 0, now);
      ClearListEmpties(Remove(st, k, 0, now), hash, k, now);
    }
  }

  lemma {:induction false} ClearFromEmpties(st: State, hash: Hash, k: nat, now: int)
    requires Sound(st, hash) && 0 < k <= |st.chains|
    ensures var st1 := ClearFrom(st, k, now);
            && Sound(st1, hash) && (forall l | k <= l < |st.chains| :: st1.chains[l] == [])
            && (forall l | 0 < l < k :: st1.chains[l] == st.chains[l])
    decreases |st.chains| - k
  {
    hide Placed, Separate, ClearList;
    if k < |st.chains| {
      ClearListEmpties(st, hash, k, now);
      ClearFromEmpties(ClearList(st, k, now), hash, k + 1, now);
    }
  }

  /** After a clear no slot holds anything. */
  lemma ClearRefines(st: State, hash: Hash, now: int)
    requires Sound(st, hash)
    ensures |st.chains| > 1
    ensures var st1 := ClearFrom(st, 1, now);
            && Sound(st1, hash) && (forall l | 0 < l < |st.chains| :: st1.chains[l] == [])
            && forall key, f: nat :: !Binds(st1, hash, key, f)
  {
    hide Placed, Separate, ClearFrom;
    SizedPlaced(st, hash);
    ClearFromEmpties(st, hash, 1, now);
  }

  // ----- Accounting -----

  ghost function ListMem(st: State, es: seq<nat>): int {
    if es == [] then 0 else Field(ItemAt(st, es[0]), MEMSIZE) + ListMem(st, es[1..])
  }

  /** Words of all entries in the slots from `k` on, as recorded in the entries. */
  ghost function MemFrom(st: State, k: nat): int
    decreases |st.chains| - k
  {
    if k >= |st.chains| then 0 else ListMem(st, st.chains[k]) + MemFrom(st, k + 1)
  }

  ghost function CountFrom(st: State, k: nat): nat
    decreases |st.chains| - k
  {
    if k >= |st.chains| then 0 else |st.chains[k]| + CountFrom(st, k + 1)
  }

  lemma {:induction false} ListMemSplit(st: State, es: seq<nat>, i: nat)
    requires i < |es|
    ensures ListMem(st, es) == ListMem(st, es[..i] + es[i + 1..]) + Field(ItemAt(st, es[i]), MEMSIZE)
    decreases i
  {
    if i == 0 {
      assert es[..0] + es[1..] == es[1..];
    } else {
      ListMemSplit(st, es[1..], i - 1);
      var rest := es[..i] + es[i + 1..];
      assert rest[0] == es[0] && rest[1..] == es[1..][..i - 1] + es[1..][i..];
    }
  }

  lemma {:induction false} ListMemSame(st: State, st1: State, es: seq<nat>)
    requires forall e | e in es :: Field(ItemAt(st1, e), MEMSIZE) == Field(ItemAt(st, e), MEMSIZE)
    ensures ListMem(st1, es) == ListMem(st, es)
  {
    hide Field;
    if es != [] {
      ListMemSame(st, st1, es[1..]);
    }
  }

  /** Lists from `k` on other than `l` are the same, with the same recorded sizes. */
  lemma {:induction false} SumsBut(st: State, st1: State, k: nat, l: nat)
    requires |st1.chains| == |st.chains|
    requires forall m | k <= m < |st.chains| && m != l ::
             st1.chains[m] == st.chains[m] && ListMem(st1, st1.chains[m]) == ListMem(st, st.chains[m])
    ensures k <= l < |st.chains| ==>
      && MemFrom(st1, k) == MemFrom(st, k) - ListMem(st, st.chains[l]) + ListMem(st1, st1.chains[l])
      && CountFrom(st1, k) == CountFrom(st, k) - |st.chains[l]| + |st1.chains[l]|
    ensures !(k <= l < |st.chains|) ==> MemFrom(st1, k) == MemFrom(st, k) && CountFrom(st1, k) == CountFrom(st, k)
    decreases |st.chains| - k
  {
    hide ListMem;
    if k < |st.chains| {
      SumsBut(st, st1, k + 1, l);
    }
  }

  /** Removing an entry takes its recorded size and one entry off the totals. */
  lemma RemoveSums(st: State, k: nat, i: nat, now: int)
    requires Separate(st.chains) && At(st, k, i) && k > 0
    ensures var st1 := Remove(st, k, i, now);
            && MemFrom(st1, 1) == MemFrom(st, 1) - Field(ItemAt(st, st.chains[k][i]), MEMSIZE)
            && CountFrom(st1, 1) == CountFrom(st, 1) - 1
  {
    hide MemFrom, CountFrom, Field, ListMem;
    var e, st1 := st.chains[k][i], Remove(st, k, i, now);
    RemoveKeeps(st, k, i, now);
    RemovedSeparate(st.chains, k, i);
    ListMemSplit(st, st.chains[k], i);
    forall m | 0 < m < |st.chains|
      ensures ListMem(st1, st1.chains[m]) == ListMem(st, st1.chains[m])
    {
      forall f | f in st1.chains[m]
        ensures ItemAt(st1, f) == ItemAt(st, f)
      {
        RemovedMembers(st.chains, k, i, m, f);
      }
      ListMemSame(st, st1, st1.chains[m]);
    }
    SumsBut(st, st1, 1, k);
  }

  lemma InsertSums(st: State, k: nat, i: nat, e: nat)
    requires 0 < k < |st.chains| && i <= |st.chains[k]|
    ensures var st1 := st.(chains := Inserted(st.chains, k, i, e));
            && MemFrom(st1, 1) == MemFrom(st, 1) + Field(ItemAt(st, e), MEMSIZE)
            && CountFrom(st1, 1) == CountFrom(st, 1) + 1
  {
    hide MemFrom, CountFrom, Field, ListMem;
    var st1 := st.(chains := Inserted(st.chains, k, i, e));
    var es, es1 := st.chains[k], st1.chains[k];
    forall m | 0 < m < |st.chains|
      ensures ListMem(st1, st1.chains[m]) == ListMem(st, st1.chains[m])
    {
      ListMemSame(st, st1, st1.chains[m]);
    }
    ListMemSplit(st, es1, i);
    assert es1[..i] + es1[i + 1..] == es;
    SumsBut(st, st1, 1, k);
  }

  lemma SameSlotsSums(st: State, st1: State, hash: Hash)
    requires SameSlots(st, st1) && Placed(st, hash)
    ensures MemFrom(st1, 1) == MemFrom(st, 1) && CountFrom(st1, 1) == CountFrom(st, 1)
  {
    hide MemFrom, CountFrom, Field, ListMem, KeyIn, ItemOk;
    forall m | 0 < m < |st.chains|
      ensures ListMem(st1, st1.chains[m]) == ListMem(st, st.chains[m])
    {
      forall f | f in st.chains[m]
        ensures ItemAt(st1, f) == ItemAt(st, f)
      {
        var j :| 0 <= j < |st.chains[m]| && st.chains[m][j] == f;
        assert InPlace(st, hash, m, st.chains[m][j]);
      }
      ListMemSame(st, st1, st.chains[m]);
    }
    SumsBut(st, st1, 1, |st.chains|);
  }

  lemma {:induction false} ListMemPositive(st: State, es: seq<nat>)
    requires forall e | e in es :: Field(ItemAt(st, e), MEMSIZE) > 0
    ensures ListMem(st, es) >= 0 && (forall e | e in es :: Field(ItemAt(st, e), MEMSIZE) <= ListMem(st, es))
  {
    hide Field;
    if es != [] {
      ListMemPositive(st, es[1..]);
    }
  }

  lemma {:induction false} MemFromPositive(st: State, hash: Hash, k: nat, l: nat, i: nat)
    requires Placed(st, hash) && 0 < k && At(st, l, i)
    ensures MemFrom(st, k) >= 0
    ensures k <= l ==> 0 < Field(ItemAt(st, st.chains[l][i]), MEMSIZE) <= MemFrom(st, k) && CountFrom(st, k) > 0
    decreases |st.chains| - k
  {
    hide Field, KeyIn, ListMem;
    if k < |st.chains| {
      forall e | e in st.chains[k]
        ensures Field(ItemAt(st, e), MEMSIZE) > 0
      {
        var j :| 0 <= j < |st.chains[k]| && st.chains[k][j] == e;
        assert InPlace(st, hash, k, st.chains[k][j]);
      }
      ListMemPositive(st, st.chains[k]);
      MemFromPositive(st, hash, k + 1, l, i);
    }
  }
}
