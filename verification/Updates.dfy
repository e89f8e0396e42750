/** Numbers in the cache that are updated in place: what an update does to a stored value, and
    that it is the step that the processes of `Counter` and `Protocol` take. */
module Updates {
  import opened HeapModel
  import opened Packing
  import opened CacheLists
  import opened CacheModel
  import opened CacheImage
  import opened CacheState
  import opened CacheStore
  import opened Expunging
  import opened ValueGraph
  import opened RefCount
  import opened EntryWords
  import opened Unpersist
  import opened Roundtrip
  import Counter
  import PersistCalc
  import Protocol
  import Reachable
  import Sma

  // ----- The update as a step -----

  /** An update finds the entry that was there before, and leaves the others alone. */
  lemma UpdatedFind(st: State, hash: Hash, key: seq<int>, t: int, e: nat, bits: int, kind: int)
    requires Sound(st, hash) && |st.chains| > 1 && Find(st, hash, key, t) == Some(e)
    requires e in st.items && |st.items[e]| >= KEY - TTL
    ensures var st1 := Updated(st, e, t, bits, kind);
            && Sound(st1, hash) && |st1.chains| > 1 && Find(st1, hash, key, t) == Some(e) && e in st1.items
            && st1.items[e] == st.items[e][VAL - TTL := bits][KIND - TTL := kind][MTIME - TTL := t]
            && forall f: nat | f != e :: ItemAt(st1, f) == ItemAt(st, f)
  {
    hide Placed, Separate, Find, KeyIn;
    var st0 := WithMeta(st, e, VAL, bits);
    var st1 := WithMeta(st0, e, KIND, kind);
    var st2 := WithMeta(st1, e, MTIME, t);
    MetaPlaced(st, hash, e, VAL, bits);
    MetaPlaced(st0, hash, e, KIND, kind);
    MetaPlaced(st1, hash, e, MTIME, t);
    MetaBinds(st, hash, e, VAL, bits);
    MetaBinds(st0, hash, e, KIND, kind);
    MetaBinds(st1, hash, e, MTIME, t);
    FindRefines(st, hash, key, t, e);
    FindRefines(st2, hash, key, t, e);
  }

  /** What an update of integers does is a step of `Protocol`, or nothing. */
  lemma UpdateIsStep(cfg: Protocol.Config, w: Protocol.World, st1: State, key: seq<int>, t: int,
                     updater: int -> (int, bool), done: Option<bool>)
    requires LongUpdated(w.st, st1, cfg.hash, key, t, updater, done)
    ensures st1 == w.st || exists bits: int ::
              Protocol.Next(cfg, w, Protocol.Update(key, t, bits, IS_LONG), w.(st := st1))
  {
    hide Find, Updated;
    var found := Find(w.st, cfg.hash, key, t);
    if found.Some? && st1 != w.st {
      var bits := updater(Field(ItemAt(w.st, found.value), VAL)).0;
      assert Protocol.Next(cfg, w, Protocol.Update(key, t, bits, IS_LONG), w.(st := st1));
    }
  }

  // ----- Counters -----

  /** The key as a counter: missing, an integer, or something else. */
  ghost function ValueOf(st: State, hash: Hash, key: seq<int>, t: int): Counter.Value
    requires |st.chains| > 1
  {
    match Find(st, hash, key, t)
    case None => Counter.Absent
    case Some(e) =>
      var c := ItemAt(st, e);
      if Field(c, KIND) == IS_LONG then Counter.Long(Field(c, VAL)) else Counter.Foreign
  }

  /** What an increment and a swap do to the word that they are given. */
  function UpdaterOf(op: Counter.Op): int -> (int, bool) {
    match op
    case Inc(step) => n => (Counter.Wrap(n + step), true)
    case Cas(expected, replacement) => n => if n == expected then (replacement, true) else (n, false)
  }

  function DoneOf(r: Counter.Result): Option<bool> {
    match r
    case NoEntry => None
    case NotInteger => Some(false)
    case Counted(_) => Some(true)
    case Swapped(ok) => Some(ok)
  }

  /** An update of the cache is the update of the counter. */
  lemma UpdateIsEffect(st: State, st1: State, hash: Hash, key: seq<int>, t: int, op: Counter.Op, done: Option<bool>)
    requires Sound(st, hash) && LongUpdated(st, st1, hash, key, t, UpdaterOf(op), done)
    requires forall e | e in st.items :: |st.items[e]| >= KEY - TTL
    ensures |st1.chains| > 1
    ensures ValueOf(st1, hash, key, t) == Counter.Effect(op, ValueOf(st, hash, key, t)).0
    ensures done == DoneOf(Counter.Effect(op, ValueOf(st, hash, key, t)).1)
  {
    hide Find, Updated, Sound, Counter.Wrap;
    var found := Find(st, hash, key, t);
    if found.Some? {
      var e := found.value;
      FoundIn(st, hash, key, t, e);
      UpdatedFind(st, hash, key, t, e, UpdaterOf(op)(Field(ItemAt(st, e), VAL)).0, IS_LONG);
    }
  }

  lemma FoundIn(st: State, hash: Hash, key: seq<int>, t: int, e: nat)
    requires Sound(st, hash) && |st.chains| > 1 && Find(st, hash, key, t) == Some(e)
    ensures e in st.items
  {
    hide Separate, KeyIn, HardExpired, ItemOk;
    var k := SlotOf(st, hash, key);
    assert InPlace(st, hash, k, st.chains[k][Search(st, k, 0, key)]);
  }

  // ----- Stored scalars -----

  /** The words of an entry with a scalar carry it. */
  lemma ScalarCarries(hash: Hash, key: seq<Byte>, src: View, z: Zval)
    requires z.Scalar?
    ensures Carries(hash, EntryBody(hash, key, z), src, z)
  {
    hide ValWords, Pack;
    var body := EntryBody(hash, key, z);
    forall base: nat
      ensures RebuildableAt(hash, body, base)
    {
      var w := View(map[base := Entry(key, z, 0)], base, 0);
      assert body[0..|body|] == body;
      assert Spelled(hash, body, w, base);
      assert Rebuildable(hash, body, w, {});
    }
    forall w: View, s: set<nat> | Reads(hash, body, w, s)
      ensures SameValue(src, z, w)
    {
      EntryRead(hash, body, w);
      assert body[0] == ValWords(z)[0] && body[1] == ValWords(z)[1];
      ValRead(body, 0, z);
      assert Isomorphic(src, z, w, w.mem[w.base].val, map[]);
    }
  }

  /** What an update makes of a scalar: an integer gets its new value, the others stay. */
  function AfterUpdate(z: Zval, updater: int -> (int, bool)): Zval {
    if z.Scalar? && z.kind == IS_LONG then Scalar(IS_LONG, updater(z.bits).0) else z
  }

  /** An update of an entry with a scalar. */
  lemma ScalarUpdated(st: State, st1: State, hash: Hash, key: seq<Byte>, z: Zval, life: int, t: int, t1: int, e: nat,
                      updater: int -> (int, bool), done: Option<bool>)
    requires Sound(st, hash) && z.Scalar? && LongUpdated(st, st1, hash, key, t1, updater, done)
    requires Find(st, hash, key, t1) == Some(e) && ItemAt(st, e) == NewEntry(EntryBody(hash, key, z), life, t, 0)
    ensures |st1.chains| > 1 && Find(st1, hash, key, t1) == Some(e)
    ensures BodyOf(ItemAt(st1, e)) == EntryBody(hash, key, AfterUpdate(z, updater)) && Whole(ItemAt(st1, e))
    ensures done == Some(z.kind == IS_LONG && updater(z.bits).1)
  {
    hide Find, Updated, Sound, Pack;
    FoundIn(st, hash, key, t1, e);
    var body, c := EntryBody(hash, key, z), ItemAt(st, e);
    ScalarFields(hash, key, z, life, t);
    if z.kind == IS_LONG {
      var x := updater(z.bits).0;
      UpdatedFind(st, hash, key, t1, e, x, IS_LONG);
      var c1 := c[VAL - TTL := x][KIND - TTL := IS_LONG][MTIME - TTL := t1];
      assert c1[VAL - TTL..] == body[0 := x][1 := IS_LONG];
      assert body[0 := x][1 := IS_LONG] == EntryBody(hash, key, Scalar(IS_LONG, x));
    }
  }

  lemma ScalarFields(hash: Hash, key: seq<Byte>, z: Zval, life: int, t: int)
    requires z.Scalar?
    ensures var c := NewEntry(EntryBody(hash, key, z), life, t, 0);
            && Field(c, KIND) == z.kind && Field(c, VAL) == z.bits && |c| >= KEY - TTL && Whole(c)
            && BodyOf(c) == EntryBody(hash, key, z)
  {
    hide Pack;
    NewBody(EntryBody(hash, key, z), life, t, 0);
  }

  /** Stores a scalar, updates it, and fetches it: an integer comes back with its new value, any
      other scalar as it was stored, and then the update reports failure. */
  method StoreUpdateFetch(cache: Cache, key: seq<Byte>, z: Zval, life: int, exclusive: bool, extra: nat, total: nat,
                          maxAlloc: nat, t: int, now: int, rivals: seq<seq<Rival>>, t1: int,
                          updater: int -> (int, bool))
    returns (stored: bool, done: Option<bool>, root: Zval, ghost body: seq<int>, ghost made: Point,
             ghost last: Option<int>, ghost p1: Point)
    requires cache.Valid() && z.Scalar?
    modifies cache, cache.sma, cache.sma.seg, cache.sma.seg.words
    ensures cache.Valid() && (!stored ==> cache.Here() == p1)
    ensures body == EntryBody(cache.hash, key, z)
    ensures Tried(old(cache.Fixed(total)), old(cache.Here()), made, p1, cache.hash, key, NewEntry(body, life, t, 0),
                  exclusive, Demand(PersistCalc.EntrySize(|key|), extra, maxAlloc, t, now), rivals, last, stored)
    ensures stored && (life == 0 || t1 <= t + life) ==>
      root == AfterUpdate(z, updater) && done == Some(z.kind == IS_LONG && updater(z.bits).1)
    ensures stored && !(life == 0 || t1 <= t + life) ==> done.None?
  {
    hide Sma.Allocator.Valid, Image, Items, Counters, Good, Carries, KeyedBody, Tried, NewEntry, CacheModel.Find,
         BodyOf, Whole, Accessed, StoreEffect, LongUpdated, EntryBody, Sound, Isomorphic, ExactRefs, KeysPrivate,
         KeysPointedOnce;
    done, root := None, Undef;
    var src := View(map[], 0, 0);
    ScalarSize(src, {}, z);
    ScalarPlain(src, z);
    var outcome: PersistCalc.Outcome;
    outcome, stored, body, made, last :=
      StoreValue(cache, src, key, z, life, exclusive, extra, total, maxAlloc, t, now, rivals, {});
    p1 := cache.Here();
    if !stored {
      return;
    }
    ghost var st := cache.St();
    GoodSound(st, cache.Header(), cache.hash, cache.loose);
    StoreThenFind(made.st, st, st, cache.hash, cache.loose, key, body, life, exclusive, cache.ttl, t, t1);
    done := cache.UpdateLong(key, t1, updater);
    UpdateFinds(st, cache.hash, key, t1, updater);
    if done.Some? {
      ghost var e := CacheModel.Find(st, cache.hash, key, t1).value;
      ScalarUpdated(st, cache.St(), cache.hash, key, z, life, t, t1, e, updater, done);
      ScalarCarries(cache.hash, key, src, AfterUpdate(z, updater));
      var found: Option<nat>;
      var heap: Memory;
      ghost var f: map<nat, nat>;
      found, heap, root, f := FetchStored(cache, key, t1, src, AfterUpdate(z, updater));
      ScalarRoot(src, AfterUpdate(z, updater), View(heap, 0, EMPTY), root, f);
    }
  }

  lemma ScalarPlain(src: View, z: Zval)
    requires z.Scalar? && src == View(map[], 0, 0)
    ensures Reachable.Plain(src, z) && Closed(src, {}) && ValOk(src, {}, z)
  {
    Reachable.FineIffPlain(src, {}, z);
  }

  lemma ScalarRoot(a: View, z: Zval, b: View, z2: Zval, m: map<nat, nat>)
    requires z.Scalar? && Isomorphic(a, z, b, z2, m)
    ensures z2 == z
  {
    hide Match;
  }
}
