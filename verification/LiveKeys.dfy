/** Which steps can take a key away: for every step of a process on the shared cache, when a
    key that a lookup would find is still found afterwards. */
module LiveKeys {
  import opened HeapModel
  import opened CacheLists
  import opened CacheModel
  import opened CacheImage
  import opened CacheState
  import opened Protocol

  /** A lookup at the time `at` finds the key. */
  ghost predicate Live(cfg: Config, w: World, key: seq<int>, at: int) {
    |w.st.chains| > 1 && Find(w.st, cfg.hash, key, at).Some?
  }

  lemma LiveIffTaken(cfg: Config, w: World, key: seq<int>, at: int)
    requires Inv(cfg, w)
    ensures |w.st.chains| > 1 && (Live(cfg, w, key, at) <==> Taken(w.st, cfg.hash, key, at))
  {
    hide Find, Binds, HardExpired, OwnedBy, PinsSafe, AllRefsRight, Placed, Separate;
    SoundSized(w.st, cfg.hash);
    forall e: nat
      ensures Find(w.st, cfg.hash, key, at) == Some(e) <==>
        Binds(w.st, cfg.hash, key, e) && !HardExpired(ItemAt(w.st, e), at)
    {
      FindRefines(w.st, cfg.hash, key, at, e);
    }
  }

  // ----- When a key may get lost -----

  /** The entry under the key counts as expired at the time `t`. */
  ghost predicate BoundExpired(cfg: Config, st: State, key: seq<int>, t: int) {
    exists e: nat :: Binds(st, cfg.hash, key, e) && Expired(ItemAt(st, e), cfg.cacheTtl, t)
  }

  /** The key is deleted, or the cache is emptied, by a command or for lack of memory; or its
      entry counts as expired when others are stored or memory is short; or it is replaced by
      an entry whose time to live is over at `at`. */
  ghost predicate MayLose(cfg: Config, w: World, a: Action, w1: World, key: seq<int>, at: int) {
    match a
    case Remove(key1, _) => key1 == key
    case Clear(_) => true
    case Expunge(_, _, t, _) => SlotsEmpty(w1.st) || BoundExpired(cfg, w.st, key, t)
    case Store(tok, _, _) =>
      && tok in w.pins
      && var c := ItemAt(w.st, w.pins[tok].e);
      if KeyIn(c) == key then HardExpired(c, at) else BoundExpired(cfg, w.st, key, Field(c, CTIME))
    case _ => false
  }

  // ----- Steps that leave the lists alone -----

  /** The same key, and the same time to live. */
  ghost predicate SameLife(c: Item, c1: Item) {
    KeyIn(c1) == KeyIn(c) && Field(c1, TTL) == Field(c, TTL) && Field(c1, CTIME) == Field(c, CTIME)
  }

  ghost predicate SameLives(st: State, st1: State) {
    st1.chains == st.chains
    && forall e: nat {:trigger ItemAt(st1, e)} | !Unlisted(st.chains, e) :: SameLife(ItemAt(st, e), ItemAt(st1, e))
  }

  lemma SameLivesTaken(st: State, st1: State, hash: Hash, key: seq<int>, at: int)
    requires SameLives(st, st1) && Taken(st, hash, key, at)
    ensures Taken(st1, hash, key, at)
  {
    hide KeyIn, Field, ItemAt;
    var e: nat :| Binds(st, hash, key, e) && !HardExpired(ItemAt(st, e), at);
    var k := SlotOf(st, hash, key);
    var i :| 0 <= i < |st.chains[k]| && st.chains[k][i] == e;
    ListedIn(st.chains, k, i);
    assert SameLife(ItemAt(st, e), ItemAt(st1, e));
    assert Binds(st1, hash, key, e);
  }

  lemma SameLivesTwice(st: State, st1: State, st2: State)
    requires SameLives(st, st1) && SameLives(st1, st2)
    ensures SameLives(st, st2)
  {
    hide KeyIn, Field, ItemAt, Unlisted;
    forall e: nat | !Unlisted(st.chains, e)
      ensures SameLife(ItemAt(st, e), ItemAt(st2, e))
    {
      assert SameLife(ItemAt(st, e), ItemAt(st1, e)) && SameLife(ItemAt(st1, e), ItemAt(st2, e));
    }
  }

  lemma MetaLives(st: State, e: nat, f: nat, x: int)
    requires Changing(f) && f != TTL && f != CTIME && (e in st.items ==> |st.items[e]| >= KEY - TTL)
    ensures SameLives(st, WithMeta(st, e, f, x))
  {
    hide KeyIn;
    if e in st.items {
      MetaItem(st.items[e], f, x);
    }
  }

  lemma AccessLives(st: State, st1: State, e: nat, t: int)
    requires Accessed(st, st1, e, t) && Sized(st)
    ensures SameLives(st, st1) && Sized(st1)
  {
    hide SameLives;
    var n := Field(ItemAt(st, e), NHITS) + 1;
    var st0 := WithMeta(st, e, NHITS, n);
    MetaLives(st, e, NHITS, n);
    MetaLives(st0, e, ATIME, t);
    SameLivesTwice(st, st0, st1);
  }

  lemma UpdateLives(st: State, e: nat, t: int, bits: int, kind: int)
    requires Sized(st)
    ensures SameLives(st, Updated(st, e, t, bits, kind))
  {
    hide SameLives;
    var st1 := WithMeta(st, e, VAL, bits);
    var st2 := WithMeta(st1, e, KIND, kind);
    MetaLives(st, e, VAL, bits);
    MetaLives(st1, e, KIND, kind);
    MetaLives(st2, e, MTIME, t);
    SameLivesTwice(st, st1, st2);
    SameLivesTwice(st, st2, Updated(st, e, t, bits, kind));
  }

  /** An entry in no list may change in any way. */
  lemma UnlistedLives(st: State, st1: State, e: nat)
    requires Unlisted(st.chains, e) && st1.chains == st.chains
    requires forall f: nat | f != e :: ItemAt(st1, f) == ItemAt(st, f)
    ensures SameLives(st, st1)
  {
    hide KeyIn, Field, ItemAt, Unlisted;
  }

  lemma LooseUnlisted(cfg: Config, w: World, e: nat)
    requires Inv(cfg, w) && e in w.loose
    ensures Unlisted(w.st.chains, e)
  {
    hide Sound, PinsSafe, AllRefsRight, Unlisted, Field;
    assert LooseIn(w.st, e);
  }

  lemma NewUnlisted(cfg: Config, w: World, e: nat)
    requires Inv(cfg, w) && e !in w.st.items
    ensures Unlisted(w.st.chains, e)
  {
    hide Sound, PinsSafe, AllRefsRight, Unlisted, OwnedBy;
  }

  lemma InvSized(cfg: Config, w: World)
    requires Inv(cfg, w)
    ensures Sized(w.st) && Sound(w.st, cfg.hash)
  {
    hide Sound, PinsSafe, AllRefsRight, Unlisted, OwnedBy, AllIn;
  }

  /** Making, filling in and giving up entries that are not in the cache yet. */
  lemma MakingLives(cfg: Config, w: World, a: Action, w1: World)
    requires Inv(cfg, w) && Next(cfg, w, a, w1) && (a.Create? || a.Write? || a.Discard?)
    ensures SameLives(w.st, w1.st)
  {
    hide Inv, SameLives, Words, ItemOk, Insert, Find, Delete, Expunged, Collect, ClearFrom;
    match a
    case Create(e, c, t) =>
      NewUnlisted(cfg, w, e);
      UnlistedLives(w.st, w1.st, e);
    case Write(t, f, x) =>
      LooseUnlisted(cfg, w, w.pins[t].e);
      UnlistedLives(w.st, w1.st, w.pins[t].e);
    case Discard(t) =>
      LooseUnlisted(cfg, w, w.pins[t].e);
      UnlistedLives(w.st, w1.st, w.pins[t].e);
  }

  lemma ReferLives(w: World, e: nat, t: nat)
    requires Sized(w.st)
    ensures SameLives(w.st, Refer(w, e, t).st)
  {
    hide SameLives, Words;
    MetaLives(w.st, e, REFS, Field(ItemAt(w.st, e), REFS) + 1);
  }

  /** Looking up, referring, releasing and updating. */
  lemma UsingLives(cfg: Config, w: World, a: Action, w1: World)
    requires Inv(cfg, w) && Next(cfg, w, a, w1) && (a.FindPin? || a.VisitPin? || a.Unpin? || a.Update?)
    ensures SameLives(w.st, w1.st)
  {
    hide Inv, SameLives, Words, Refer, Accessed, Sized, Find, Updated, WithMeta, Field, Insert, Delete, Expunged,
         Collect, ClearFrom, Sound;
    InvSized(cfg, w);
    SameLivesSelf(w.st);
    match a
    case FindPin(key, at, t) =>
      var found := Find(w.st, cfg.hash, key, at);
      if found.Some? {
        var st2 :| Accessed(w.st, st2, found.value, at) && w1 == Refer(w.(st := st2), found.value, t);
        AccessLives(w.st, st2, found.value, at);
        ReferLives(w.(st := st2), found.value, t);
        SameLivesTwice(w.st, st2, w1.st);
      }
    case VisitPin(k, i, t) => ReferLives(w, w.st.chains[k][i], t);
    case Unpin(t) => UnpinLives(w.st, w.pins[t].e);
    case Update(key, at, bits, kind) =>
      var found := Find(w.st, cfg.hash, key, at);
      if found.Some? {
        UpdateLives(w.st, found.value, at, bits, kind);
      }
  }

  lemma UnpinLives(st: State, e: nat)
    requires Sized(st)
    ensures SameLives(st, WithMeta(st, e, REFS, Field(ItemAt(st, e), REFS) - 1))
  {
    hide SameLives;
    MetaLives(st, e, REFS, Field(ItemAt(st, e), REFS) - 1);
  }

  lemma SameLivesSelf(st: State)
    ensures SameLives(st, st)
  {
  }

  /** Entries that are made, filled in or given up, and references that are given back, change
      nothing about what is in the lists but reference counts. */
  lemma UnlockedKeeps(cfg: Config, w: World, a: Action, w1: World, e: nat)
    requires Inv(cfg, w) && Next(cfg, w, a, w1) && (a.Create? || a.Write? || a.Discard? || a.Unpin?)
    requires !Unlisted(w.st.chains, e)
    ensures w1.st.chains == w.st.chains
    ensures KeyIn(ItemAt(w1.st, e)) == KeyIn(ItemAt(w.st, e)) && BodyOf(ItemAt(w1.st, e)) == BodyOf(ItemAt(w.st, e))
  {
    hide Inv, Words, ItemOk, Insert, Find, Delete, Expunged, Collect, ClearFrom, KeyIn, BodyOf, Field, Unlisted;
    match a
    case Create(e1, c, t) => NewUnlisted(cfg, w, e1);
    case Write(t, f, x) => LooseUnlisted(cfg, w, w.pins[t].e);
    case Discard(t) => LooseUnlisted(cfg, w, w.pins[t].e);
    case Unpin(t) =>
      InvSized(cfg, w);
      var f := w.pins[t].e;
      if f in w.st.items {
        MetaItem(w.st.items[f], REFS, Field(ItemAt(w.st, f), REFS) - 1);
        MetaBody(w.st.items[f], REFS, Field(ItemAt(w.st, f), REFS) - 1);
      }
  }

  // ----- Steps that change the lists -----

  lemma RemoveLives(cfg: Config, st: State, gone: seq<int>, now: int, key: seq<int>, at: int)
    requires Sound(st, cfg.hash) && Taken(st, cfg.hash, key, at) && key != gone && |st.chains| > 1
    ensures Taken(Delete(st, cfg.hash, gone, now).0, cfg.hash, key, at)
  {
    hide Sound, Delete, Binds, HardExpired, ItemAt;
    DeleteRefines(st, cfg.hash, gone, now);
    var e: nat :| Binds(st, cfg.hash, key, e) && !HardExpired(ItemAt(st, e), at);
    assert Binds(Delete(st, cfg.hash, gone, now).0, cfg.hash, key, e);
  }

  lemma ExpungeLives(cfg: Config, st: State, st1: State, loose: set<nat>, huge: bool, room: bool, t: int, now: int,
                     key: seq<int>, at: int)
    requires Sound(st, cfg.hash) && Taken(st, cfg.hash, key, at)
    requires Expunged(st, st1, loose, huge, room, cfg.cacheTtl, cfg.gcTtl, t, now)
    requires !SlotsEmpty(st1) && !BoundExpired(cfg, st, key, t)
    ensures Taken(st1, cfg.hash, key, at)
  {
    hide Sound, Expunged, Binds, HardExpired, Expired, ItemAt, SlotsEmpty;
    ExpungeOutcome(st, st1, cfg.hash, loose, huge, room, cfg.cacheTtl, cfg.gcTtl, t, now);
    var e: nat :| Binds(st, cfg.hash, key, e) && !HardExpired(ItemAt(st, e), at);
    var c := ItemAt(st, e);
    assert Holds(st, cfg.hash, key, c) && !Expired(c, cfg.cacheTtl, t);
    assert Holds(st1, cfg.hash, key, c);
    var e1: nat :| Binds(st1, cfg.hash, key, e1) && ItemAt(st1, e1) == c;
  }

  /** A store under another key. */
  lemma StoreLives(cfg: Config, st: State, e: nat, exclusive: bool, now: int, key: seq<int>, at: int)
    requires Sound(st, cfg.hash) && Insertable(st, cfg.hash, e) && |st.chains| > 1
    requires Taken(st, cfg.hash, key, at) && KeyIn(ItemAt(st, e)) != key
    requires !BoundExpired(cfg, st, key, Field(ItemAt(st, e), CTIME))
    ensures Taken(Insert(st, cfg.hash, e, exclusive, cfg.cacheTtl, cfg.gcTtl, now).0, cfg.hash, key, at)
  {
    hide Sound, Insertable, Insert, Binds, HardExpired, Expired, ItemAt, KeyIn, Field, Unlisted;
    InsertRefines(st, cfg.hash, e, exclusive, cfg.cacheTtl, cfg.gcTtl, now);
    var st1 := Insert(st, cfg.hash, e, exclusive, cfg.cacheTtl, cfg.gcTtl, now).0;
    var f: nat :| Binds(st, cfg.hash, key, f) && !HardExpired(ItemAt(st, f), at);
    assert Binds(st1, cfg.hash, key, f);
  }

  /** A store under the key itself, successful or not: some entry is bound to the key then. */
  lemma StoreBinds(cfg: Config, st: State, e: nat, exclusive: bool, now: int, key: seq<int>, at: int)
    requires Sound(st, cfg.hash) && Insertable(st, cfg.hash, e) && |st.chains| > 1
    requires KeyIn(ItemAt(st, e)) == key && !HardExpired(ItemAt(st, e), at)
    ensures var (st1, ok) := Insert(st, cfg.hash, e, exclusive, cfg.cacheTtl, cfg.gcTtl, now);
            && (ok ==> Taken(st1, cfg.hash, key, at))
            && (!ok ==> Taken(st, cfg.hash, key, Field(ItemAt(st, e), CTIME))
                        && (Taken(st1, cfg.hash, key, at) <==> Taken(st, cfg.hash, key, at)))
  {
    hide Sound, Insertable, Insert, Binds, HardExpired, Expired, ItemAt, KeyIn, Field, Unlisted;
    InsertRefines(st, cfg.hash, e, exclusive, cfg.cacheTtl, cfg.gcTtl, now);
    var (st1, ok) := Insert(st, cfg.hash, e, exclusive, cfg.cacheTtl, cfg.gcTtl, now);
    if ok {
      assert Binds(st1, cfg.hash, key, e);
    }
  }

  lemma LooseFresh(cfg: Config, w: World, e: nat)
    requires Inv(cfg, w) && e in w.loose && e in w.st.items && ItemOk(cfg.hash, w.st.items[e])
    ensures Insertable(w.st, cfg.hash, e)
  {
    hide Inv, ItemOk, Unlisted;
    LooseUnlisted(cfg, w, e);
  }

  /** A key that is found stays found through every step that may not lose it. */
  lemma StaysLive(cfg: Config, w: World, a: Action, w1: World, key: seq<int>, at: int)
    requires Inv(cfg, w) && Next(cfg, w, a, w1) && Live(cfg, w, key, at) && !MayLose(cfg, w, a, w1, key, at)
    ensures Live(cfg, w1, key, at)
  {
    hide Inv, Words, Refer, Accessed, Sized, Updated, WithMeta, Field, Insert, Delete, Expunged, Collect, ClearFrom,
         Sound, Live, Taken, SameLives, Find, ItemOk, SlotsEmpty, BoundExpired, HardExpired, KeyIn;
    NextInv(cfg, w, a, w1);
    LiveIffTaken(cfg, w, key, at);
    LiveIffTaken(cfg, w1, key, at);
    InvSized(cfg, w);
    match a
    case Create(_, _, _) => MakingLives(cfg, w, a, w1); SameLivesTaken(w.st, w1.st, cfg.hash, key, at);
    case Write(_, _, _) => MakingLives(cfg, w, a, w1); SameLivesTaken(w.st, w1.st, cfg.hash, key, at);
    case Discard(_) => MakingLives(cfg, w, a, w1); SameLivesTaken(w.st, w1.st, cfg.hash, key, at);
    case FindPin(_, _, _) => UsingLives(cfg, w, a, w1); SameLivesTaken(w.st, w1.st, cfg.hash, key, at);
    case VisitPin(_, _, _) => UsingLives(cfg, w, a, w1); SameLivesTaken(w.st, w1.st, cfg.hash, key, at);
    case Unpin(_) => UsingLives(cfg, w, a, w1); SameLivesTaken(w.st, w1.st, cfg.hash, key, at);
    case Update(_, _, _, _) => UsingLives(cfg, w, a, w1); SameLivesTaken(w.st, w1.st, cfg.hash, key, at);
    case Store(t, exclusive, now) =>
      var e := w.pins[t].e;
      LooseFresh(cfg, w, e);
      if KeyIn(ItemAt(w.st, e)) == key {
        StoreBinds(cfg, w.st, e, exclusive, now, key, at);
      } else {
        StoreLives(cfg, w.st, e, exclusive, now, key, at);
      }
    case Remove(gone, now) => RemoveLives(cfg, w.st, gone, now, key, at);
    case Expunge(huge, room, t, now) =>
      ExpungeLives(cfg, w.st, w1.st, w.loose, huge, room, t, now, key, at);
    case Clear(_) =>
  }
}
