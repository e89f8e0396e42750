/** Rebuilds a value from an entry in shared memory: a graph in memory of its own, with exact
    reference counts. */
module Unpersist {
  import opened HeapModel
  import opened Packing
  import opened ValueGraph
  import opened PersistCalc
  import opened CopyState
  import opened RefCount
  import opened Persist
  import opened Reachable
  import opened EntryWords
  import CacheLists
  import CacheModel

  class Rebuilder {
    const words: seq<int>      // the words of the entry, from its value on
    const base: nat            // where the entry is
    const memoize: bool
    ghost const hash: CacheModel.Hash
    ghost const shm: View      // the graph that the words spell
    var heap: Memory
    var next: nat              // where the next object goes
    var copied: map<nat, nat>
    ghost var m: map<nat, nat>
    ghost var seen: set<nat>
    ghost var keys: map<nat, Owner>

    ghost function St(): Copy
      reads this
    {
      Copy(View(heap, 0, EMPTY), m, seen, next, keys)
    }

    ghost predicate Valid()
      reads this
    {
      && CopyOk(shm, St()) && (memoize ==> copied == m) && shm.base == base && EntrySpelled(hash, words, shm)
      && AllUsed(heap)
    }

    constructor (words: seq<int>, base: nat, memoize: bool, ghost hash: CacheModel.Hash, ghost shm: View)
      requires shm.base == base && EntrySpelled(hash, words, shm)
      ensures this.words == words && this.base == base && this.memoize == memoize && this.hash == hash
              && this.shm == shm && Valid()
      ensures heap == map[] && m == map[] && seen == {} && keys == map[]
    {
      this.words, this.base, this.memoize, this.hash, this.shm := words, base, memoize, hash, shm;
      heap, next, copied, m, seen, keys := map[], EMPTY + 1, map[], map[], {}, map[];
    }

    method Alloc(o: Obj) returns (a: nat)
      modifies this`heap, this`next
      ensures a == old(next) && St() == Added(old(St()), o) && heap == old(heap)[a := o]
      ensures old(AllUsed(heap)) && a !in old(heap) && Used(heap, a) ==> AllUsed(heap)
    {
      ghost var h := heap;
      UsedPut(h, next, o);
      a := next;
      heap := heap[a := o];
      next := next + SizeOf(o);
    }

    method Overwrite(a: nat, o: Obj)
      modifies this`heap
      ensures St() == With(old(St()), a, o) && heap == old(heap)[a := o]
      ensures old(AllUsed(heap)) && a in old(heap) && UsedAlike(old(heap)[a], o) ==> AllUsed(heap)
    {
      UsedPut(heap, a, o);
      heap := heap[a := o];
    }

    method Remember(x: nat, a: nat)
      modifies this`copied, this`m, this`seen
      ensures St() == Noted(old(St()), x, a) && heap == old(heap) && (memoize && old(copied == m) ==> copied == m)
    {
      if memoize {
        copied := copied[x := a];
      }
      m, seen := m[x := a], seen + {x};
    }

    /** Where the object was rebuilt before. */
    function Known(x: nat): (a: Option<nat>)
      requires Valid() && (memoize || m == map[])
      reads this
      ensures a == if x in m then Some(m[x]) else None
    {
      if memoize && x in copied then Some(copied[x]) else None
    }

    method RebuildStr(p: nat, ghost r: set<nat>) returns (a: nat)
      requires Valid() && Closed(shm, r) && ValOk(shm, r, Str(p)) && shm.base + p !in m
      modifies this
      ensures Valid() && Grown(shm, old(St()), St(), {}) && shm.base + p in m && m[shm.base + p] == a
              && seen == old(seen) + {shm.base + p}
      ensures OneMore(old(heap), heap, Str(a))
    {
      hide CopyOk, Grown, OneMore, EntrySpelled, ReadText, TextSize, AllUsed;
      var x := base + p;
      ghost var c := St();
      NotSeen(shm, r, c, Str(p));
      TextSpelled(hash, words, shm, p);
      var o := ReadText(words, p);
      FreshNext(shm, c);
      NewText(heap, next, Text(1, o.hash, o.chars), Str(next));
      a := Alloc(Text(1, o.hash, o.chars));
      Remember(x, a);
      TextGrown(shm, c, St(), x);
    }

    method RebuildRef(p: nat, ghost r: set<nat>) returns (a: nat)
      requires Valid() && Closed(shm, r) && LiveIn(shm, r) && ValOk(shm, r, Ref(p)) && memoize && shm.base + p !in m
      modifies this
      ensures Valid() && Grown(shm, old(St()), St(), {}) && shm.base + p in m && m[shm.base + p] == a
              && old(seen) <= seen
      ensures OneMore(old(heap), heap, Ref(a))
      decreases |r - seen|, 0
    {
      hide CopyOk, Grown, OneMore, Closed, ValMatch, ValOk, LiveIn, EntrySpelled, AllUsed;
      var x := base + p;
      ghost var c := St();
      NotSeen(shm, r, c, Ref(p));
      RefTarget(shm, r, p);
      FreshNext(shm, c);
      OneLess(r, seen, x);
      NewCell(heap, next);
      CellStart(shm, c, x, Undef);
      a := Alloc(Cell(1, Undef));
      Remember(x, a);
      ghost var started := heap;
      CellSpelled(hash, words, shm, p);
      var z2 := RebuildZval(ReadRef(words, p).val, r);
      CellThere(shm, c, St(), x, Undef);
      CellDone(shm, c, St(), x, Undef, z2, heap[a].refs);
      CellFilled(c.dst.mem, started, heap, a, z2);
      UsedAt(heap, a);
      Overwrite(a, Cell(heap[a].refs, z2));
    }

    /** Makes a private copy of a key for the bucket `owner`. */
    method RebuildKey(k: nat, ghost lo: nat, ghost owner: Owner) returns (k2: nat)
      requires Valid() && TextAt(shm, k) && lo <= next
      modifies this`heap, this`next, this`keys
      ensures Valid() && Grown(shm, old(St()), St(), {}) && KeyMatch(shm, St().dst, lo, Some(k), Some(k2))
      ensures OneMore(old(heap), heap, Str(k2)) && m == old(m) && seen == old(seen)
      ensures k2 in keys && keys[k2] == owner
    {
      hide CopyOk, Grown, OneMore, EntrySpelled, ReadText, TextSize, AllUsed;
      ghost var c := St();
      KeyAdded(shm, c, lo, k, owner);
      FreshNext(shm, c);
      TextSpelled(hash, words, shm, k);
      var o := ReadText(words, k);
      NewText(heap, next, Text(1, o.hash, o.chars), Str(next));
      k2 := Alloc(Text(1, o.hash, o.chars));
      keys := keys[k2 := owner];
    }

    /** Rebuilds bucket `i` of the array at `x`, whose data was read as `data` and is rebuilt at
        `d`. */
    method RebuildBucket(x: nat, i: nat, d: nat, data: Obj, ghost keyless: bool, ghost c0: Copy, ghost s: Copy,
                         ghost ys: seq<Bucket>, ghost r: set<nat>)
      returns (ghost ys2: seq<Bucket>)
      requires Valid() && Closed(shm, r) && LiveIn(shm, r) && memoize && i < |ys| && d == c0.cur + TABLE_SIZE
               && c0.dst.base == 0
      requires InTable(shm, c0, s, St(), x, i, keyless, ys) && OneMore(c0.dst.mem, heap, Arr(c0.cur))
               && ys[i].val.Undef?
      requires ToRebuild(shm, r, x, i, keyless) && data.Data? && DataAlike(DataOf(shm, x), data)
      modifies this
      ensures Valid() && InTable(shm, c0, s, St(), x, i + 1, keyless, ys2) && OneMore(c0.dst.mem, heap, Arr(c0.cur))
      ensures |ys2| == |ys| && (forall j | i < j < |ys| :: ys2[j] == ys[j]) && old(seen) <= seen
      decreases |r - seen|, 3
    {
      hide CopyOk, Grown, InTable, OneMore, Closed, ValMatch, ValOk, DataOf, LiveTable, KeyMatch, LiveIn, EntrySpelled;
      RebuildReads(shm, r, x, i, keyless);
      InTableParts(shm, c0, s, St(), x, i, keyless, ys);
      var b := data.buckets[i];
      var key: Option<nat> := None;
      ghost var h1 := heap;
      if !data.packed && b.key.Some? {
        ghost var c := St();
        var k := RebuildKey(b.key.value, s.cur, Owner(d, i));
        key := Some(k);
        TableGrown(shm, c0, s, c, x, i, keyless, ys, St());
      } else {
        NoKey(shm, St().dst, s.cur);
      }
      ghost var c1, h2 := St(), heap;
      var z2 := RebuildZval(b.val, r);
      TableGrown(shm, c0, s, c1, x, i, keyless, ys, St());
      if !data.packed {
        KeyKept(shm, c1, St(), s.cur, b.key, key);
      }
      if key.Some? {
        OwnerKept(shm, c1, St(), key.value);
      }
      var y := Bucket(b.h, key, z2);
      TableBucket(shm, c0, s, St(), x, i, keyless, ys, y);
      InTableParts(shm, c0, s, St(), x, i, keyless, ys);
      LiveVal(shm, St().dst, m, b.val, z2);
      BucketFilled(c0.dst.mem, h1, h2, heap, d, i, y, Arr(c0.cur));
      ys2 := ys[i := y];
      UsedAt(heap, d);
      Overwrite(d, Data(data.packed, data.hashBytes, heap[d].buckets[i := y]));
      InTableParts(shm, c0, s, St(), x, i + 1, keyless, ys2);
    }

    /** Rebuilds the buckets of the array at `x`, which was started at `t` with blank buckets. */
    method RebuildBuckets(x: nat, t: nat, data: Obj, ghost keyless: bool, ghost blank: seq<Bucket>, ghost c0: Copy,
                          ghost r: set<nat>)
      requires Valid() && Closed(shm, r) && LiveIn(shm, r) && memoize && t == c0.cur && c0.dst.base == 0
      requires LiveTable(shm, x) && data.Data? && DataAlike(DataOf(shm, x), data)
      requires NodeOk(shm, r, x) && LiveNode(shm, x) && keyless == shm.mem[x].keyless
      requires InTable(shm, c0, St(), St(), x, 0, keyless, blank) && OneMore(c0.dst.mem, heap, Arr(t))
      requires |blank| == |data.buckets| && NoneLive(blank)
      modifies this
      ensures Valid() && Grown(shm, c0, St(), {}) && x in m && m[x] == t && old(seen) <= seen
              && OneMore(c0.dst.mem, heap, Arr(t))
      decreases |r - seen|, 4
    {
      hide CopyOk, Grown, InTable, OneMore, Closed, EmptyArr, LiveIn, NodeOk, LiveNode, LiveTable, DataOf, EntrySpelled,
           AllUsed;
      ghost var s, ys := St(), blank;
      var i := 0;
      while i < |data.buckets|
        invariant i <= |data.buckets| == |ys| && Valid() && s.seen <= seen
        invariant InTable(shm, c0, s, St(), x, i, keyless, ys) && ys[i..] == blank[i..]
        invariant OneMore(c0.dst.mem, heap, Arr(c0.cur))
      {
        assert ys[i] == ys[i..][0] == blank[i];
        if data.buckets[i].val.Undef? {
          TableSkip(shm, c0, s, St(), x, i, keyless, ys);
        } else {
          FewerLeft(r, s.seen, seen);
          ys := RebuildBucket(x, i, t + TABLE_SIZE, data, keyless, c0, s, ys, r);
        }
        i := i + 1;
      }
      TableDone(shm, c0, s, St(), x, keyless, ys);
    }

    method RebuildTable(p: nat, ghost r: set<nat>) returns (a: nat)
      requires Valid() && Closed(shm, r) && LiveIn(shm, r) && ValOk(shm, r, Arr(p)) && memoize && shm.base + p !in m
               && p != shm.mark
      modifies this
      ensures Valid() && Grown(shm, old(St()), St(), {}) && shm.base + p in m && m[shm.base + p] == a
              && old(seen) <= seen
      ensures OneMore(old(heap), heap, Arr(a))
      decreases |r - seen|, 0
    {
      hide CopyOk, Grown, InTable, OneMore, Closed, ValOk, EmptyArr, LiveIn, NodeOk, LiveNode, EntrySpelled, AllUsed;
      var x := base + p;
      ghost var c0 := St();
      TableTarget(shm, r, c0, p);
      OneLess(r, seen, x);
      TableSpelled(hash, words, shm, r, p);
      var table, data := ReadTable(words, p), ReadData(words, p);
      var blank := seq(|data.buckets|, i => Bucket(0, None, Undef));
      TableStart(shm, c0, x, table.keyless, blank);
      a := StartTable(x, table, data, blank);
      RebuildBuckets(x, a, data, table.keyless, blank, c0, r);
    }

    /** Starts an array: a copy of the table, and data whose buckets are not filled in yet. */
    method StartTable(x: nat, table: Obj, data: Obj, blank: seq<Bucket>) returns (t: nat)
      requires Valid() && LiveTable(shm, x) && shm.mem[x].refs == 1 && |blank| == |DataOf(shm, x).buckets|
               && NoneLive(blank)
      requires table == shm.mem[x] && data.Data? && DataAlike(DataOf(shm, x), data)
      modifies this
      ensures t == old(next) && St() == TableStarted(shm, old(St()), x, shm.mem[x].keyless, blank)
      ensures (memoize && old(copied == m) ==> copied == m) && OneMore(old(heap), heap, Arr(t)) && AllUsed(heap)
    {
      hide EmptyArr, CopyOk, OneMore, NoneLive, EntrySpelled, AllUsed;
      FreshNext(shm, St());
      NewTable(heap, next, next + TABLE_SIZE, Table(table.refs, table.packed, table.keyless, next + TABLE_SIZE),
               Data(data.packed, data.hashBytes, blank));
      t := Alloc(Table(table.refs, table.packed, table.keyless, next + TABLE_SIZE));
      Remember(x, t);
      var _ := Alloc(Data(data.packed, data.hashBytes, blank));
    }

    /** One more reference to an object that was rebuilt before. */
    method Refer(z: Zval, a: nat) returns (z2: Zval)
      requires Valid() && (z.Str? || z.Arr? || z.Ref?) && shm.base + z.p in m
               && (z.Arr? ==> z.p == shm.mark || TableAt(shm, z.p))
      requires a == m[shm.base + z.p]
      modifies this`heap
      ensures Valid() && Grown(shm, old(St()), St(), {}) && ValMatch(shm, St().dst, m, z, z2)
              && OneMore(old(heap), heap, z2)
      ensures m == old(m) && seen == old(seen)
    {
      hide CopyOk, Grown, OneMore, ValMatch, TableAt, EntrySpelled, AllUsed;
      z2 := Pointing(z, a);
      KnownVal(shm, St(), z);
      NoKeyHere(shm, St(), shm.base + z.p);
      OneMoreRef(heap, a, z2);
      LikeGrown(shm, St(), a, Bumped(heap[a]));
      UsedAt(heap, a);
      ValKept(shm, St().dst, With(St(), a, Bumped(heap[a])).dst, m, m, z, z2);
      Overwrite(a, Bumped(heap[a]));
    }

    method RebuildZval(z: Zval, ghost r: set<nat>) returns (z2: Zval)
      requires Valid() && Closed(shm, r) && LiveIn(shm, r) && ValOk(shm, r, z) && FlatOr(memoize, z, seen) && !z.Other?
      modifies this
      ensures Valid() && Grown(shm, old(St()), St(), {}) && ValMatch(shm, St().dst, m, z, z2)
              && OneMore(old(heap), heap, z2)
      ensures old(seen) <= seen
      decreases |r - seen|, 2
    {
      hide CopyOk, Grown, OneMore, Closed, LiveIn, NodeOk, EmptyArr, ValMatch, EntrySpelled, AllUsed;
      if z.Undef? || z.Scalar? {
        GrownSelf(shm, St(), {});
        OneMoreNothing(heap, z);
        PlainVal(shm, St().dst, m, z);
        return z;
      }
      NothingKnown(shm, St());
      var known := Known(base + z.p);
      if known.Some? {
        z2 := Refer(z, known.value);
        return;
      }
      match z
      case Str(p) =>
        var a := RebuildStr(p, r);
        KnownVal(shm, St(), z);
        z2 := Str(a);
      case Ref(p) =>
        var a := RebuildRef(p, r);
        KnownVal(shm, St(), z);
        z2 := Ref(a);
      case Arr(p) =>
        z2 := RebuildArr(p, r);
    }

    /** An array without elements is the one that every process has. */
    method RebuildArr(p: nat, ghost r: set<nat>) returns (z2: Zval)
      requires Valid() && Closed(shm, r) && LiveIn(shm, r) && ValOk(shm, r, Arr(p)) && memoize && shm.base + p !in m
      modifies this
      ensures Valid() && Grown(shm, old(St()), St(), {}) && ValMatch(shm, St().dst, m, Arr(p), z2)
              && OneMore(old(heap), heap, z2)
      ensures old(seen) <= seen
      decreases |r - seen|, 1
    {
      hide CopyOk, Grown, OneMore, Closed, LiveIn, ValOk, EmptyArr, Spells, AllUsed;
      if p == 0 {
        GrownSelf(shm, St(), {});
        OneMoreNothing(heap, Arr(EMPTY));
        MarkEmpty(shm);
        z2 := Arr(EMPTY);
      } else {
        ArrayHasElements(shm, r, p);
        var a := RebuildTable(p, r);
        AboveMark(shm, St(), shm.base + p);
        z2 := Arr(a);
      }
    }
  }

  // ----- Nothing is rebuilt in vain -----

  /** The object is referred to, or it is the data of an array. */
  ghost predicate Used(h: Memory, a: nat) {
    a in h &&
    match h[a]
    case Data(_, _, _) =>
      a >= TABLE_SIZE && a - TABLE_SIZE in h && h[a - TABLE_SIZE].Table? && h[a - TABLE_SIZE].data == a
    case Entry(_, _, _) => false
    case _ => h[a].refs > 0
  }

  ghost predicate AllUsed(h: Memory) {
    forall a {:trigger Used(h, a)} | a in h :: Used(h, a)
  }

  /** The objects differ in their contents and counts only. */
  ghost predicate UsedAlike(o: Obj, o1: Obj) {
    match o
    case Text(_, _, _) => o1.Text? && o1.refs > 0
    case Cell(_, _) => o1.Cell? && o1.refs > 0
    case Table(_, _, _, data) => o1.Table? && o1.refs > 0 && o1.data == data
    case Data(_, _, _) => o1.Data?
    case _ => false
  }

  lemma UsedPut(h: Memory, a: nat, o: Obj)
    ensures AllUsed(h) && a !in h && Used(h[a := o], a) ==> AllUsed(h[a := o])
    ensures AllUsed(h) && a in h && UsedAlike(h[a], o) ==> AllUsed(h[a := o])
  {
    var h1 := h[a := o];
    if AllUsed(h) && (if a in h then UsedAlike(h[a], o) else Used(h1, a)) {
      forall b | b in h1
        ensures Used(h1, b)
      {
        assert a in h ==> Used(h, a);
        assert b in h ==> Used(h, b);
      }
    }
  }

  lemma UsedAt(h: Memory, a: nat)
    requires AllUsed(h) && a in h
    ensures Used(h, a)
  {
  }

  // ----- What is read from the words -----

  lemma TextSpelled(hash: CacheModel.Hash, words: seq<int>, v: View, p: nat)
    requires EntrySpelled(hash, words, v) && TextAt(v, p)
    ensures ReadText(words, p) == v.mem[v.base + p]
  {
    TextRead(hash, words, v, p);
  }

  lemma CellSpelled(hash: CacheModel.Hash, words: seq<int>, v: View, p: nat)
    requires EntrySpelled(hash, words, v) && CellAt(v, p)
    ensures ReadRef(words, p) == v.mem[v.base + p]
  {
    CellRead(hash, words, v, p);
  }

  lemma TableSpelled(hash: CacheModel.Hash, words: seq<int>, v: View, r: set<nat>, p: nat)
    requires EntrySpelled(hash, words, v) && NodeOk(v, r, v.base + p) && LiveTable(v, v.base + p)
    ensures ReadTable(words, p) == v.mem[v.base + p] && DataAlike(DataOf(v, v.base + p), ReadData(words, p))
  {
    hide EmptyArr, ValOk, ReadTable, ReadData, DataAlike, Spells;
    HeadRead(hash, words, v, p);
    DataRead(hash, words, v, p);
  }

  // ----- What entries in shared memory look like -----

  ghost predicate LiveNode(v: View, a: nat) {
    && a in v.mem
    && (v.mem[a].Table? ==>
          && LiveTable(v, a) && v.mem[a].refs == 1 && NoOther(DataOf(v, a).buckets)
          && (v.mem[a].keyless && !v.mem[a].packed ==> Keyless(DataOf(v, a).buckets)))
    && (v.mem[a].Cell? ==> !v.mem[a].val.Other?)
  }

  ghost predicate NoOther(bs: seq<Bucket>) {
    forall i | 0 <= i < |bs| :: !bs[i].val.Other?
  }

  /** Arrays without elements are not stored, reference counts are one, and an array that is
      marked so has no string keys. */
  ghost predicate LiveIn(v: View, r: set<nat>) {
    forall a {:trigger LiveNode(v, a)} | a in r :: LiveNode(v, a)
  }

  lemma NoKeyHere(v: View, c: Copy, x: nat)
    requires CopyOk(v, c) && x in c.m
    ensures c.m[x] !in c.keys
  {
    hide Room, CopiesPlaced;
  }

  lemma NothingKnown(v: View, c: Copy)
    requires CopyOk(v, c)
    ensures c.seen == {} ==> c.m == map[]
  {
    hide Room, Injective;
  }

  lemma RefTarget(v: View, r: set<nat>, p: nat)
    requires Closed(v, r) && LiveIn(v, r) && ValOk(v, r, Ref(p))
    ensures v.base + p in r && CellAt(v, p) && ValOk(v, r, v.mem[v.base + p].val) && !v.mem[v.base + p].val.Other?
  {
    assert NodeOk(v, r, v.base + p) && LiveNode(v, v.base + p);
  }

  ghost predicate ToRebuild(v: View, r: set<nat>, x: nat, i: nat, keyless: bool) {
    && LiveTable(v, x) && NodeOk(v, r, x) && LiveNode(v, x) && keyless == v.mem[x].keyless
    && i < |DataOf(v, x).buckets| && !DataOf(v, x).buckets[i].val.Undef?
  }

  lemma RebuildReads(v: View, r: set<nat>, x: nat, i: nat, keyless: bool)
    requires ToRebuild(v, r, x, i, keyless)
    ensures LiveTable(v, x) && x in v.mem && v.mem[x].Table? && v.base + v.mem[x].data in v.mem
            && v.mem[v.base + v.mem[x].data] == DataOf(v, x)
    ensures i < |DataOf(v, x).buckets| && !DataOf(v, x).buckets[i].val.Undef? && !DataOf(v, x).buckets[i].val.Other?
    ensures var b := DataOf(v, x).buckets[i];
            && ValOk(v, r, b.val) && (!DataOf(v, x).packed && b.key.Some? ==> TextAt(v, b.key.value))
            && (keyless && !DataOf(v, x).packed ==> b.key.None?)
  {
    hide ValOk, EmptyArr, NodeOk, DataOf;
    BucketReads(v, r, x, i);
  }

  lemma PlainVal(v: View, dst: View, m: map<nat, nat>, z: Zval)
    requires z.Undef? || z.Scalar?
    ensures ValMatch(v, dst, m, z, z)
  {
  }

  lemma LiveVal(v: View, dst: View, m: map<nat, nat>, z: Zval, z2: Zval)
    requires ValMatch(v, dst, m, z, z2) && !z.Undef?
    ensures !z2.Undef?
  {
    hide EmptyArr;
  }

  lemma TableTarget(v: View, r: set<nat>, c: Copy, p: nat)
    requires Closed(v, r) && LiveIn(v, r) && ValOk(v, r, Arr(p)) && p != v.mark && CopyOk(v, c) && v.base + p !in c.m
    ensures var x := v.base + p;
            && x in r && x !in c.seen && TableFree(v, c, x) && NodeOk(v, r, x) && LiveNode(v, x)
            && v.mem[v.base + v.mem[x].data] == DataOf(v, x) && v.mem[x].refs == 1 && c.dst.base < c.cur
  {
    hide EmptyArr, Room, BucketsOk;
    assert NodeOk(v, r, v.base + p) && LiveNode(v, v.base + p);
    LivePlaceable(v, v.base + p);
  }

  lemma ArrayHasElements(v: View, r: set<nat>, p: nat)
    requires Closed(v, r) && LiveIn(v, r) && ValOk(v, r, Arr(p)) && p != v.mark
    ensures !EmptyArr(v, p)
  {
    hide EmptyArr;
    assert LiveNode(v, v.base + p);
  }

  lemma AboveMark(v: View, c: Copy, x: nat)
    requires CopyOk(v, c) && x in c.m
    ensures c.dst.base + c.dst.mark < c.m[x]
  {
    hide Room;
  }

  // ----- The whole entry -----

  /** Rebuilds the value of the entry at `base` from its words, which spell some graph. */
  method UnpersistEntry(words: seq<int>, base: nat, ghost hash: CacheModel.Hash, ghost shm: View, ghost r: set<nat>)
    returns (heap: Memory, root: Zval, ghost n: map<nat, nat>)
    requires shm.base == base && Reads(hash, words, shm, r) && LiveIn(shm, r)
    requires !shm.mem[base].val.Other? && !shm.mem[base].val.Ref?
    ensures Isomorphic(shm, shm.mem[shm.base].val, View(heap, 0, EMPTY), root, n)
    ensures ExactRefs(heap, root) && AllUsed(heap)
    ensures KeysPrivate(View(heap, 0, EMPTY), n) && KeysPointedOnce(heap, n, root)
  {
    hide Closed, LiveIn, ValOk, ValMatch, CopyOk, Grown, OneMore, KeysPrivate, KeysPointedOnce, ExactRefs, Spells;
    EntryRead(hash, words, shm);
    var z := ReadVal(words, 0);
    var rebuilder := new Rebuilder(words, base, z.Arr?, hash, shm);
    ghost var c := rebuilder.St();
    root := rebuilder.RebuildZval(z, r);
    heap, n := rebuilder.heap, rebuilder.m;
    RebuiltIsomorphic(shm, c, rebuilder.St(), z, root);
    ExactFromNothing(heap, root);
    PrivatePointedOnce(heap, n, root);
  }

  lemma RebuiltIsomorphic(shm: View, c: Copy, c2: Copy, z: Zval, z2: Zval)
    requires c.m == map[] && Grown(shm, c, c2, {}) && CopyOk(shm, c2) && ValMatch(shm, c2.dst, c2.m, z, z2)
    ensures Isomorphic(shm, z, c2.dst, z2, c2.m) && KeysPrivate(c2.dst, c2.m)
    ensures forall x, i, q | KeyIs(c2.dst, c2.m, x, i, q) :: c2.dst.mark < q
  {
    hide Room, Done, ValMatch, KeysApart, KeysPrivate, KeyIs;
    forall x | x in c2.m
      ensures Done(shm, c2, 0, x)
    {
      assert Done(shm, c2, c.cur, x);
      DoneLower(shm, c2, c.cur, 0, x);
    }
    AllMatch(shm, c2);
    CopiedPrivate(shm, c2);
  }

  // ----- Private keys have one reference, and one pointer -----

  /** Nothing but its bucket points to a key. */
  ghost predicate KeysPointedOnce(h: Memory, m: map<nat, nat>, root: Zval) {
    forall x, i, q | KeyIs(View(h, 0, EMPTY), m, x, i, q) :: Pointers(h, q) == 1 && Hits(root, q) == 0
  }

  lemma {:induction false} KeyHit(packed: bool, bs: seq<Bucket>, i: nat, q: nat)
    requires i < |bs| && BucketHits(packed, bs[i], q) > 0
    ensures ListHits(packed, bs, q) > 0
  {
    hide BucketHits;
    if i > 0 {
      KeyHit(packed, bs[1..], i - 1, q);
    }
  }

  lemma KeyPointed(h: Memory, m: map<nat, nat>, x: nat, i: nat, q: nat)
    requires KeyIs(View(h, 0, EMPTY), m, x, i, q)
    ensures Pointers(h, q) > 0
  {
    hide Pointers, ListHits;
    var d := h[m[x]].data;
    KeyHit(h[d].packed, h[d].buckets, i, q);
    PointersRemove(h, d, q);
  }

  lemma PrivatePointedOnce(h: Memory, m: map<nat, nat>, root: Zval)
    requires ExactRefs(h, root) && KeysPrivate(View(h, 0, EMPTY), m)
    requires forall x, i, q | KeyIs(View(h, 0, EMPTY), m, x, i, q) :: EMPTY < q
    ensures KeysPointedOnce(h, m, root)
  {
    hide Pointers, KeyIs, Hits;
    forall x, i, q | KeyIs(View(h, 0, EMPTY), m, x, i, q)
      ensures Pointers(h, q) == 1 && Hits(root, q) == 0
    {
      KeyPointed(h, m, x, i, q);
      assert RefsOf(h, q) == Pointers(h, q) + Hits(root, q);
    }
  }

  // ----- Persisting and unpersisting -----

  lemma LiveCopy(src: View, dst: View, m: map<nat, nat>, x: nat)
    requires Match(src, dst, m, 0, x) && dst.mark == 0 && dst.base < m[x]
             && (dst.mem[m[x]].Table? ==> dst.mem[m[x]].refs == 1)
    ensures LiveNode(dst, m[x])
  {
    hide KeyMatch;
    if src.mem[x].Table? {
      var xs, ys := src.mem[src.base + src.mem[x].data].buckets, dst.mem[dst.base + dst.mem[m[x]].data].buckets;
      var packed := src.mem[x].packed;
      assert forall i | 0 <= i < |xs| :: BucketMatch(src, dst, m, 0, packed, xs[i], ys[i]);
      hide ValMatch, EmptyArr;
      OneIsLive(src, dst, m, packed, xs, ys);
      EmptyHere(dst, m[x]);
      forall i | 0 <= i < |ys|
        ensures !ys[i].val.Other?
      {
        NotOther(src, dst, m, packed, xs[i], ys[i]);
      }
    } else if src.mem[x].Cell? {
      NotOtherVal(src, dst, m, src.mem[x].val, dst.mem[m[x]].val);
    }
  }

  lemma OneIsLive(src: View, dst: View, m: map<nat, nat>, packed: bool, xs: seq<Bucket>, ys: seq<Bucket>)
    requires BucketsMatch(src, dst, m, 0, packed, xs, ys) && !NoneLive(xs)
    ensures !NoneLive(ys)
  {
    hide KeyMatch;
    var i :| 0 <= i < |xs| && !xs[i].val.Undef?;
    assert BucketMatch(src, dst, m, 0, packed, xs[i], ys[i]);
    LiveVal(src, dst, m, xs[i].val, ys[i].val);
  }

  lemma EmptyHere(v: View, a: nat)
    requires v.mark == 0 && v.base < a && TableAt(v, a - v.base) && !NoneLive(v.mem[v.base + v.mem[a].data].buckets)
    ensures LiveTable(v, a) && DataOf(v, a) == v.mem[v.base + v.mem[a].data]
  {
  }

  lemma NotOtherVal(src: View, dst: View, m: map<nat, nat>, z: Zval, z2: Zval)
    requires ValMatch(src, dst, m, z, z2)
    ensures !z2.Other?
  {
    hide EmptyArr;
  }

  lemma NotOther(src: View, dst: View, m: map<nat, nat>, packed: bool, x: Bucket, y: Bucket)
    requires BucketMatch(src, dst, m, 0, packed, x, y)
    ensures !y.val.Other?
  {
    hide KeyMatch, ValMatch;
    if !x.val.Undef? {
      NotOtherVal(src, dst, m, x.val, y.val);
    }
  }

  /** A persisted entry can be rebuilt, wherever it is by now. */
  lemma EntryReadable(src: View, r: set<nat>, z: Zval, dst: View, key: seq<Byte>, size: nat, m: map<nat, nat>, w: View)
    requires EntryOf(src, z, dst, key, size, m) && Closed(src, r) && ValOk(src, r, z) && m.Keys <= r && !z.Ref?
    requires OneRefs(dst.mem) && Elsewhere(dst, w)
    ensures w.base in w.mem && w.mem[w.base].Entry? && w.mem[w.base].val == dst.mem[dst.base].val
    ensures var z2, m2 := w.mem[w.base].val, Shift(m, dst.base, w.base);
            && Closed(w, m2.Values) && LiveIn(w, m2.Values) && ValOk(w, m2.Values, z2) && !z2.Other? && !z2.Ref?
            && Isomorphic(src, z, w, z2, m2)
  {
    hide Closed, ValOk, ValMatch, Match, OneRefs, Shift, LiveNode, Injective;
    ElsewhereAt(dst, w, 0);
    var z2, m2 := dst.mem[dst.base].val, Shift(m, dst.base, w.base);
    ElsewhereIsomorphic(src, z, dst, z2, w, m);
    ShiftAbove(m, dst.base, w.base);
    CopyClosed(src, r, z, w, z2, m2);
    NotRef(src, w, m2, z, z2);
    forall a | a in m2.Values
      ensures LiveNode(w, a)
    {
      var x :| x in m2 && m2[x] == a;
      assert Match(src, w, m2, 0, x);
      OneRefElsewhere(dst, w, a);
      MatchedIn(src, w, m2, x);
      LiveCopy(src, w, m2, x);
    }
  }

  lemma ShiftAbove(m: map<nat, nat>, b: nat, base: nat)
    requires forall x | x in m :: b < m[x]
    ensures forall x | x in Shift(m, b, base) :: base < Shift(m, b, base)[x]
  {
  }

  lemma NotRef(src: View, w: View, m: map<nat, nat>, z: Zval, z2: Zval)
    requires ValMatch(src, w, m, z, z2) && !z.Ref?
    ensures !z2.Other? && !z2.Ref?
  {
    hide EmptyArr;
  }

  lemma OneRefElsewhere(dst: View, w: View, a: nat)
    requires OneRefs(dst.mem) && Elsewhere(dst, w)
    ensures a in w.mem && w.mem[a].Table? ==> w.mem[a].refs == 1
  {
    if a in w.mem {
      ElsewhereAt(dst, w, a - w.base);
      assert OneRef(dst.mem[dst.base + (a - w.base)]);
    }
  }

  lemma PointedThen(h: Memory, m: map<nat, nat>, n: map<nat, nat>, root: Zval)
    requires KeysPointedOnce(h, n, root)
    ensures KeysPointedOnce(h, Then(m, n), root)
  {
    hide Pointers, Hits;
    forall x, i, q | KeyIs(View(h, 0, EMPTY), Then(m, n), x, i, q)
      ensures KeyIs(View(h, 0, EMPTY), n, m[x], i, q)
    {
    }
  }

  lemma EntryElsewhere(src: View, z: Zval, dst: View, key: seq<Byte>, size: nat, m: map<nat, nat>)
    requires EntryOf(src, z, dst, key, size, m)
    ensures Elsewhere(dst, dst) && dst.base in dst.mem && dst.mem[dst.base].Entry? && dst.mark == 0
  {
    hide Isomorphic;
  }

  lemma EntryFirst(src: View, z: Zval, dst: View, key: seq<Byte>, size: nat, m: map<nat, nat>)
    requires EntryOf(src, z, dst, key, size, m) && Room(dst, dst.base + size)
    ensures BehindMeta(dst) && size >= 8 * CacheLists.VAL && dst.base in dst.mem && dst.mem[dst.base].Entry?
            && dst.mem[dst.base].key == key && dst.mark == 0 && Behind(dst)
  {
    hide Isomorphic;
  }

  /** The words of an entry, read at the place `base`. */
  lemma MovedReads(hash: CacheModel.Hash, body: seq<int>, src: View, r: set<nat>, z: Zval, dst: View, key: seq<Byte>,
                   size: nat, m: map<nat, nat>, base: nat)
    requires EntryOf(src, z, dst, key, size, m) && Closed(src, r) && ValOk(src, r, z) && m.Keys <= r && !z.Ref?
    requires OneRefs(dst.mem) && Spells(hash, body, dst)
    ensures var w := MovedTo(dst, base);
            var z2, m2 := w.mem[base].val, Shift(m, dst.base, base);
            && w.base == base && Reads(hash, body, w, m2.Values) && LiveIn(w, m2.Values) && !z2.Other? && !z2.Ref?
            && Isomorphic(src, z, w, z2, m2)
  {
    hide Isomorphic, Closed, ValOk, OneRefs, Spells, MovedTo, Shift, Elsewhere, LiveIn;
    EntryElsewhere(src, z, dst, key, size, m);
    MovedElsewhere(dst, base);
    var w := MovedTo(dst, base);
    EntryReadable(src, r, z, dst, key, size, m, w);
    MovedSpells(hash, body, dst, w);
    SameMark(dst, w);
  }

  lemma SameMark(v: View, w: View)
    requires Elsewhere(v, w)
    ensures w.mark == v.mark
  {
  }

  /** The round trip: the value of a persisted entry is rebuilt from its words, at whatever base
      they are found, as a graph that is the same as the original, with exact reference counts
      and private keys. */
  method FetchValue(words: seq<int>, base: nat, ghost hash: CacheModel.Hash, ghost src: View, ghost r: set<nat>,
                    ghost z: Zval, ghost dst: View, ghost key: seq<Byte>, ghost size: nat, ghost m: map<nat, nat>)
    returns (heap: Memory, root: Zval, ghost f: map<nat, nat>)
    requires EntryOf(src, z, dst, key, size, m) && Closed(src, r) && ValOk(src, r, z) && m.Keys <= r && !z.Ref?
    requires OneRefs(dst.mem) && Spells(hash, words, dst)
    ensures Isomorphic(src, z, View(heap, 0, EMPTY), root, f) && ExactRefs(heap, root) && AllUsed(heap)
    ensures KeysPrivate(View(heap, 0, EMPTY), f) && KeysPointedOnce(heap, f, root)
  {
    hide Closed, ValOk, ValMatch, Match, OneRefs, Shift, LiveIn, Injective, EntryOf, Elsewhere, ExactRefs, KeysPrivate,
         KeysPointedOnce, MovedTo, Spells;
    MovedReads(hash, words, src, r, z, dst, key, size, m, base);
    ghost var w, m2 := MovedTo(dst, base), Shift(m, dst.base, base);
    ghost var n: map<nat, nat>;
    heap, root, n := UnpersistEntry(words, base, hash, w, m2.Values);
    f := Then(m2, n);
    PrivateThen(View(heap, 0, EMPTY), m2, n);
    PointedThen(heap, m2, n, root);
    IsomorphicThen(src, z, w, w.mem[base].val, View(heap, 0, EMPTY), root, m2, n);
  }

  /** Persisting a value at one address and fetching it from its words at any other: succeeds
      exactly if no object and no resource is reachable from the value, and then gives the same
      graph, with exact reference counts and private keys. */
  method StoreAndFetch(hash: CacheModel.Hash, src: View, key: seq<Byte>, z: Zval, base: nat, base2: nat,
                       ghost r: set<nat>)
    returns (outcome: Outcome, heap: Memory, root: Zval, ghost f: map<nat, nat>)
    requires Closed(src, r) && ValOk(src, r, z) && !z.Ref?
    ensures outcome.Fine? <==> Plain(src, z)
    ensures outcome.Fine? ==>
              && Isomorphic(src, z, View(heap, 0, EMPTY), root, f) && ExactRefs(heap, root) && AllUsed(heap)
              && KeysPrivate(View(heap, 0, EMPTY), f) && KeysPointedOnce(heap, f, root)
  {
    hide Closed, ValOk, Plain, EntryOf, OneRefs, Isomorphic, ExactRefs, KeysPrivate, KeysPointedOnce, Room, CalcVal,
         Bytes, Spells, BehindMeta, WordAligned;
    heap, root, f := map[], Undef, map[];
    var size: nat;
    size, outcome := Measure(src, key, z, r);
    if outcome.Fine? {
      var mem: Memory;
      ghost var m: map<nat, nat>;
      mem, m := CreateEntry(src, key, z, base, size, r);
      EntryFirst(src, z, View(mem, base, 0), key, size, m);
      var words := Lay(hash, View(mem, base, 0), size / 8 - CacheLists.VAL);
      heap, root, f := FetchValue(words, base2, hash, src, r, z, View(mem, base, 0), key, size, m);
    }
  }
}
