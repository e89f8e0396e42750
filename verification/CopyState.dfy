/** Copying a graph, as a state: the copy so far, where the objects were copied to, and where
    the next one goes.  Both directions, into shared memory and out of it, are such copies. */
module CopyState {
  import opened HeapModel
  import opened ValueGraph
  import opened PersistCalc

  /** The bucket that a copied key belongs to: its array's data and its position there. */
  datatype Owner = Owner(data: nat, i: nat)

  datatype Copy = Copy(dst: View, m: map<nat, nat>, seen: set<nat>, cur: nat, keys: map<nat, Owner>)

  function SizeOf(o: Obj): nat {
    match o
    case Text(_, _, cs) => TextSize(|cs|)
    case Cell(_, _) => CELL_SIZE
    case Table(_, _, _, _) => TABLE_SIZE
    case Data(packed, hashBytes, bs) => DataSize(packed, hashBytes, |bs|)
    case Entry(key, _, _) => EntrySize(|key|)
  }

  /** The objects lie one behind the other below `cur`. */
  ghost predicate Room(dst: View, cur: nat) {
    && (forall a | a in dst.mem :: dst.base <= a < cur && a + SizeOf(dst.mem[a]) <= cur)
    && (forall a, b | a in dst.mem && b in dst.mem && a < b :: a + SizeOf(dst.mem[a]) <= b)
  }

  /** Everything but arrays without elements is copied. */
  ghost predicate Placeable(src: View, x: nat) {
    x in src.mem && x != src.base + src.mark && (src.mem[x].Table? ==> src.base <= x && !EmptyArr(src, x - src.base))
  }

  /** Objects that pointers are counted to. */
  predicate Shared(o: Obj) {
    o.Text? || o.Cell? || o.Table?
  }

  ghost predicate CopiesPlaced(src: View, c: Copy) {
    && Injective(c.m)
    && (forall x | x in c.m ::
        c.dst.base + c.dst.mark < c.m[x] < c.cur && c.m[x] in c.dst.mem && Shared(c.dst.mem[c.m[x]]))
    && (forall x {:trigger x in c.m} :: x in c.m <==> x in c.seen && Placeable(src, x))
  }

  /** The copied keys are strings that no value points to. */
  ghost predicate KeysApart(c: Copy) {
    && (forall q | q in c.keys ::
          c.dst.base + c.dst.mark < q && q in c.dst.mem && c.dst.mem[q].Text? && c.dst.mem[q].refs == 1)
    && (forall x | x in c.m :: c.m[x] !in c.keys)
  }

  ghost predicate CopyOk(src: View, c: Copy) {
    c.dst.base + c.dst.mark < c.cur && Room(c.dst, c.cur) && CopiesPlaced(src, c) && KeysApart(c)
  }

  // ----- Each key belongs to one bucket -----

  ghost predicate BucketOwned(base: nat, keys: map<nat, Owner>, d: nat, i: nat, packed: bool, b: Bucket) {
    !b.val.Undef? && !packed && b.key.Some? ==> base + b.key.value in keys && keys[base + b.key.value] == Owner(d, i)
  }

  ghost predicate BucketsOwned(base: nat, keys: map<nat, Owner>, d: nat, packed: bool, bs: seq<Bucket>, n: nat) {
    n <= |bs| && forall i: nat | i < n :: BucketOwned(base, keys, d, i, packed, bs[i])
  }

  /** The keys of the array at `y`, if there is one, are its own. */
  ghost predicate TableOwned(b: View, keys: map<nat, Owner>, lo: nat, y: nat) {
    y in b.mem && b.mem[y].Table? ==>
      var d := b.base + b.mem[y].data;
      lo <= d && d == y + TABLE_SIZE && d in b.mem && b.mem[d].Data?
          && BucketsOwned(b.base, keys, d, b.mem[d].packed, b.mem[d].buckets, |b.mem[d].buckets|)
  }

  /** The object `x` is copied, with keys of its own. */
  ghost predicate Done(src: View, c: Copy, lo: nat, x: nat) {
    Match(src, c.dst, c.m, lo, x) && TableOwned(c.dst, c.keys, lo, c.m[x])
  }

  /** The same object, but for how often it is referred to. */
  ghost predicate Like(o: Obj, o2: Obj) {
    match o
    case Text(_, h, cs) => o2.Text? && o2.hash == h && o2.chars == cs
    case Cell(_, z) => o2.Cell? && o2.val == z
    case Table(_, packed, keyless, data) => o2.Table? && o2.packed == packed && o2.keyless == keyless && o2.data == data
    case _ => o2 == o
  }

  ghost predicate KeptBut(b: View, b2: View, own: set<nat>) {
    && b2.base == b.base && b2.mark == b.mark
    && forall a | a in b.mem && a !in own :: a in b2.mem && Like(b.mem[a], b2.mem[a])
  }

  ghost predicate MapKept<T(!new)>(m: map<nat, T>, m2: map<nat, T>) {
    forall x | x in m :: x in m2 && m2[x] == m[x]
  }

  /** From `c` to `c2` objects were copied; of those that were there before only `own` may
      have changed, apart from reference counts. */
  ghost predicate Grown(src: View, c: Copy, c2: Copy, own: set<nat>) {
    && KeptBut(c.dst, c2.dst, own) && MapKept(c.m, c2.m) && MapKept(c.keys, c2.keys) && c.cur <= c2.cur
    && forall x {:trigger Done(src, c2, c.cur, x)} | x in c2.m && x !in c.m :: Done(src, c2, c.cur, x)
  }

  lemma ValKept(src: View, b: View, b2: View, m: map<nat, nat>, m2: map<nat, nat>, z: Zval, z2: Zval)
    requires ValMatch(src, b, m, z, z2) && MapKept(m, m2) && b2.base == b.base && b2.mark == b.mark
    ensures ValMatch(src, b2, m2, z, z2)
  {
    hide EmptyArr;
  }

  lemma BucketKept(src: View, b: View, b2: View, m: map<nat, nat>, m2: map<nat, nat>, lo: nat, lo2: nat, own: set<nat>,
                   packed: bool, x: Bucket, y: Bucket)
    requires BucketMatch(src, b, m, lo, packed, x, y) && MapKept(m, m2) && KeptBut(b, b2, own) && lo2 <= lo
    requires forall a | a in own :: a < lo
    ensures BucketMatch(src, b2, m2, lo2, packed, x, y)
  {
    hide EmptyArr, ValMatch;
    if !x.val.Undef? {
      ValKept(src, b, b2, m, m2, x.val, y.val);
    }
  }

  lemma BucketsKept(src: View, b: View, b2: View, m: map<nat, nat>, m2: map<nat, nat>, lo: nat, lo2: nat, own: set<nat>,
                    packed: bool, xs: seq<Bucket>, ys: seq<Bucket>, i: nat)
    requires i <= |xs| == |ys| && forall j | 0 <= j < i :: BucketMatch(src, b, m, lo, packed, xs[j], ys[j])
    requires MapKept(m, m2) && KeptBut(b, b2, own) && lo2 <= lo && forall a | a in own :: a < lo
    ensures forall j | 0 <= j < i :: BucketMatch(src, b2, m2, lo2, packed, xs[j], ys[j])
  {
    hide BucketMatch;
    forall j | 0 <= j < i
      ensures BucketMatch(src, b2, m2, lo2, packed, xs[j], ys[j])
    {
      BucketKept(src, b, b2, m, m2, lo, lo2, own, packed, xs[j], ys[j]);
    }
  }

  /** What was copied stays a copy while others are copied. */
  lemma MatchKept(src: View, b: View, b2: View, m: map<nat, nat>, m2: map<nat, nat>, lo: nat, lo2: nat, own: set<nat>,
                  x: nat)
    requires Match(src, b, m, lo, x) && MapKept(m, m2) && KeptBut(b, b2, own) && lo2 <= lo
    requires forall a | a in own :: a < lo
    ensures Match(src, b2, m2, lo2, x)
  {
    hide EmptyArr, ValMatch, BucketMatch;
    if src.mem[x].Cell? {
      ValKept(src, b, b2, m, m2, src.mem[x].val, b.mem[m[x]].val);
    } else if src.mem[x].Table? {
      var xs, ys := src.mem[src.base + src.mem[x].data].buckets, b.mem[b.base + b.mem[m[x]].data].buckets;
      BucketsKept(src, b, b2, m, m2, lo, lo2, own, src.mem[x].packed, xs, ys, |xs|);
    }
  }

  lemma OwnedKept(b: View, b2: View, keys: map<nat, Owner>, keys2: map<nat, Owner>, lo: nat, lo2: nat, own: set<nat>,
                  y: nat)
    requires TableOwned(b, keys, lo, y) && y in b.mem && lo <= y && lo2 <= lo && KeptBut(b, b2, own)
             && MapKept(keys, keys2)
    requires forall a | a in own :: a < lo
    ensures TableOwned(b2, keys2, lo2, y)
  {
  }

  lemma DoneKept(src: View, c: Copy, c2: Copy, lo: nat, lo2: nat, own: set<nat>, x: nat)
    requires Done(src, c, lo, x) && MapKept(c.m, c2.m) && MapKept(c.keys, c2.keys) && KeptBut(c.dst, c2.dst, own)
             && lo2 <= lo
    requires forall a | a in own :: a < lo
    ensures Done(src, c2, lo2, x)
  {
    hide Match, KeptBut, MapKept, TableOwned;
    MatchPlace(src, c.dst, c.m, lo, x);
    assert c2.m[x] == c.m[x] by {
      MapAt(c.m, c2.m, x);
    }
    MatchKept(src, c.dst, c2.dst, c.m, c2.m, lo, lo2, own, x);
    OwnedKept(c.dst, c2.dst, c.keys, c2.keys, lo, lo2, own, c.m[x]);
  }

  lemma MapAt(m: map<nat, nat>, m2: map<nat, nat>, x: nat)
    requires MapKept(m, m2) && x in m
    ensures x in m2 && m2[x] == m[x]
  {
  }

  lemma MatchPlace(src: View, b: View, m: map<nat, nat>, lo: nat, x: nat)
    requires Match(src, b, m, lo, x)
    ensures x in m && m[x] in b.mem && lo <= m[x]
  {
  }

  lemma SameKept(c: Copy)
    ensures KeptBut(c.dst, c.dst, {}) && MapKept(c.m, c.m) && MapKept(c.keys, c.keys)
  {
  }

  lemma GrownSelf(src: View, c: Copy, own: set<nat>)
    ensures Grown(src, c, c, own)
  {
    SameKept(c);
  }

  lemma KeptTrans(b: View, b1: View, b2: View, own: set<nat>, own1: set<nat>)
    requires KeptBut(b, b1, own) && KeptBut(b1, b2, own1)
    ensures KeptBut(b, b2, own + own1)
  {
  }

  /** Copying on; the objects `own` are older than anything that was copied since `c`. */
  lemma GrownTrans(src: View, c: Copy, c1: Copy, c2: Copy, own: set<nat>)
    requires Grown(src, c, c1, own) && Grown(src, c1, c2, {})
    ensures Grown(src, c, c2, own)
  {
    hide Done, KeptBut;
    KeptTrans(c.dst, c1.dst, c2.dst, own, {});
    assert own + {} == own;
    forall x | x in c2.m && x !in c.m
      ensures Done(src, c2, c.cur, x)
    {
      if x in c1.m {
        DoneKept(src, c1, c2, c.cur, c.cur, {}, x);
      } else {
        assert Done(src, c2, c1.cur, x);
        DoneLower(src, c2, c1.cur, c.cur, x);
      }
    }
  }

  lemma DoneLower(src: View, c: Copy, lo: nat, lo2: nat, x: nat)
    requires Done(src, c, lo, x) && lo2 <= lo
    ensures Done(src, c, lo2, x)
  {
    hide Done;
    SameKept(c);
    DoneKept(src, c, c, lo, lo2, {}, x);
  }

  // ----- Single objects -----

  ghost function With(c: Copy, a: nat, o: Obj): Copy {
    c.(dst := c.dst.(mem := c.dst.mem[a := o]))
  }

  /** A new object behind all others. */
  ghost function Added(c: Copy, o: Obj): Copy {
    With(c, c.cur, o).(cur := c.cur + SizeOf(o))
  }

  /** `a` is the copy of `x`. */
  ghost function Noted(c: Copy, x: nat, a: nat): Copy {
    c.(m := c.m[x := a], seen := c.seen + {x})
  }

  lemma AddedOk(src: View, c: Copy, o: Obj)
    requires CopyOk(src, c) && SizeOf(o) > 0
    ensures CopyOk(src, Added(c, o)) && Grown(src, c, Added(c, o), {}) && c.cur !in c.dst.mem
  {
    hide SizeOf, Done, Placeable, Room;
    AddedRoom(c.dst, c.cur, o);
  }

  lemma AddedRoom(dst: View, cur: nat, o: Obj)
    requires Room(dst, cur) && SizeOf(o) > 0 && dst.base <= cur
    ensures Room(dst.(mem := dst.mem[cur := o]), cur + SizeOf(o)) && cur !in dst.mem
  {
    hide SizeOf;
  }

  lemma WithRoom(dst: View, cur: nat, a: nat, o: Obj)
    requires Room(dst, cur) && a in dst.mem && SizeOf(o) == SizeOf(dst.mem[a])
    ensures Room(dst.(mem := dst.mem[a := o]), cur)
  {
    hide SizeOf;
  }

  lemma NotedOk(src: View, c: Copy, x: nat, a: nat)
    requires CopyOk(src, c) && x !in c.seen && Placeable(src, x) && a in c.dst.mem
             && c.dst.base + c.dst.mark < a < c.cur && Shared(c.dst.mem[a])
    requires a !in c.keys && forall y | y in c.m :: c.m[y] != a
    ensures CopyOk(src, Noted(c, x, a))
  {
    hide SizeOf, Room, Placeable;
  }

  lemma SeenOk(src: View, c: Copy, x: nat)
    requires CopyOk(src, c) && !Placeable(src, x)
    ensures CopyOk(src, c.(seen := c.seen + {x})) && Grown(src, c, c.(seen := c.seen + {x}), {})
  {
    hide SizeOf, Room, Placeable, Done;
  }

  /** An object is overwritten by one of the same size. */
  lemma WithOk(src: View, c: Copy, a: nat, o: Obj)
    requires CopyOk(src, c) && a in c.dst.mem && SizeOf(o) == SizeOf(c.dst.mem[a])
             && (Shared(c.dst.mem[a]) ==> Shared(o))
    requires !c.dst.mem[a].Text? || a !in c.keys
    ensures CopyOk(src, With(c, a, o))
  {
    hide SizeOf, Placeable, Room;
    WithRoom(c.dst, c.cur, a, o);
  }

  lemma WithGrown(src: View, c: Copy, c1: Copy, own: set<nat>, a: nat, o: Obj)
    requires Grown(src, c, c1, own) && a in own && a < c.cur
    ensures Grown(src, c, With(c1, a, o), own) && KeptBut(c1.dst, With(c1, a, o).dst, {a})
  {
    hide Done;
    var c2 := With(c1, a, o);
    forall x | x in c2.m && x !in c.m
      ensures Done(src, c2, c.cur, x)
    {
      assert Done(src, c1, c.cur, x);
      DoneKept(src, c1, c2, c.cur, c.cur, {a}, x);
    }
  }

  /** One more reference to an object changes nothing else. */
  lemma LikeGrown(src: View, c: Copy, a: nat, o: Obj)
    requires CopyOk(src, c) && a in c.dst.mem && Like(c.dst.mem[a], o) && a !in c.keys
    ensures CopyOk(src, With(c, a, o)) && Grown(src, c, With(c, a, o), {})
  {
    hide Done, CopiesPlaced, Room, KeysApart;
    WithOk(src, c, a, o);
  }

  // ----- Strings -----

  ghost predicate TextCopied(src: View, c: Copy, c1: Copy, x: nat) {
    && x in src.mem && src.mem[x].Text?
    && c1 == Noted(Added(c, Text(1, src.mem[x].hash, src.mem[x].chars)), x, c.cur)
  }

  lemma TextGrown(src: View, c: Copy, c1: Copy, x: nat)
    requires CopyOk(src, c) && x !in c.seen && TextCopied(src, c, c1, x) && x != src.base + src.mark
    ensures CopyOk(src, c1) && Grown(src, c, c1, {})
  {
    hide Room, Match, KeysApart;
    var o := Text(1, src.mem[x].hash, src.mem[x].chars);
    AddedOk(src, c, o);
    NotAKey(src, c);
    NotedOk(src, Added(c, o), x, c.cur);
    assert c1.dst.mem[c1.m[x]] == o;
    TextMatches(src, c1.dst, c1.m, c.cur, x);
    assert Done(src, c1, c.cur, x);
  }

  /** The place of the next object is not that of a key. */
  lemma NotAKey(src: View, c: Copy)
    requires CopyOk(src, c)
    ensures c.cur !in c.keys
  {
    hide CopiesPlaced;
  }

  lemma TextMatches(src: View, b: View, m: map<nat, nat>, lo: nat, x: nat)
    requires x in m && x in src.mem && src.mem[x].Text? && lo <= m[x] && m[x] in b.mem
    requires b.mem[m[x]] == Text(1, src.mem[x].hash, src.mem[x].chars)
    ensures Match(src, b, m, lo, x)
  {
  }

  // ----- References -----

  ghost function CellStarted(c: Copy, x: nat, z: Zval): Copy {
    Noted(Added(c, Cell(1, z)), x, c.cur)
  }

  ghost predicate CellFree(src: View, c: Copy, x: nat) {
    CopyOk(src, c) && x !in c.seen && x in src.mem && src.mem[x].Cell? && x != src.base + src.mark
  }

  lemma CellStart(src: View, c: Copy, x: nat, z: Zval)
    requires CellFree(src, c, x)
    ensures var c1 := CellStarted(c, x, z);
            && CopyOk(src, c1) && c1.cur == c.cur + CELL_SIZE && c1.seen == c.seen + {x} && Started(c, c1, x)
            && c.cur !in c.dst.mem && c.cur in c1.dst.mem && c1.dst.mem[c.cur] == Cell(1, z)
  {
    hide Room, Done, KeysApart;
    AddedOk(src, c, Cell(1, z));
    NotAKey(src, c);
    NotedOk(src, Added(c, Cell(1, z)), x, c.cur);
  }

  /** The copy of `x` has its place, but is not complete. */
  ghost predicate Started(c: Copy, c1: Copy, x: nat) {
    && KeptBut(c.dst, c1.dst, {}) && c1.m == c.m[x := c.cur] && c1.keys == c.keys && x !in c.m && c.cur < c1.cur
  }

  /** The reference is still there, but for how often it is referred to. */
  lemma CellThere(src: View, c: Copy, c2: Copy, x: nat, z0: Zval)
    requires CellFree(src, c, x) && Grown(src, CellStarted(c, x, z0), c2, {})
    ensures c.cur in c2.dst.mem && c2.dst.mem[c.cur].Cell? && c2.dst.mem[c.cur].val == z0
  {
    hide Room, CopiesPlaced, Done, KeysApart;
    CellStart(src, c, x, z0);
  }

  /** The reference is complete when its value is. */
  lemma CellDone(src: View, c: Copy, c2: Copy, x: nat, z0: Zval, z2: Zval, refs: nat)
    requires CellFree(src, c, x) && Grown(src, CellStarted(c, x, z0), c2, {}) && CopyOk(src, c2)
    requires ValMatch(src, c2.dst, c2.m, src.mem[x].val, z2)
    ensures var c3 := With(c2, c.cur, Cell(refs, z2));
            CopyOk(src, c3) && Grown(src, c, c3, {}) && x in c3.m && c3.m[x] == c.cur
  {
    hide Room, CopiesPlaced, Match, ValMatch, KeysApart;
    var c1, c3 := CellStarted(c, x, z0), With(c2, c.cur, Cell(refs, z2));
    CellStart(src, c, x, z0);
    CellThere(src, c, c2, x, z0);
    WithOk(src, c2, c.cur, Cell(refs, z2));
    OwnMore(src, c1, c2, {c.cur});
    WithGrown(src, c1, c2, {c.cur}, c.cur, Cell(refs, z2));
    CellMatches(src, c2.dst, c3.dst, c3.m, c.cur, x, z2);
    assert Done(src, c3, c.cur, x);
    StartedGrown(src, c, c1, c3, {c.cur}, x);
  }

  lemma OwnMore(src: View, c: Copy, c1: Copy, own: set<nat>)
    requires Grown(src, c, c1, {})
    ensures Grown(src, c, c1, own)
  {
    hide Done;
  }

  lemma CellMatches(src: View, b: View, b2: View, m: map<nat, nat>, lo: nat, x: nat, z2: Zval)
    requires x in src.mem && src.mem[x].Cell? && ValMatch(src, b, m, src.mem[x].val, z2) && b2.base == b.base
             && b2.mark == b.mark
    requires x in m && lo <= m[x] && m[x] in b2.mem && b2.mem[m[x]].Cell? && b2.mem[m[x]].val == z2
    ensures Match(src, b2, m, lo, x)
  {
    ValKept(src, b, b2, m, m, src.mem[x].val, z2);
  }

  /** What grew since the copy of `x` was started grew since before that. */
  lemma StartedGrown(src: View, c: Copy, c1: Copy, c3: Copy, own: set<nat>, x: nat)
    requires Started(c, c1, x) && Grown(src, c1, c3, own)
    requires forall a | a in own :: a !in c.dst.mem && a < c1.cur
    requires Done(src, c3, c.cur, x)
    ensures Grown(src, c, c3, {})
  {
    hide Done;
    forall y | y in c3.m && y !in c.m
      ensures Done(src, c3, c.cur, y)
    {
      if y != x {
        assert Done(src, c3, c1.cur, y);
        DoneLower(src, c3, c1.cur, c.cur, y);
      }
    }
  }

  // ----- Arrays -----

  ghost predicate LiveTable(src: View, x: nat) {
    src.base <= x && TableAt(src, x - src.base) && !EmptyArr(src, x - src.base)
  }

  /** The data of the array at `x`. */
  ghost function DataOf(src: View, x: nat): (d: Obj)
    requires LiveTable(src, x)
    ensures d.Data? && !NoneLive(d.buckets) && |d.buckets| > 0 && d.packed == src.mem[x].packed
    ensures BucketsAt(src, x - src.base) == d.buckets
  {
    src.mem[src.base + src.mem[x].data]
  }

  /** A table and, behind it, its data, as yet with the buckets `raw`. */
  ghost function TableStarted(src: View, c: Copy, x: nat, keyless: bool, raw: seq<Bucket>): Copy
    requires LiveTable(src, x) && c.dst.base <= c.cur
  {
    var t := Table(1, DataOf(src, x).packed, keyless, c.cur + TABLE_SIZE - c.dst.base);
    Added(Noted(Added(c, t), x, c.cur), Data(DataOf(src, x).packed, DataOf(src, x).hashBytes, raw))
  }

  ghost function StartedSize(src: View, x: nat): nat
    requires LiveTable(src, x)
  {
    TABLE_SIZE + SizeOf(DataOf(src, x))
  }

  /** The first `i` buckets are copied. */
  ghost predicate BucketsDone(src: View, b: View, m: map<nat, nat>, lo: nat, packed: bool, xs: seq<Bucket>,
                              ys: seq<Bucket>, i: nat, keyless: bool) {
    && i <= |xs| == |ys|
    && (forall j | 0 <= j < i :: BucketMatch(src, b, m, lo, packed, xs[j], ys[j]))
    && (keyless && !packed ==> Keyless(ys[..i]))
  }

  /** The table and its data are at `t` and `d`. */
  ghost predicate TableHere(c: Copy, t: nat, d: nat, packed: bool, keyless: bool, hashBytes: nat, ys: seq<Bucket>) {
    && t in c.dst.mem && c.dst.base <= d && Like(Table(1, packed, keyless, d - c.dst.base), c.dst.mem[t])
    && d in c.dst.mem && c.dst.mem[d] == Data(packed, hashBytes, ys)
  }

  ghost predicate TableFree(src: View, c: Copy, x: nat) {
    CopyOk(src, c) && LiveTable(src, x) && x !in c.seen
  }

  /** `c0` is before the copy of the array at `x`, `s` is when it was started, `c` is now. */
  ghost predicate InTable(src: View, c0: Copy, s: Copy, c: Copy, x: nat, i: nat, keyless: bool, ys: seq<Bucket>) {
    && TableFree(src, c0, x) && Started(c0, s, x) && s.cur == c0.cur + StartedSize(src, x)
    && CopyOk(src, c) && Grown(src, s, c, {c0.cur, c0.cur + TABLE_SIZE})
    && TableHere(c, c0.cur, c0.cur + TABLE_SIZE, DataOf(src, x).packed, keyless, DataOf(src, x).hashBytes, ys)
    && BucketsDone(src, c.dst, c.m, s.cur, DataOf(src, x).packed, DataOf(src, x).buckets, ys, i, keyless)
    && BucketsOwned(c.dst.base, c.keys, c0.cur + TABLE_SIZE, DataOf(src, x).packed, ys, i)
  }

  lemma DataSized(src: View, x: nat, raw: seq<Bucket>)
    requires LiveTable(src, x) && |raw| == |DataOf(src, x).buckets|
    ensures SizeOf(Data(DataOf(src, x).packed, DataOf(src, x).hashBytes, raw)) == SizeOf(DataOf(src, x)) > 0
  {
  }

  lemma DataHere(src: View, x: nat)
    requires LiveTable(src, x)
    ensures x in src.mem && src.mem[x].Table? && src.base + src.mem[x].data in src.mem
    ensures src.mem[src.base + src.mem[x].data] == DataOf(src, x)
    ensures StartedSize(src, x) == TABLE_SIZE + DataSize(DataOf(src, x).packed, DataOf(src, x).hashBytes,
                                                         |DataOf(src, x).buckets|)
  {
    hide EmptyArr;
  }

  lemma LivePlaceable(src: View, x: nat)
    requires LiveTable(src, x)
    ensures Placeable(src, x)
  {
  }

  lemma FreshPlace(src: View, c: Copy, x: nat)
    requires CopyOk(src, c) && x !in c.seen
    ensures x !in c.m && forall y | y in c.m :: c.m[y] < c.cur
  {
    hide Room, KeysApart;
  }

  lemma TableStartOk(src: View, c: Copy, x: nat, keyless: bool, raw: seq<Bucket>)
    requires TableFree(src, c, x) && |raw| == |DataOf(src, x).buckets|
    ensures c.dst.base <= c.cur
    ensures var s := TableStarted(src, c, x, keyless, raw);
            CopyOk(src, s) && s.cur == c.cur + StartedSize(src, x) && s.seen == c.seen + {x} && Started(c, s, x)
  {
    hide Room, Done, KeysApart, CopiesPlaced, LiveTable, DataOf, DataSize;
    FreshPlace(src, c, x);
    var t := Table(1, DataOf(src, x).packed, keyless, c.cur + TABLE_SIZE - c.dst.base);
    var c1 := Added(c, t);
    AddedOk(src, c, t);
    NotAKey(src, c);
    LivePlaceable(src, x);
    NotedOk(src, c1, x, c.cur);
    DataSized(src, x, raw);
    var c2 := Noted(c1, x, c.cur);
    AddedOk(src, c2, Data(DataOf(src, x).packed, DataOf(src, x).hashBytes, raw));
  }

  lemma TableStart(src: View, c: Copy, x: nat, keyless: bool, raw: seq<Bucket>)
    requires TableFree(src, c, x) && |raw| == |DataOf(src, x).buckets|
    ensures c.dst.base <= c.cur
    ensures var s := TableStarted(src, c, x, keyless, raw);
            && CopyOk(src, s) && s.cur == c.cur + StartedSize(src, x) && s.seen == c.seen + {x}
            && InTable(src, c, s, s, x, 0, keyless, raw)
  {
    hide CopyOk, Done, LiveTable, DataOf, BucketMatch, DataSize;
    TableStartOk(src, c, x, keyless, raw);
    GrownSelf(src, TableStarted(src, c, x, keyless, raw), {c.cur, c.cur + TABLE_SIZE});
  }

  lemma InTableParts(src: View, c0: Copy, s: Copy, c: Copy, x: nat, i: nat, keyless: bool, ys: seq<Bucket>)
    requires InTable(src, c0, s, c, x, i, keyless, ys)
    ensures c0.cur < c0.cur + TABLE_SIZE < s.cur <= c.cur && c0.dst.base == s.dst.base == c.dst.base <= c0.cur
            && |ys| == |DataOf(src, x).buckets|
    ensures CopyOk(src, c) && CopyOk(src, c0)
    ensures TableHere(c, c0.cur, c0.cur + TABLE_SIZE, DataOf(src, x).packed, keyless, DataOf(src, x).hashBytes, ys)
  {
    hide Done, Room, CopiesPlaced, KeysApart, BucketMatch, KeyMatch, LiveTable, DataOf, TableHere, BucketsOwned;
    DataSized(src, x, DataOf(src, x).buckets);
  }

  /** An unused bucket needs no copying. */
  lemma TableSkip(src: View, c0: Copy, s: Copy, c: Copy, x: nat, i: nat, keyless: bool, ys: seq<Bucket>)
    requires InTable(src, c0, s, c, x, i, keyless, ys) && i < |ys| && i < |DataOf(src, x).buckets|
    requires DataOf(src, x).buckets[i].val.Undef? && ys[i].val.Undef?
    ensures InTable(src, c0, s, c, x, i + 1, keyless, ys)
  {
    hide CopyOk, Grown, TableHere, LiveTable, StartedSize, DataOf, ValMatch;
  }

  lemma OwnedOn(base: nat, keys: map<nat, Owner>, keys2: map<nat, Owner>, d: nat, packed: bool, bs: seq<Bucket>, n: nat)
    requires BucketsOwned(base, keys, d, packed, bs, n) && MapKept(keys, keys2)
    ensures BucketsOwned(base, keys2, d, packed, bs, n)
  {
  }

  /** While others are copied, the array stays as far as it is. */
  lemma TableGrown(src: View, c0: Copy, s: Copy, c: Copy, x: nat, i: nat, keyless: bool, ys: seq<Bucket>, c1: Copy)
    requires InTable(src, c0, s, c, x, i, keyless, ys) && Grown(src, c, c1, {}) && CopyOk(src, c1)
    ensures InTable(src, c0, s, c1, x, i, keyless, ys)
  {
    hide Room, CopiesPlaced, KeysApart, Done, BucketMatch, LiveTable, StartedSize, DataOf, BucketsOwned;
    GrownTrans(src, s, c, c1, {c0.cur, c0.cur + TABLE_SIZE});
    OwnedOn(c.dst.base, c.keys, c1.keys, c0.cur + TABLE_SIZE, DataOf(src, x).packed, ys, i);
    BucketsKept(src, c.dst, c1.dst, c.m, c1.m, s.cur, s.cur, {}, DataOf(src, x).packed, DataOf(src, x).buckets, ys, i);
  }

  /** The table is marked to have keys. */
  lemma TableKeyed(src: View, c0: Copy, s: Copy, c: Copy, x: nat, i: nat, keyless: bool, ys: seq<Bucket>, o: Obj)
    requires InTable(src, c0, s, c, x, i, keyless, ys)
    requires Like(Table(1, DataOf(src, x).packed, false, c0.cur + TABLE_SIZE - c0.dst.base), o)
    ensures InTable(src, c0, s, With(c, c0.cur, o), x, i, false, ys)
  {
    hide Room, CopiesPlaced, KeysApart, Done, BucketMatch, LiveTable, StartedSize, DataOf, BucketsOwned;
    InTableParts(src, c0, s, c, x, i, keyless, ys);
    var c1 := With(c, c0.cur, o);
    WithOk(src, c, c0.cur, o);
    WithGrown(src, s, c, {c0.cur, c0.cur + TABLE_SIZE}, c0.cur, o);
    BucketsKept(src, c.dst, c1.dst, c.m, c1.m, s.cur, s.cur, {c0.cur}, DataOf(src, x).packed, DataOf(src, x).buckets,
                ys, i);
  }

  /** Bucket `i` is written. */
  lemma TableBucket(src: View, c0: Copy, s: Copy, c: Copy, x: nat, i: nat, keyless: bool, ys: seq<Bucket>, y: Bucket)
    requires InTable(src, c0, s, c, x, i, keyless, ys) && i < |ys| && i < |DataOf(src, x).buckets|
    requires BucketMatch(src, c.dst, c.m, s.cur, DataOf(src, x).packed, DataOf(src, x).buckets[i], y)
    requires keyless && !DataOf(src, x).packed ==> y.key.None?
    requires BucketOwned(c.dst.base, c.keys, c0.cur + TABLE_SIZE, i, DataOf(src, x).packed, y)
    ensures var o := Data(DataOf(src, x).packed, DataOf(src, x).hashBytes, ys[i := y]);
            InTable(src, c0, s, With(c, c0.cur + TABLE_SIZE, o), x, i + 1, keyless, ys[i := y])
  {
    hide Room, CopiesPlaced, KeysApart, Done, BucketMatch, LiveTable, StartedSize, DataOf, BucketOwned;
    InTableParts(src, c0, s, c, x, i, keyless, ys);
    var d, xs, packed := c0.cur + TABLE_SIZE, DataOf(src, x).buckets, DataOf(src, x).packed;
    var ys2 := ys[i := y];
    var o := Data(packed, DataOf(src, x).hashBytes, ys2);
    var c1 := With(c, d, o);
    WithOk(src, c, d, o);
    WithGrown(src, s, c, {c0.cur, d}, d, o);
    BucketsKept(src, c.dst, c1.dst, c.m, c1.m, s.cur, s.cur, {d}, packed, xs, ys, i);
    BucketKept(src, c.dst, c1.dst, c.m, c1.m, s.cur, s.cur, {d}, packed, xs[i], y);
    assert ys2[..i + 1] == ys[..i] + [y];
  }

  /** When all buckets are done, the array is copied. */
  lemma TableDone(src: View, c0: Copy, s: Copy, c: Copy, x: nat, keyless: bool, ys: seq<Bucket>)
    requires InTable(src, c0, s, c, x, |ys|, keyless, ys)
    ensures CopyOk(src, c) && Grown(src, c0, c, {}) && x in c.m && c.m[x] == c0.cur
  {
    hide CopiesPlaced, KeysApart, Done, BucketMatch, LiveTable, DataOf, StartedSize, BucketsDone, BucketsOwned;
    InTableParts(src, c0, s, c, x, |ys|, keyless, ys);
    TableMatches(src, c0, s, c, x, keyless, ys);
    TableIsOwned(c, c0.cur, c0.cur + TABLE_SIZE, DataOf(src, x).packed, keyless, DataOf(src, x).hashBytes, ys);
    DoneNow(src, c, c0.cur, x);
    StartedGrown(src, c0, s, c, {c0.cur, c0.cur + TABLE_SIZE}, x);
  }

  lemma DoneNow(src: View, c: Copy, lo: nat, x: nat)
    requires Match(src, c.dst, c.m, lo, x) && TableOwned(c.dst, c.keys, lo, c.m[x])
    ensures Done(src, c, lo, x)
  {
    hide Match, TableOwned;
  }

  lemma TableIsOwned(c: Copy, t: nat, d: nat, packed: bool, keyless: bool, hashBytes: nat, ys: seq<Bucket>)
    requires TableHere(c, t, d, packed, keyless, hashBytes, ys) && d == t + TABLE_SIZE
    requires BucketsOwned(c.dst.base, c.keys, d, packed, ys, |ys|)
    ensures TableOwned(c.dst, c.keys, t, t)
  {
    hide BucketOwned;
  }

  lemma TableMatches(src: View, c0: Copy, s: Copy, c: Copy, x: nat, keyless: bool, ys: seq<Bucket>)
    requires LiveTable(src, x) && x in c.m && c.m[x] == c0.cur && c.dst.base <= c0.cur <= s.cur
    requires TableHere(c, c0.cur, c0.cur + TABLE_SIZE, DataOf(src, x).packed, keyless, DataOf(src, x).hashBytes, ys)
    requires BucketsDone(src, c.dst, c.m, s.cur, DataOf(src, x).packed, DataOf(src, x).buckets, ys, |ys|, keyless)
    ensures Match(src, c.dst, c.m, c0.cur, x)
  {
    hide BucketMatch, EmptyArr;
    SameKept(c);
    BucketsKept(src, c.dst, c.dst, c.m, c.m, s.cur, c0.cur, {}, DataOf(src, x).packed, DataOf(src, x).buckets, ys,
                |ys|);
    assert ys[..|ys|] == ys;
  }

  // ----- A key and a value make a bucket -----

  /** A copy of the key at `k`, for a bucket of its own. */
  ghost function KeyCopied(src: View, c: Copy, k: nat, owner: Owner): Copy
    requires TextAt(src, k)
  {
    var o := src.mem[src.base + k];
    Added(c, Text(1, o.hash, o.chars)).(keys := c.keys[c.cur := owner])
  }

  lemma KeyAdded(src: View, c: Copy, lo: nat, k: nat, owner: Owner)
    requires CopyOk(src, c) && TextAt(src, k) && lo <= c.cur
    ensures c.dst.base <= c.cur
    ensures var c1 := KeyCopied(src, c, k, owner);
            && CopyOk(src, c1) && Grown(src, c, c1, {}) && KeyMatch(src, c1.dst, lo, Some(k), Some(c.cur - c.dst.base))
            && c.cur in c1.keys && c1.keys[c.cur] == owner
  {
    hide Room, Match;
    AddedOk(src, c, Text(1, src.mem[src.base + k].hash, src.mem[src.base + k].chars));
  }

  lemma KeyKept(src: View, c: Copy, c1: Copy, lo: nat, k: Option<nat>, k2: Option<nat>)
    requires KeyMatch(src, c.dst, lo, k, k2) && Grown(src, c, c1, {})
    ensures KeyMatch(src, c1.dst, lo, k, k2)
  {
    hide Done;
  }

  lemma OwnerKept(src: View, c: Copy, c1: Copy, q: nat)
    requires q in c.keys && Grown(src, c, c1, {})
    ensures q in c1.keys && c1.keys[q] == c.keys[q]
  {
    hide Done;
  }

  lemma NoKey(src: View, b: View, lo: nat)
    ensures KeyMatch(src, b, lo, None, None)
  {
  }

  /** What copying a bucket reads. */
  lemma BucketReads(v: View, r: set<nat>, x: nat, i: nat)
    requires LiveTable(v, x) && NodeOk(v, r, x) && i < |DataOf(v, x).buckets| && !DataOf(v, x).buckets[i].val.Undef?
    ensures x in v.mem && v.mem[x].Table? && v.base + v.mem[x].data in v.mem
            && v.mem[v.base + v.mem[x].data] == DataOf(v, x)
    ensures var b := DataOf(v, x).buckets[i];
            ValOk(v, r, b.val) && (!DataOf(v, x).packed && b.key.Some? ==> TextAt(v, b.key.value))
  {
    hide ValOk, EmptyArr;
    BucketNode(v, r, v.mem[x].packed, DataOf(v, x).buckets, i);
  }

  // ----- What was copied before -----

  function Pointing(z: Zval, p: nat): Zval {
    match z
    case Str(_) => Str(p)
    case Arr(_) => Arr(p)
    case Ref(_) => Ref(p)
    case _ => z
  }

  /** An object that was copied before needs no second copy. */
  lemma KnownVal(src: View, c: Copy, z: Zval)
    requires CopyOk(src, c) && (z.Str? || z.Arr? || z.Ref?) && src.base + z.p in c.m
             && (z.Arr? ==> z.p == src.mark || TableAt(src, z.p))
    ensures var a := c.m[src.base + z.p];
            && c.dst.base <= a && ValMatch(src, c.dst, c.m, z, Pointing(z, a - c.dst.base))
            && a in c.dst.mem && Shared(c.dst.mem[a])
  {
    hide Room, EmptyArr;
  }

  /** What is to be copied for the first time. */
  lemma NotSeen(v: View, r: set<nat>, c: Copy, z: Zval)
    requires CopyOk(v, c) && Closed(v, r) && ValOk(v, r, z) && (z.Str? || z.Ref?) && v.base + z.p !in c.m
    ensures var x := v.base + z.p;
            x !in c.seen && x != v.base + v.mark && x in v.mem && Placeable(v, x) && (z.Ref? ==> CellFree(v, c, x))
  {
    hide Room, EmptyArr;
    assert NodeOk(v, r, v.base + z.p);
  }

  lemma FreshNext(src: View, c: Copy)
    requires CopyOk(src, c)
    ensures c.cur !in c.dst.mem && c.cur + TABLE_SIZE !in c.dst.mem
  {
    hide CopiesPlaced;
  }

  // ----- Bytes -----

  /** What the objects take together. */
  ghost function Bytes(mem: Memory): nat
    decreases |mem|
  {
    if mem == map[] then 0
    else
      var a :| a in mem;
      SizeOf(mem[a]) + Bytes(mem - {a})
  }

  lemma {:induction false} BytesRemove(mem: Memory, a: nat)
    requires a in mem
    ensures Bytes(mem) == SizeOf(mem[a]) + Bytes(mem - {a})
    decreases |mem|
  {
    var b :| b in mem && Bytes(mem) == SizeOf(mem[b]) + Bytes(mem - {b});
    hide Bytes, SizeOf;
    if a != b {
      BytesRemove(mem - {b}, a);
      assert mem - {b} - {a} == mem - {a} - {b};
      BytesRemove(mem - {a}, b);
    }
  }

  lemma BytesPut(mem: Memory, a: nat, o: Obj)
    ensures Bytes(mem[a := o]) == Bytes(mem) + SizeOf(o) - (if a in mem then SizeOf(mem[a]) else 0)
  {
    hide Bytes, SizeOf;
    BytesRemove(mem[a := o], a);
    assert mem[a := o] - {a} == mem - {a};
    if a in mem {
      BytesRemove(mem, a);
    } else {
      assert mem - {a} == mem;
    }
  }

  /** The objects start at whole words of the memory. */
  ghost predicate WordAligned(v: View) {
    forall a | a in v.mem :: v.base <= a && (a - v.base) % 8 == 0
  }

  /** All that was taken is used by objects. */
  ghost predicate Tight(c: Copy) {
    c.cur == c.dst.base + Bytes(c.dst.mem) && WordAligned(c.dst) && (c.cur - c.dst.base) % 8 == 0
  }

  lemma SizeAligned(o: Obj)
    ensures SizeOf(o) % 8 == 0
  {
  }

  lemma TightAdded(c: Copy, o: Obj)
    requires Tight(c) && c.cur !in c.dst.mem
    ensures Tight(Added(c, o))
  {
    hide SizeOf, Bytes;
    SizeAligned(o);
    BytesPut(c.dst.mem, c.cur, o);
  }

  lemma TightWith(c: Copy, a: nat, o: Obj)
    requires Tight(c) && a in c.dst.mem && SizeOf(o) == SizeOf(c.dst.mem[a])
    ensures Tight(With(c, a, o))
  {
    BytesPut(c.dst.mem, a, o);
  }

  lemma TightNoted(c: Copy, x: nat, a: nat)
    requires Tight(c)
    ensures Tight(Noted(c, x, a))
  {
  }

  // ----- Private keys -----

  lemma KeyHasOwner(src: View, c: Copy, x: nat, i: nat, q: nat)
    requires x in c.m && Done(src, c, 0, x) && KeyIs(c.dst, c.m, x, i, q)
    ensures c.dst.base + q in c.keys && c.keys[c.dst.base + q] == Owner(c.m[x] + TABLE_SIZE, i)
  {
    hide Match;
    var d := c.dst.base + c.dst.mem[c.m[x]].data;
    assert BucketOwned(c.dst.base, c.keys, d, i, c.dst.mem[d].packed, c.dst.mem[d].buckets[i]);
  }

  /** When all objects are copied, every key belongs to one bucket and to nothing else. */
  lemma CopiedPrivate(src: View, c: Copy)
    requires CopyOk(src, c) && forall x {:trigger Done(src, c, 0, x)} | x in c.m :: Done(src, c, 0, x)
    ensures KeysPrivate(c.dst, c.m)
    ensures forall x, i, q | KeyIs(c.dst, c.m, x, i, q) :: c.dst.mark < q
  {
    hide Room, Done, KeyIs;
    forall x, i, q | KeyIs(c.dst, c.m, x, i, q)
      ensures c.dst.base + q in c.keys && x in c.m && c.keys[c.dst.base + q] == Owner(c.m[x] + TABLE_SIZE, i)
    {
      OwnedKey(c, x, i, q);
      KeyHasOwner(src, c, x, i, q);
    }
  }

  lemma OwnedKey(c: Copy, x: nat, i: nat, q: nat)
    requires KeyIs(c.dst, c.m, x, i, q)
    ensures x in c.m
  {
  }
}
