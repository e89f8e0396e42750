/** Graphs of values: scalars, strings, arrays and references with sharing and cycles, as
    objects in some memory that point to each other. */
module ValueGraph {
  import opened HeapModel
  import opened Packing

  /** The types of values without data of their own: null, the truth values and numbers. */
  type Kind = k: int | 1 <= k <= 5 witness 4

  /** Where a value of a graph points to is an address relative to the base of its memory. */
  datatype Zval =
    | Undef | Scalar(kind: Kind, bits: int)
    | Str(p: nat) | Arr(p: nat) | Ref(p: nat)
    | Other(resource: bool)

  /** An entry of an array; packed arrays use nothing but the value. */
  datatype Bucket = Bucket(h: int, key: Option<nat>, val: Zval)

  datatype Obj =
    | Text(refs: nat, hash: int, chars: seq<Byte>)
    | Cell(refs: nat, val: Zval)                                           // a reference
    | Table(refs: nat, packed: bool, keyless: bool, data: nat)
    | Data(packed: bool, hashBytes: nat, buckets: seq<Bucket>)
    | Entry(key: seq<Byte>, val: Zval, memSize: nat)

  type Memory = map<nat, Obj>

  /** A memory with the base its pointers are relative to, and the pointer that stands for
      an array without elements. */
  datatype View = View(mem: Memory, base: nat, mark: nat)

  /** The immutable empty array of the process: no object of any graph. */
  const EMPTY: nat := 1

  function NoneLive(bs: seq<Bucket>): bool {
    forall i | 0 <= i < |bs| :: bs[i].val.Undef?
  }

  function BucketsAt(v: View, p: nat): (bs: seq<Bucket>)
  {
    var a := v.base + p;
    if a in v.mem && v.mem[a].Table? && v.base + v.mem[a].data in v.mem && v.mem[v.base + v.mem[a].data].Data?
    then v.mem[v.base + v.mem[a].data].buckets else []
  }

  function EmptyArr(v: View, p: nat): bool {
    p == v.mark || NoneLive(BucketsAt(v, p))
  }

  // ----- Well-formed graphs -----

  function TextAt(v: View, p: nat): bool {
    v.base + p in v.mem && v.mem[v.base + p].Text?
  }

  function CellAt(v: View, p: nat): bool {
    v.base + p in v.mem && v.mem[v.base + p].Cell?
  }

  function TableAt(v: View, p: nat): bool {
    && v.base + p in v.mem && v.mem[v.base + p].Table?
    && v.base + v.mem[v.base + p].data in v.mem && v.mem[v.base + v.mem[v.base + p].data].Data?
    && v.mem[v.base + v.mem[v.base + p].data].packed == v.mem[v.base + p].packed
  }

  /** The value points to an object of the right kind among the objects `r`. */
  ghost predicate ValOk(v: View, r: set<nat>, z: Zval) {
    match z
    case Str(p) => v.base + p in r && TextAt(v, p)
    case Ref(p) => v.base + p in r && CellAt(v, p)
    case Arr(p) => p == v.mark || (v.base + p in r && TableAt(v, p))
    case _ => true
  }

  /** No bucket in use has a string key. */
  ghost predicate Keyless(bs: seq<Bucket>) {
    forall i | 0 <= i < |bs| :: bs[i].val.Undef? || bs[i].key.None?
  }

  /** An unused bucket may hold anything but its mark. */
  ghost predicate BucketOk(v: View, r: set<nat>, packed: bool, b: Bucket) {
    !b.val.Undef? ==> ValOk(v, r, b.val) && (!packed && b.key.Some? ==> TextAt(v, b.key.value))
  }

  ghost predicate BucketsOk(v: View, r: set<nat>, packed: bool, bs: seq<Bucket>) {
    forall i | 0 <= i < |bs| :: BucketOk(v, r, packed, bs[i])
  }

  ghost predicate NodeOk(v: View, r: set<nat>, a: nat) {
    a in v.mem && v.base <= a &&
    match v.mem[a]
    case Text(_, _, _) => true
    case Cell(_, z) => ValOk(v, r, z)
    case Table(_, packed, _, _) => TableAt(v, a - v.base) && BucketsOk(v, r, packed, BucketsAt(v, a - v.base))
    case _ => false
  }

  /** The objects `r` are a graph: every pointer in them leads to one of them. */
  ghost predicate Closed(v: View, r: set<nat>) {
    v.base + v.mark !in r && forall a {:trigger NodeOk(v, r, a)} | a in r :: NodeOk(v, r, a)
  }

  /** What a pointer to an array with elements leads to. */
  lemma TableNode(v: View, r: set<nat>, p: nat)
    requires Closed(v, r) && ValOk(v, r, Arr(p)) && !EmptyArr(v, p)
    ensures v.base + p in r && TableAt(v, p)
    ensures var t := v.mem[v.base + p];
            var d := v.mem[v.base + t.data];
            d.packed == t.packed && BucketsOk(v, r, d.packed, d.buckets) && !NoneLive(d.buckets)
  {
    hide BucketsOk;
    assert NodeOk(v, r, v.base + p);
  }

  lemma BucketNode(v: View, r: set<nat>, packed: bool, bs: seq<Bucket>, i: nat)
    requires BucketsOk(v, r, packed, bs) && i < |bs| && !bs[i].val.Undef?
    ensures ValOk(v, r, bs[i].val) && (!packed && bs[i].key.Some? ==> TextAt(v, bs[i].key.value))
  {
    hide ValOk;
    assert BucketOk(v, r, packed, bs[i]);
  }

  // ----- Equal graphs -----

  /** `z2` in `b` is what `z` in `a` becomes when the objects are renamed by `m`. */
  ghost predicate ValMatch(a: View, b: View, m: map<nat, nat>, z: Zval, z2: Zval) {
    match z
    case Undef => z2 == z
    case Scalar(_, _) => z2 == z
    case Str(p) => z2.Str? && a.base + p in m && m[a.base + p] == b.base + z2.p
    case Ref(p) => z2.Ref? && a.base + p in m && m[a.base + p] == b.base + z2.p
    case Arr(p) =>
      && z2.Arr?
      && if EmptyArr(a, p) then z2.p == b.mark else z2.p != b.mark && a.base + p in m && m[a.base + p] == b.base + z2.p
    case Other(_) => false
  }

  /** A key is copied with its text, to an address from `lo` on. */
  ghost predicate KeyMatch(a: View, b: View, lo: nat, k: Option<nat>, k2: Option<nat>) {
    match k
    case None => k2.None?
    case Some(p) =>
      && k2.Some? && TextAt(a, p) && TextAt(b, k2.value) && lo <= b.base + k2.value
      && a.mem[a.base + p].hash == b.mem[b.base + k2.value].hash
      && a.mem[a.base + p].chars == b.mem[b.base + k2.value].chars
  }

  ghost predicate BucketMatch(a: View, b: View, m: map<nat, nat>, lo: nat, packed: bool, x: Bucket, y: Bucket) {
    if x.val.Undef? then y.val.Undef?
    else ValMatch(a, b, m, x.val, y.val) && (!packed ==> y.h == x.h && KeyMatch(a, b, lo, x.key, y.key))
  }

  ghost predicate BucketsMatch(a: View, b: View, m: map<nat, nat>, lo: nat, packed: bool, xs: seq<Bucket>,
                               ys: seq<Bucket>) {
    |ys| == |xs| && forall i | 0 <= i < |xs| :: BucketMatch(a, b, m, lo, packed, xs[i], ys[i])
  }

  ghost predicate TableMatch(a: View, b: View, m: map<nat, nat>, lo: nat, x: nat, y: nat) {
    && a.base <= x && b.base <= y && TableAt(a, x - a.base) && TableAt(b, y - b.base)
    && a.mem[x].packed == b.mem[y].packed && lo <= b.base + b.mem[y].data
    && var xs, ys := a.mem[a.base + a.mem[x].data], b.mem[b.base + b.mem[y].data];
    && ys.hashBytes == xs.hashBytes && BucketsMatch(a, b, m, lo, a.mem[x].packed, xs.buckets, ys.buckets)
    && !NoneLive(xs.buckets)
    && (b.mem[y].keyless && !b.mem[y].packed ==> Keyless(ys.buckets))
  }

  /** The object `x` of `a` and its counterpart have the same contents; the memory taken by
      the counterpart lies at or behind `lo`. */
  ghost predicate Match(a: View, b: View, m: map<nat, nat>, lo: nat, x: nat) {
    && x in m && x in a.mem && m[x] in b.mem && lo <= m[x]
    && match a.mem[x]
       case Text(_, h, cs) => b.mem[m[x]].Text? && b.mem[m[x]].hash == h && b.mem[m[x]].chars == cs
       case Cell(_, z) => b.mem[m[x]].Cell? && ValMatch(a, b, m, z, b.mem[m[x]].val)
       case Table(_, _, _, _) => TableMatch(a, b, m, lo, x, m[x])
       case _ => false
  }

  ghost predicate Injective(m: map<nat, nat>) {
    forall x, y | x in m && y in m && x != y :: m[x] != m[y]
  }

  /** The graphs below the two roots are the same up to the addresses of their objects:
      `m` maps every object reachable from the first root to its counterpart. */
  ghost predicate Isomorphic(a: View, z: Zval, b: View, z2: Zval, m: map<nat, nat>) {
    && ValMatch(a, b, m, z, z2) && Injective(m)
    && forall x {:trigger Match(a, b, m, 0, x)} | x in m :: Match(a, b, m, 0, x)
  }

  // ----- Keys of arrays -----

  /** Bucket `i` of the copy of the array `x` has the key at `q`. */
  ghost predicate KeyIs(b: View, m: map<nat, nat>, x: nat, i: nat, q: nat) {
    && x in m && m[x] in b.mem && b.mem[m[x]].Table?
    && var d := b.base + b.mem[m[x]].data;
    && d in b.mem && b.mem[d].Data? && !b.mem[d].packed && i < |b.mem[d].buckets|
    && !b.mem[d].buckets[i].val.Undef? && b.mem[d].buckets[i].key == Some(q)
  }

  /** Every key of an array is a string of its own: no value and no other bucket points to it. */
  ghost predicate KeysPrivate(b: View, m: map<nat, nat>) {
    && (forall x, i, q | KeyIs(b, m, x, i, q) ::
          TextAt(b, q) && b.mem[b.base + q].refs == 1 && b.base + q !in m.Values)
    && (forall x, i, y, j, q | KeyIs(b, m, x, i, q) && KeyIs(b, m, y, j, q) :: x == y && i == j)
  }

  /** The keys stay private when the renamings of two copies are put together. */
  lemma PrivateThen(b: View, m: map<nat, nat>, n: map<nat, nat>)
    requires KeysPrivate(b, n) && Injective(m)
    ensures KeysPrivate(b, Then(m, n))
  {
    forall x, i, q | KeyIs(b, Then(m, n), x, i, q)
      ensures x in m && KeyIs(b, n, m[x], i, q)
    {
    }
  }

  // ----- One copy after the other -----

  ghost function Then(m: map<nat, nat>, n: map<nat, nat>): map<nat, nat> {
    map x | x in m && m[x] in n :: n[m[x]]
  }

  lemma ValThen(a: View, b: View, c: View, m: map<nat, nat>, n: map<nat, nat>, z: Zval, z1: Zval, z2: Zval)
    requires ValMatch(a, b, m, z, z1) && ValMatch(b, c, n, z1, z2)
    requires forall x | x in m :: Match(a, b, m, 0, x)
    ensures ValMatch(a, c, Then(m, n), z, z2)
  {
    hide Match, EmptyArr;
    if z.Arr? && EmptyArr(a, z.p) {
      MarkEmpty(b);
    } else if z.Arr? {
      LiveMatch(a, b, m, z.p, z1.p);
    }
  }

  lemma MarkEmpty(v: View)
    ensures EmptyArr(v, v.mark)
  {
  }

  /** An array with elements has a counterpart with elements. */
  lemma LiveMatch(a: View, b: View, m: map<nat, nat>, p: nat, q: nat)
    requires Match(a, b, m, 0, a.base + p) && m[a.base + p] == b.base + q && q != b.mark && !EmptyArr(a, p)
    ensures !EmptyArr(b, q)
  {
    if a.mem[a.base + p].Table? {
      var xs, ys := BucketsAt(a, p), BucketsAt(b, q);
      var i :| 0 <= i < |xs| && !xs[i].val.Undef?;
      assert BucketMatch(a, b, m, 0, a.mem[a.base + p].packed, xs[i], ys[i]);
    }
  }

  lemma BucketThen(a: View, b: View, c: View, m: map<nat, nat>, n: map<nat, nat>, packed: bool, x: Bucket, y: Bucket,
                   w: Bucket)
    requires BucketMatch(a, b, m, 0, packed, x, y) && BucketMatch(b, c, n, 0, packed, y, w)
    requires forall x | x in m :: Match(a, b, m, 0, x)
    ensures BucketMatch(a, c, Then(m, n), 0, packed, x, w)
  {
    hide Match;
    if !x.val.Undef? {
      ValThen(a, b, c, m, n, x.val, y.val, w.val);
    }
  }

  lemma MatchThen(a: View, b: View, c: View, m: map<nat, nat>, n: map<nat, nat>, x: nat)
    requires x in m && Match(a, b, m, 0, x) && m[x] in n && Match(b, c, n, 0, m[x])
    requires forall x | x in m :: Match(a, b, m, 0, x)
    ensures Match(a, c, Then(m, n), 0, x)
  {
    hide EmptyArr, BucketMatch, ValMatch;
    if a.mem[x].Cell? {
      ValThen(a, b, c, m, n, a.mem[x].val, b.mem[m[x]].val, c.mem[n[m[x]]].val);
    } else if a.mem[x].Table? {
      var y, w := m[x], n[m[x]];
      var xs, ys, ws := a.mem[a.base + a.mem[x].data].buckets, b.mem[b.base + b.mem[y].data].buckets,
          c.mem[c.base + c.mem[w].data].buckets;
      forall i | 0 <= i < |xs|
        ensures BucketMatch(a, c, Then(m, n), 0, a.mem[x].packed, xs[i], ws[i])
      {
        BucketThen(a, b, c, m, n, a.mem[x].packed, xs[i], ys[i], ws[i]);
      }
    }
  }

  /** Copying a copy gives a copy of the original. */
  lemma IsomorphicThen(a: View, z: Zval, b: View, z1: Zval, c: View, z2: Zval, m: map<nat, nat>, n: map<nat, nat>)
    requires Isomorphic(a, z, b, z1, m) && Isomorphic(b, z1, c, z2, n)
    ensures Isomorphic(a, z, c, z2, Then(m, n))
  {
    hide Match, ValMatch;
    ValThen(a, b, c, m, n, z, z1, z2);
    forall x | x in Then(m, n)
      ensures Match(a, c, Then(m, n), 0, x)
    {
      MatchThen(a, b, c, m, n, x);
    }
  }

  // ----- Moving the memory of a graph -----

  ghost function ObjAt(v: View, p: nat): Option<Obj> {
    if v.base + p in v.mem then Some(v.mem[v.base + p]) else None
  }

  ghost predicate Behind(v: View) {
    forall a | a in v.mem :: v.base <= a
  }

  /** The same words at another base, as another process sees them or after they were moved. */
  ghost predicate Elsewhere(v: View, w: View) {
    Behind(v) && Behind(w) && w.mark == v.mark && forall p: nat {:trigger ObjAt(w, p)} :: ObjAt(w, p) == ObjAt(v, p)
  }

  /** The words of `v`, found at another base. */
  function MovedTo(v: View, base: nat): View {
    var places := set a | a in v.mem && v.base <= a :: a - v.base + base;
    View(map b | b in places && base <= b && v.base + (b - base) in v.mem :: v.mem[v.base + (b - base)], base, v.mark)
  }

  lemma MovedElsewhere(v: View, base: nat)
    requires Behind(v)
    ensures Elsewhere(v, MovedTo(v, base)) && MovedTo(v, base).base == base
  {
    var w := MovedTo(v, base);
    forall p: nat
      ensures ObjAt(w, p) == ObjAt(v, p)
    {
      if v.base + p in v.mem {
        assert v.base + p - v.base + base == base + p;
      }
    }
  }

  lemma ElsewhereAt(v: View, w: View, p: nat)
    requires Elsewhere(v, w)
    ensures w.base + p in w.mem <==> v.base + p in v.mem
    ensures v.base + p in v.mem ==> w.mem[w.base + p] == v.mem[v.base + p]
  {
    assert ObjAt(w, p) == ObjAt(v, p);
  }

  ghost function Shift(m: map<nat, nat>, b: nat, base: nat): map<nat, nat> {
    map x | x in m && b <= m[x] :: m[x] - b + base
  }

  lemma ElsewhereVal(a: View, v: View, w: View, m: map<nat, nat>, z: Zval, z2: Zval)
    requires ValMatch(a, v, m, z, z2) && w.mark == v.mark
    ensures ValMatch(a, w, Shift(m, v.base, w.base), z, z2)
  {
    hide EmptyArr;
  }

  lemma ElsewhereBucket(a: View, v: View, w: View, m: map<nat, nat>, packed: bool, x: Bucket, y: Bucket)
    requires BucketMatch(a, v, m, 0, packed, x, y) && Elsewhere(v, w)
    ensures BucketMatch(a, w, Shift(m, v.base, w.base), 0, packed, x, y)
  {
    hide EmptyArr, Shift;
    if !x.val.Undef? {
      ElsewhereVal(a, v, w, m, x.val, y.val);
      if !packed && x.key.Some? {
        ElsewhereAt(v, w, y.key.value);
      }
    }
  }

  lemma ElsewhereMatch(a: View, v: View, w: View, m: map<nat, nat>, x: nat)
    requires Match(a, v, m, 0, x) && Elsewhere(v, w)
    ensures Match(a, w, Shift(m, v.base, w.base), 0, x)
  {
    hide EmptyArr, BucketMatch, ValMatch;
    var p := m[x] - v.base;
    ElsewhereAt(v, w, p);
    assert Shift(m, v.base, w.base)[x] == w.base + p;
    if a.mem[x].Cell? {
      ElsewhereVal(a, v, w, m, a.mem[x].val, v.mem[m[x]].val);
    } else if a.mem[x].Table? {
      var d := v.mem[m[x]].data;
      ElsewhereAt(v, w, d);
      var xs, ys := a.mem[a.base + a.mem[x].data].buckets, v.mem[v.base + d].buckets;
      forall i | 0 <= i < |xs|
        ensures BucketMatch(a, w, Shift(m, v.base, w.base), 0, a.mem[x].packed, xs[i], ys[i])
      {
        ElsewhereBucket(a, v, w, m, a.mem[x].packed, xs[i], ys[i]);
      }
    }
  }

  /** Position independence: an entry means the same wherever it is. */
  lemma ElsewhereIsomorphic(a: View, z: Zval, v: View, z2: Zval, w: View, m: map<nat, nat>)
    requires Isomorphic(a, z, v, z2, m) && Elsewhere(v, w)
    ensures Isomorphic(a, z, w, z2, Shift(m, v.base, w.base)) && Shift(m, v.base, w.base).Keys == m.Keys
  {
    hide ValMatch, Match;
    forall x | x in m
      ensures v.base <= m[x]
    {
      MatchedIn(a, v, m, x);
    }
    ElsewhereVal(a, v, w, m, z, z2);
    forall x | x in Shift(m, v.base, w.base)
      ensures Match(a, w, Shift(m, v.base, w.base), 0, x)
    {
      ElsewhereMatch(a, v, w, m, x);
    }
  }

  lemma MatchedIn(a: View, v: View, m: map<nat, nat>, x: nat)
    requires Match(a, v, m, 0, x)
    ensures x in m && m[x] in v.mem
  {
  }

  // ----- The copy of a graph is a graph -----

  lemma MatchedVal(a: View, r: set<nat>, b: View, m: map<nat, nat>, z: Zval, z2: Zval)
    requires ValMatch(a, b, m, z, z2) && ValOk(a, r, z) && forall x {:trigger Match(a, b, m, 0, x)} | x in m ::
             Match(a, b, m, 0, x)
    ensures ValOk(b, m.Values, z2)
  {
    match z
    case Str(p) => assert Match(a, b, m, 0, a.base + p);
    case Ref(p) => assert Match(a, b, m, 0, a.base + p);
    case Arr(p) =>
      if !EmptyArr(a, p) {
        assert Match(a, b, m, 0, a.base + p);
      }
    case _ =>
  }

  lemma MatchedNode(a: View, r: set<nat>, b: View, m: map<nat, nat>, x: nat)
    requires NodeOk(a, r, x) && Match(a, b, m, 0, x) && b.base <= m[x]
    requires forall x {:trigger Match(a, b, m, 0, x)} | x in m :: Match(a, b, m, 0, x)
    ensures NodeOk(b, m.Values, m[x])
  {
    hide ValMatch, ValOk, EmptyArr;
    if a.mem[x].Cell? {
      MatchedVal(a, r, b, m, a.mem[x].val, b.mem[m[x]].val);
    } else if a.mem[x].Table? {
      var xs, ys := BucketsAt(a, x - a.base), BucketsAt(b, m[x] - b.base);
      forall i | 0 <= i < |ys|
        ensures BucketOk(b, m.Values, a.mem[x].packed, ys[i])
      {
        assert BucketOk(a, r, a.mem[x].packed, xs[i]) && BucketMatch(a, b, m, 0, a.mem[x].packed, xs[i], ys[i]);
        if !xs[i].val.Undef? {
          MatchedVal(a, r, b, m, xs[i].val, ys[i].val);
        }
      }
    }
  }

  /** What a graph was copied to is a graph again. */
  lemma CopyClosed(a: View, r: set<nat>, z: Zval, b: View, z2: Zval, m: map<nat, nat>)
    requires Isomorphic(a, z, b, z2, m) && Closed(a, r) && m.Keys <= r && ValOk(a, r, z)
    requires b.base + b.mark !in m.Values && forall x | x in m :: b.base <= m[x]
    ensures Closed(b, m.Values) && ValOk(b, m.Values, z2)
  {
    hide ValMatch, ValOk, Match, NodeOk;
    MatchedVal(a, r, b, m, z, z2);
    forall y | y in m.Values
      ensures NodeOk(b, m.Values, y)
    {
      var x :| x in m && m[x] == y;
      assert NodeOk(a, r, x) && Match(a, b, m, 0, x);
      MatchedNode(a, r, b, m, x);
    }
  }
}
