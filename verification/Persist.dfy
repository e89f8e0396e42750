/** The second pass of persisting a value: copies a graph into memory of the counted size, with
    all pointers relative to the entry. */
module Persist {
  import opened HeapModel
  import opened Packing
  import opened ValueGraph
  import opened PersistCalc
  import opened CopyState
  import opened Reachable

  class Copier {
    const src: View
    const base: nat            // address of the entry
    const end: nat             // where its memory ends
    const memoize: bool
    var mem: Memory
    var cur: nat               // where the next object goes
    var copied: map<nat, nat>
    ghost var m: map<nat, nat>
    ghost var seen: set<nat>
    ghost var keys: map<nat, Owner>

    ghost function St(): Copy
      reads this
    {
      Copy(View(mem, base, 0), m, seen, cur, keys)
    }

    ghost predicate Valid()
      reads this
    {
      CopyOk(src, St()) && cur <= end && (memoize ==> copied == m) && OneRefs(mem) && Tight(St())
    }

    constructor (src: View, base: nat, size: nat, memoize: bool)
      ensures this.src == src && this.base == base && end == base + size && this.memoize == memoize
      ensures mem == map[] && cur == base && copied == map[] && m == map[] && seen == {} && keys == map[]
    {
      this.src, this.base, this.memoize := src, base, memoize;
      end := base + size;
      mem, cur, copied, m, seen, keys := map[], base, map[], map[], {}, map[];
    }

    /** Takes the next bytes; they are always within what was counted. */
    method Alloc(size: nat) returns (a: nat)
      requires cur + Aligned(size) <= end
      modifies this`cur
      ensures a == old(cur) && cur == old(cur) + Aligned(size)
    {
      a := cur;
      cur := cur + Aligned(size);
      assert cur <= end;
    }

    /** Pointers in the copy are relative to the entry. */
    function ToOffset(a: nat): (p: nat)
      requires base <= a < end
      ensures p < end - base && base + p == a
    {
      a - base
    }

    /** Where the object was copied to before. */
    function Known(x: nat): (a: Option<nat>)
      requires Valid() && (memoize || m == map[])
      reads this
      ensures a == if x in m then Some(m[x]) else None
    {
      if memoize && x in copied then Some(copied[x]) else None
    }

    method Remember(x: nat, a: nat)
      modifies this`copied, this`m, this`seen
      ensures m == old(m)[x := a] && seen == old(seen) + {x}
      ensures memoize && old(copied == m) ==> copied == m
    {
      if memoize {
        copied := copied[x := a];
      }
      m, seen := m[x := a], seen + {x};
    }

    // ----- Copying -----

    method CopyText(o: Obj) returns (a: nat)
      requires o.Text? && cur + TextSize(|o.chars|) <= end
      modifies this`mem, this`cur
      ensures a == old(cur) && St() == Added(old(St()), Text(1, o.hash, o.chars))
              && (old(OneRefs(mem)) ==> OneRefs(mem))
    {
      a := Alloc(TEXT_HEADER + |o.chars| + 1);
      mem := mem[a := Text(1, o.hash, o.chars)];
    }

    method CopyStr(p: nat, ghost r: set<nat>) returns (a: nat)
      requires Valid() && Closed(src, r) && ValOk(src, r, Str(p)) && src.base + p !in seen
      requires Fits(src, r, Str(p), seen, cur, end)
      modifies this
      ensures Valid() && Grown(src, old(St()), St(), {}) && src.base + p in m && m[src.base + p] == a
      ensures CountedAs(src, r, Str(p), old(seen), seen, cur - old(cur))
    {
      hide OneRefs, Tight, CopyOk, Grown;
      var x := src.base + p;
      ghost var c := St();
      FreshNext(src, c);
      TightAdded(c, Text(1, src.mem[x].hash, src.mem[x].chars));
      a := CopyText(src.mem[x]);
      TightNoted(St(), x, a);
      Remember(x, a);
      TextGrown(src, c, St(), x);
    }

    /** Starts the copy of a reference, which still has the value of the original. */
    method StartCell(x: nat, z: Zval) returns (a: nat)
      requires cur + CELL_SIZE <= end
      modifies this
      ensures a == old(cur) && St() == CellStarted(old(St()), x, z) && (memoize && old(copied == m) ==> copied == m)
      ensures old(OneRefs(mem)) ==> OneRefs(mem)
    {
      a := Alloc(CELL_SIZE);
      mem := mem[a := Cell(1, z)];
      Remember(x, a);
    }

    method Overwrite(a: nat, o: Obj)
      requires OneRef(o)
      modifies this`mem
      ensures St() == With(old(St()), a, o) && (old(OneRefs(mem)) ==> OneRefs(mem))
    {
      mem := mem[a := o];
    }

    method StartHead(x: nat, o: Obj) returns (t: nat)
      requires cur + TABLE_SIZE <= end && o.Table? && o.refs == 1
      modifies this
      ensures t == old(cur) && St() == Noted(Added(old(St()), o), x, t)
      ensures (memoize && old(copied == m) ==> copied == m) && (old(OneRefs(mem)) ==> OneRefs(mem))
    {
      t := Alloc(TABLE_SIZE);
      mem := mem[t := o];
      Remember(x, t);
    }

    /** Starts the copy of an array: a table and its data, which still is that of the original. */
    method StartTable(x: nat) returns (t: nat, d: nat)
      requires LiveTable(src, x) && base <= cur && cur + StartedSize(src, x) <= end
      modifies this
      ensures t == old(cur) && d == t + TABLE_SIZE && (memoize && old(copied == m) ==> copied == m)
      ensures old(OneRefs(mem)) ==> OneRefs(mem)
      ensures St() == TableStarted(src, old(St()), x, true, DataOf(src, x).buckets)
    {
      hide LiveTable, DataOf, StartedSize, OneRefs;
      DataHere(src, x);
      var data := src.mem[src.base + src.mem[x].data];
      t := StartHead(x, Table(1, data.packed, true, cur + TABLE_SIZE - base));
      OneRefsPut(mem, cur, data);
      d := Alloc(data.hashBytes + |data.buckets| * (if data.packed then ZVAL_SIZE else BUCKET_SIZE));
      mem := mem[d := data];
    }

    method CopyRef(p: nat, ghost r: set<nat>) returns (a: nat)
      requires Valid() && Closed(src, r) && ValOk(src, r, Ref(p)) && memoize && src.base + p !in seen
      requires Fits(src, r, Ref(p), seen, cur, end)
      modifies this
      ensures Valid() && Grown(src, old(St()), St(), {}) && src.base + p in m && m[src.base + p] == a
      ensures CountedAs(src, r, Ref(p), old(seen), seen, cur - old(cur))
      decreases |r - seen|, 0
    {
      hide OneRefs, Tight, CopyOk, Grown, CalcVal, Closed, ValMatch, ValOk;
      var x := src.base + p;
      ghost var c := St();
      RefNode(src, r, p, seen);
      OneLess(r, seen, x);
      var z := src.mem[x].val;
      CellStart(src, c, x, z);
      FreshNext(src, c);
      TightAdded(c, Cell(1, z));
      TightNoted(Added(c, Cell(1, z)), x, cur);
      a := StartCell(x, z);
      var z2 := CopyZval(z, r);
      CellThere(src, c, St(), x, z);
      TightWith(St(), a, Cell(1, z2));
      CellDone(src, c, St(), x, z, z2, 1);
      Overwrite(a, Cell(1, z2));
    }

    /** Copies the key of a bucket; the array at `t` then has a key. */
    method CopyKey(x: nat, i: nat, t: nat, k: nat, keyless: bool, ghost ys: seq<Bucket>, ghost c0: Copy,
                   ghost s: Copy) returns (k2: nat)
      requires Valid() && t == c0.cur && InTable(src, c0, s, St(), x, i, keyless, ys)
      requires !DataOf(src, x).packed && TextAt(src, k) && cur + TextSize(TextLen(src, k)) <= end
      modifies this`mem, this`cur, this`keys
      ensures Valid() && InTable(src, c0, s, St(), x, i, false, ys) && KeyMatch(src, St().dst, s.cur, Some(k), Some(k2))
      ensures m == old(m) && seen == old(seen) && cur == old(cur) + TextSize(TextLen(src, k))
      ensures base + k2 in keys && keys[base + k2] == Owner(t + TABLE_SIZE, i)
    {
      hide OneRefs, Tight, CopyOk, InTable, LiveTable, Grown, DataOf;
      ghost var c := St();
      InTableParts(src, c0, s, c, x, i, keyless, ys);
      KeyAdded(src, c, s.cur, k, Owner(t + TABLE_SIZE, i));
      FreshNext(src, c);
      TightAdded(c, Text(1, src.mem[src.base + k].hash, src.mem[src.base + k].chars));
      TightOwned(St(), keys);
      var a := CopyText(src.mem[src.base + k]);
      TightOwned(St(), keys[a := Owner(t + TABLE_SIZE, i)]);
      keys := keys[a := Owner(t + TABLE_SIZE, i)];
      k2 := ToOffset(a);
      TableGrown(src, c0, s, c, x, i, keyless, ys, St());
      TableKeyed(src, c0, s, St(), x, i, keyless, ys, Table(1, false, false, t + TABLE_SIZE - base));
      KeyAlike(src, St(), t, s.cur, k, k2, Table(1, false, false, t + TABLE_SIZE - base));
      InTableParts(src, c0, s, St(), x, i, keyless, ys);
      TightWith(St(), t, Table(1, false, false, t + TABLE_SIZE - base));
      Overwrite(t, Table(1, false, false, t + TABLE_SIZE - base));
      InTableParts(src, c0, s, St(), x, i, false, ys);
    }

    /** Copies bucket `i` of the array at `x`, whose copy is at `t`. */
    method CopyBucket(x: nat, i: nat, t: nat, keyless: bool, ys: seq<Bucket>, ghost c0: Copy, ghost s: Copy,
                      ghost r: set<nat>)
      returns (keyless2: bool, ys2: seq<Bucket>)
      requires Valid() && Closed(src, r) && memoize && i < |ys| && t == c0.cur
      requires InTable(src, c0, s, St(), x, i, keyless, ys) && BucketFits(src, r, x, i, seen, cur, end)
      modifies this
      ensures Valid() && InTable(src, c0, s, St(), x, i + 1, keyless2, ys2)
              && BucketFits(src, r, x, i, old(seen), old(cur), end)
      ensures |ys2| == |ys| && forall j | i < j < |ys| :: ys2[j] == ys[j]
      ensures var b := DataOf(src, x).buckets[i];
              CountedAs(src, r, b.val, old(seen), seen, cur - old(cur) - KeySize(src, DataOf(src, x).packed, b))
      decreases |r - seen|, 3
    {
      hide OneRefs, Tight, CopyOk, Grown, InTable, CalcVal, Closed, ValMatch, ValOk, DataOf, LiveTable, KeyMatch;
      BucketReads(src, r, x, i);
      var data := src.mem[src.base + src.mem[x].data];
      var b := data.buckets[i];
      var key: Option<nat> := None;
      keyless2 := keyless;
      if !data.packed && b.key.Some? {
        var k := CopyKey(x, i, t, b.key.value, keyless, ys, c0, s);
        keyless2, key := false, Some(k);
      } else {
        NoKey(src, St().dst, s.cur);
      }
      ghost var c1 := St();
      var z2 := CopyZval(b.val, r);
      TableGrown(src, c0, s, c1, x, i, keyless2, ys, St());
      if !data.packed {
        KeyKept(src, c1, St(), s.cur, b.key, key);
      }
      if key.Some? {
        OwnerKept(src, c1, St(), base + key.value);
      }
      var y := Bucket(b.h, key, z2);
      TableBucket(src, c0, s, St(), x, i, keyless2, ys, y);
      ys2 := ys[i := y];
      InTableParts(src, c0, s, St(), x, i, keyless2, ys);
      TightWith(St(), t + TABLE_SIZE, Data(data.packed, data.hashBytes, ys2));
      Overwrite(t + TABLE_SIZE, Data(data.packed, data.hashBytes, ys2));
      InTableParts(src, c0, s, St(), x, i + 1, keyless2, ys2);
    }

    /** Copies the buckets of the array at `x`, whose copy was started at `t`. */
    method CopyBuckets(x: nat, t: nat, data: Obj, ghost c0: Copy, ghost r: set<nat>)
      requires Valid() && Closed(src, r) && memoize && t == c0.cur && LiveTable(src, x) && data == DataOf(src, x)
               && NodeOk(src, r, x)
      requires InTable(src, c0, St(), St(), x, 0, true, data.buckets)
               && ListFits(src, r, data.packed, data.buckets, seen, cur, end)
      modifies this
      ensures Valid() && Grown(src, c0, St(), {}) && x in m && m[x] == t
      ensures ListCountedAs(src, r, data.packed, data.buckets, old(seen), seen, cur - old(cur))
      decreases |r - seen|, 4
    {
      hide OneRefs, Tight, CopyOk, Grown, InTable, CalcVal, CalcList, Closed, BucketFits, AtBucket, LiveTable, DataOf,
           NodeOk;
      ghost var s := St();
      var i, ys, flag := 0, data.buckets, true;
      CountedAll(src, r, data.packed, data.buckets, seen);
      while i < |data.buckets|
        invariant i <= |data.buckets| == |ys| && Valid() && s.seen <= seen && s.cur <= cur
        invariant InTable(src, c0, s, St(), x, i, flag, ys) && ys[i..] == data.buckets[i..]
        invariant AtBucket(src, r, data.packed, data.buckets, s.seen, seen, i, cur - s.cur)
      {
        CountedNext(src, r, data.packed, data.buckets, s.seen, seen, i, cur - s.cur);
        assert ys[i] == ys[i..][0] == data.buckets[i];
        if data.buckets[i].val.Undef? {
          TableSkip(src, c0, s, St(), x, i, flag, ys);
        } else {
          FewerLeft(r, s.seen, seen);
          NextFits(src, r, x, i, s.seen, seen, cur, s.cur, end);
          flag, ys := CopyBucket(x, i, t, flag, ys, c0, s, r);
        }
        i := i + 1;
      }
      CountedNext(src, r, data.packed, data.buckets, s.seen, seen, i, cur - s.cur);
      TableDone(src, c0, s, St(), x, flag, ys);
    }

    method CopyTable(p: nat, ghost r: set<nat>) returns (a: nat)
      requires Valid() && Closed(src, r) && ValOk(src, r, Arr(p)) && memoize && src.base + p !in m
      requires Fits(src, r, Arr(p), seen, cur, end)
      modifies this
      ensures Valid() && Grown(src, old(St()), St(), {})
      ensures if EmptyArr(src, p) then a == base else src.base + p in m && m[src.base + p] == a
      ensures CountedAs(src, r, Arr(p), old(seen), seen, cur - old(cur))
      decreases |r - seen|, 0
    {
      hide OneRefs, Tight, CopyOk, Grown, InTable, CalcVal, CalcList, Closed, ValOk, EmptyArr, Placeable;
      var x := src.base + p;
      ghost var c0 := St();
      TableFacts(src, r, c0, p);
      if EmptyArr(src, p) {
        TightSeen(St(), x);
        seen := seen + {x};
        return base;
      }
      OneLess(r, seen, x);
      var data := src.mem[src.base + src.mem[x].data];
      TableStart(src, c0, x, true, data.buckets);
      TightTable(src, c0, x, true, data.buckets);
      var d: nat;
      a, d := StartTable(x);
      CopyBuckets(x, a, data, c0, r);
    }

    /** Copies what the value points to, unless it was copied before. */
    method CopyTarget(z: Zval, ghost r: set<nat>) returns (a: nat)
      requires Valid() && Closed(src, r) && ValOk(src, r, z) && FlatOr(memoize, z, seen) && (z.Str? || z.Arr? || z.Ref?)
      requires Fits(src, r, z, seen, cur, end)
      modifies this
      ensures Valid() && Grown(src, old(St()), St(), {}) && CountedAs(src, r, z, old(seen), seen, cur - old(cur))
      ensures if z.Arr? && EmptyArr(src, z.p) then a == base else src.base + z.p in m && m[src.base + z.p] == a
      decreases |r - seen|, 1
    {
      hide OneRefs, Tight, CopyOk, Grown, EmptyArr, Closed, CalcVal, Fits, ValOk;
      CopiedBefore(src, r, St(), z);
      var known := Known(src.base + z.p);
      if known.Some? {
        GrownSelf(src, St(), {});
        return known.value;
      }
      match z
      case Str(p) => a := CopyStr(p, r);
      case Arr(p) => a := CopyTable(p, r);
      case Ref(p) => a := CopyRef(p, r);
    }

    method CopyZval(z: Zval, ghost r: set<nat>) returns (z2: Zval)
      requires Valid() && Closed(src, r) && ValOk(src, r, z) && FlatOr(memoize, z, seen)
      requires Fits(src, r, z, seen, cur, end)
      modifies this
      ensures Valid() && Grown(src, old(St()), St(), {}) && ValMatch(src, St().dst, m, z, z2)
      ensures CountedAs(src, r, z, old(seen), seen, cur - old(cur)) && InRange(z2, end - base)
      decreases |r - seen|, 2
    {
      hide OneRefs, Tight, Room, Grown, EmptyArr, Closed, Done, ValOk;
      if z.Undef? || z.Scalar? {
        GrownSelf(src, St(), {});
        return z;
      }
      var a := CopyTarget(z, r);
      TargetRange(src, St(), z, a);
      match z
      case Str(_) => z2 := Str(ToOffset(a));
      case Arr(_) => z2 := Arr(ToOffset(a));
      case Ref(_) => z2 := Ref(ToOffset(a));
    }
  }

  lemma TargetRange(src: View, c: Copy, z: Zval, a: nat)
    requires CopyOk(src, c) && c.dst.mark == 0 && (z.Str? || z.Arr? || z.Ref?)
    requires if z.Arr? && EmptyArr(src, z.p) then a == c.dst.base else src.base + z.p in c.m && c.m[src.base + z.p] == a
    ensures c.dst.base <= a < c.cur && (a == c.dst.base <==> z.Arr? && EmptyArr(src, z.p))
  {
    hide Room, EmptyArr;
  }

  /** Copies in shared memory are referred to once, whatever the originals were. */
  ghost predicate OneRef(o: Obj) {
    o.Text? || o.Cell? || o.Table? ==> o.refs == 1
  }

  ghost predicate OneRefs(mem: Memory) {
    forall a | a in mem :: OneRef(mem[a])
  }

  lemma OneRefsPut(mem: Memory, a: nat, o: Obj)
    ensures OneRefs(mem) && OneRef(o) ==> OneRefs(mem[a := o])
  {
  }

  /** The pointer, if it is one, stays within the memory of the entry. */
  ghost predicate InRange(z: Zval, size: nat) {
    z.Str? || z.Arr? || z.Ref? ==> z.p < size
  }

  /** The value was counted without failure, and what its copy takes is still there. */
  ghost predicate Fits(v: View, r: set<nat>, z: Zval, seen: set<nat>, cur: nat, end: nat) {
    CalcVal(v, r, z, seen).outcome.Fine? && cur + CalcVal(v, r, z, seen).size <= end
  }

  /** Copying took exactly what was counted. */
  ghost predicate CountedAs(v: View, r: set<nat>, z: Zval, seen: set<nat>, seen1: set<nat>, size: int) {
    var t := CalcVal(v, r, z, seen);
    t.seen == seen1 && t.size == size
  }

  ghost predicate ListFits(v: View, r: set<nat>, packed: bool, bs: seq<Bucket>, seen: set<nat>, cur: nat, end: nat) {
    CalcList(v, r, packed, bs, 0, seen).outcome.Fine? && cur + CalcList(v, r, packed, bs, 0, seen).size <= end
  }

  ghost predicate ListCountedAs(v: View, r: set<nat>, packed: bool, bs: seq<Bucket>, seen: set<nat>, seen1: set<nat>,
                                size: int) {
    var t := CalcList(v, r, packed, bs, 0, seen);
    t.seen == seen1 && t.size == size
  }

  ghost predicate BucketFits(v: View, r: set<nat>, x: nat, i: nat, seen: set<nat>, cur: nat, end: nat) {
    && LiveTable(v, x) && NodeOk(v, r, x) && i < |DataOf(v, x).buckets| && !DataOf(v, x).buckets[i].val.Undef?
    && Fits(v, r, DataOf(v, x).buckets[i].val, seen, cur + KeySize(v, DataOf(v, x).packed, DataOf(v, x).buckets[i]),
            end)
  }

  lemma TightOwned(c: Copy, keys: map<nat, Owner>)
    requires Tight(c)
    ensures Tight(c.(keys := keys))
  {
  }

  lemma TightSeen(c: Copy, x: nat)
    requires Tight(c)
    ensures Tight(c.(seen := c.seen + {x}))
  {
  }

  lemma TightTable(src: View, c: Copy, x: nat, keyless: bool, raw: seq<Bucket>)
    requires CopyOk(src, c) && LiveTable(src, x) && Tight(c) && c.dst.base <= c.cur
    ensures Tight(TableStarted(src, c, x, keyless, raw))
  {
    hide CopyOk, Tight, LiveTable, DataOf;
    FreshNext(src, c);
    var t := Table(1, DataOf(src, x).packed, keyless, c.cur + TABLE_SIZE - c.dst.base);
    TightAdded(c, t);
    TightNoted(Added(c, t), x, c.cur);
    TightAdded(Noted(Added(c, t), x, c.cur), Data(DataOf(src, x).packed, DataOf(src, x).hashBytes, raw));
  }

  /** A key is not touched when the table it is for is written. */
  lemma KeyAlike(src: View, c: Copy, a: nat, lo: nat, k: nat, k2: nat, o: Obj)
    requires a < lo && KeyMatch(src, c.dst, lo, Some(k), Some(k2))
    ensures KeyMatch(src, With(c, a, o).dst, lo, Some(k), Some(k2))
  {
  }

  lemma TableFacts(v: View, r: set<nat>, c: Copy, p: nat)
    requires Closed(v, r) && ValOk(v, r, Arr(p)) && CopyOk(v, c) && v.base + p !in c.m
    ensures var x := v.base + p;
            if EmptyArr(v, p) then
              CalcVal(v, r, Arr(p), c.seen) == Tally(c.seen + {x}, 0, Fine)
              && CopyOk(v, c.(seen := c.seen + {x})) && Grown(v, c, c.(seen := c.seen + {x}), {})
            else
              && x in r && LiveTable(v, x) && TableFree(v, c, x) && NodeOk(v, r, x) && c.dst.base < c.cur
              && v.mem[v.base + v.mem[x].data] == DataOf(v, x)
              && var d := DataOf(v, x);
              var t := CalcList(v, r, d.packed, d.buckets, 0, c.seen + {x});
              CalcVal(v, r, Arr(p), c.seen) == Tally(t.seen, StartedSize(v, x) + t.size, t.outcome)
  {
    hide EmptyArr, Room, Done, CalcList, BucketsOk;
    var x := v.base + p;
    if EmptyArr(v, p) {
      SeenOk(v, c, x);
      assert c.seen + {x} == c.seen || x !in c.seen;
    } else {
      TableNode(v, r, p);
      assert NodeOk(v, r, x);
    }
  }

  lemma NextFits(v: View, r: set<nat>, x: nat, i: nat, seen0: set<nat>, seen: set<nat>, cur: nat, from: nat, end: nat)
    requires LiveTable(v, x) && NodeOk(v, r, x) && i < |DataOf(v, x).buckets| && !DataOf(v, x).buckets[i].val.Undef?
             && from <= cur
    requires var d := DataOf(v, x);
             && AtBucket(v, r, d.packed, d.buckets, seen0, seen, i, cur - from)
             && CalcList(v, r, d.packed, d.buckets, 0, seen0).outcome.Fine?
             && from + CalcList(v, r, d.packed, d.buckets, 0, seen0).size <= end
    ensures BucketFits(v, r, x, i, seen, cur, end)
  {
    hide CalcVal, EmptyArr, LiveTable, DataOf, NodeOk;
  }

  /** Whether an object was copied before tells whether it was counted before. */
  lemma CopiedBefore(v: View, r: set<nat>, c: Copy, z: Zval)
    requires CopyOk(v, c) && Closed(v, r) && ValOk(v, r, z) && (z.Str? || z.Arr? || z.Ref?)
    ensures var x := v.base + z.p;
            && (c.seen == {} ==> c.m == map[])
            && (x in c.m ==>
                  c.dst.base < c.m[x] < c.cur && CalcVal(v, r, z, c.seen) == Tally(c.seen, 0, Fine)
                  && (z.Arr? ==> !EmptyArr(v, z.p)))
            && (x !in c.m && !z.Arr? ==> x !in c.seen)
  {
    hide Room, EmptyArr;
    if !z.Arr? {
      assert NodeOk(v, r, v.base + z.p);
    }
  }
  // ----- The whole entry -----

  /** Only objects of the graph are counted, besides the mark of the empty array. */
  lemma {:induction false} CalcWithin(v: View, r: set<nat>, z: Zval, seen: set<nat>)
    requires Closed(v, r) && ValOk(v, r, z)
    ensures CalcVal(v, r, z, seen).seen <= seen + r + {v.base + v.mark}
    decreases |r - seen|, 0
  {
    hide EmptyArr, Closed, CalcList, CalcVal;
    CalcFlat(v, r, z, seen);
    match z
    case Ref(p) =>
      if v.base + p !in seen {
        RefNode(v, r, p, seen);
        OneLess(r, seen, v.base + p);
        CalcWithin(v, r, v.mem[v.base + p].val, seen + {v.base + p});
      }
    case Arr(p) =>
      if v.base + p !in seen {
        CountedTable(v, r, p, seen);
      }
      if v.base + p !in seen && !EmptyArr(v, p) {
        TableNode(v, r, p);
        OneLess(r, seen, v.base + p);
        var d := v.mem[v.base + v.mem[v.base + p].data];
        ListWithin(v, r, d.packed, d.buckets, 0, seen + {v.base + p});
      }
    case _ =>
  }

  /** Strings and what was counted before. */
  lemma CalcFlat(v: View, r: set<nat>, z: Zval, seen: set<nat>)
    ensures z.Str? ==> CalcVal(v, r, z, seen).seen == seen + {v.base + z.p}
    ensures z.Undef? || z.Scalar? || z.Other? ==> CalcVal(v, r, z, seen).seen == seen
    ensures (z.Ref? || z.Arr?) && v.base + z.p in seen ==> CalcVal(v, r, z, seen).seen == seen
    ensures z.Arr? && EmptyArr(v, z.p) ==> CalcVal(v, r, z, seen).seen == seen + {v.base + z.p}
  {
    hide EmptyArr, CalcList;
  }

  lemma {:induction false} ListWithin(v: View, r: set<nat>, packed: bool, bs: seq<Bucket>, i: nat, seen: set<nat>)
    requires Closed(v, r) && BucketsOk(v, r, packed, bs) && i <= |bs|
    ensures CalcList(v, r, packed, bs, i, seen).seen <= seen + r + {v.base + v.mark}
    decreases |r - seen|, 1 + |bs| - i
  {
    hide CalcVal, Closed, BucketsOk;
    if i < |bs| {
      if bs[i].val.Undef? {
        ListWithin(v, r, packed, bs, i + 1, seen);
      } else {
        BucketNode(v, r, packed, bs, i);
        CalcWithin(v, r, bs[i].val, seen);
        var t := CalcVal(v, r, bs[i].val, seen);
        if t.outcome.Fine? {
          FewerLeft(r, seen, t.seen);
          ListWithin(v, r, packed, bs, i + 1, t.seen);
        }
      }
    }
  }

  lemma PlacedWithin(src: View, r: set<nat>, c: Copy, z: Zval)
    requires Closed(src, r) && ValOk(src, r, z) && CopyOk(src, c) && c.seen == CalcVal(src, r, z, {}).seen
    ensures c.m.Keys <= r
  {
    hide Room, Closed, Injective, EmptyArr;
    CalcWithin(src, r, z, {});
    forall x | x in c.m
      ensures x in r
    {
      assert x in c.seen && Placeable(src, x);
    }
  }

  ghost function EntryStarted(base: nat, key: seq<Byte>, z: Zval, size: nat): Copy {
    Copy(View(map[base := Entry(key, z, size)], base, 0), map[], {}, base + EntrySize(|key|), map[])
  }

  lemma EntryStart(src: View, base: nat, key: seq<Byte>, z: Zval, size: nat)
    ensures CopyOk(src, EntryStarted(base, key, z, size))
  {
  }

  lemma EntryTight(base: nat, key: seq<Byte>, z: Zval, size: nat)
    ensures Tight(EntryStarted(base, key, z, size))
  {
    BytesPut(map[], base, Entry(key, z, size));
    assert map[][base := Entry(key, z, size)] == map[base := Entry(key, z, size)];
  }

  lemma AllMatch(src: View, c: Copy)
    requires forall x {:trigger Done(src, c, 0, x)} | x in c.m :: Done(src, c, 0, x)
    ensures forall x {:trigger Match(src, c.dst, c.m, 0, x)} | x in c.m :: Match(src, c.dst, c.m, 0, x)
  {
    hide Match;
    forall x | x in c.m
      ensures Match(src, c.dst, c.m, 0, x)
    {
      assert Done(src, c, 0, x);
    }
  }

  lemma EntryThere(src: View, base: nat, key: seq<Byte>, z0: Zval, size: nat, c: Copy)
    requires Grown(src, EntryStarted(base, key, z0, size), c, {})
    ensures base in c.dst.mem && c.dst.mem[base] == Entry(key, z0, size)
  {
    hide Done;
  }

  /** The entry is complete when its value is. */
  lemma EntryDone(src: View, r: set<nat>, base: nat, key: seq<Byte>, z0: Zval, z: Zval, z2: Zval, size: nat, c: Copy)
    requires Grown(src, EntryStarted(base, key, z0, size), c, {}) && CopyOk(src, c) && ValMatch(src, c.dst, c.m, z, z2)
    requires Closed(src, r) && ValOk(src, r, z) && c.seen == CalcVal(src, r, z, {}).seen
    ensures var c2 := With(c, base, Entry(key, z2, size));
            && EntryOf(src, z, c2.dst, key, size, c2.m) && Room(c2.dst, c2.cur) && c2.m.Keys <= r
            && KeysPrivate(c2.dst, c2.m)
  {
    hide Room, Done, ValMatch, CalcVal, Closed, ValOk, KeysApart, KeysPrivate;
    var s, c2 := EntryStarted(base, key, z0, size), With(c, base, Entry(key, z2, size));
    EntryStart(src, base, key, z0, size);
    OwnMore(src, s, c, {base});
    WithOk(src, c, base, Entry(key, z2, size));
    WithGrown(src, s, c, {base}, base, Entry(key, z2, size));
    ValKept(src, c.dst, c2.dst, c.m, c2.m, z, z2);
    PlacedWithin(src, r, c, z);
    forall x | x in c2.m
      ensures Done(src, c2, 0, x)
    {
      assert Done(src, c2, s.cur, x);
      DoneLower(src, c2, s.cur, 0, x);
    }
    AllMatch(src, c2);
    CopiedPrivate(src, c2);
    RoomBehind(c2.dst, c2.cur);
  }

  lemma RoomBehind(v: View, cur: nat)
    requires Room(v, cur)
    ensures Behind(v)
  {
  }

  /** In `dst` there is an entry with this key, and below it a copy of the graph of `z`. */
  ghost predicate EntryOf(src: View, z: Zval, dst: View, key: seq<Byte>, size: nat, m: map<nat, nat>) {
    && Behind(dst) && dst.mark == 0 && dst.base in dst.mem && dst.mem[dst.base].Entry?
    && dst.mem[dst.base].key == key && dst.mem[dst.base].memSize == size
    && Isomorphic(src, z, dst, dst.mem[dst.base].val, m) && forall x | x in m :: dst.base < m[x]
  }

  /** Counts what the entry takes. */
  method Measure(src: View, key: seq<Byte>, z: Zval, ghost r: set<nat>) returns (size: nat, outcome: Outcome)
    requires Closed(src, r) && ValOk(src, r, z) && !z.Ref?
    ensures outcome == CalcVal(src, r, z, {}).outcome && size == EntrySize(|key|) + CalcVal(src, r, z, {}).size
    ensures outcome.Fine? <==> Plain(src, z)
  {
    hide CalcVal, Closed, ValOk, Plain;
    FineIffPlain(src, r, z);
    var counter := new Calculator(src, z.Arr?);
    counter.size := EntrySize(|key|);
    var _ := counter.CalcZval(z, r);
    size, outcome := counter.size, counter.outcome;
  }

  /** Makes the entry in the memory at `base`, which has the counted size: all of it is used,
      and no more. */
  method CreateEntry(src: View, key: seq<Byte>, z: Zval, base: nat, size: nat, ghost r: set<nat>)
    returns (mem: Memory, ghost m: map<nat, nat>)
    requires Closed(src, r) && ValOk(src, r, z) && !z.Ref? && Plain(src, z)
    requires size == EntrySize(|key|) + CalcVal(src, r, z, {}).size
    ensures EntryOf(src, z, View(mem, base, 0), key, size, m) && Room(View(mem, base, 0), base + size) && m.Keys <= r
    ensures InRange(mem[base].val, size) && OneRefs(mem) && Bytes(mem) == size
    ensures WordAligned(View(mem, base, 0)) && size % 8 == 0
    ensures KeysPrivate(View(mem, base, 0), m)
  {
    hide CalcVal, Closed, ValOk, CopyOk, Grown, ValMatch, Plain;
    FineIffPlain(src, r, z);
    var copier := new Copier(src, base, size, z.Arr?);
    var e := copier.Alloc(ENTRY_HEADER + |key| + 1);
    copier.Overwrite(e, Entry(key, z, size));
    EntryStart(src, base, key, z, size);
    EntryTight(base, key, z, size);
    var z2 := copier.CopyZval(z, r);
    EntryDone(src, r, base, key, z, z, z2, size, copier.St());
    EntryThere(src, base, key, z, size, copier.St());
    TightWith(copier.St(), e, Entry(key, z2, size));
    copier.Overwrite(e, Entry(key, z2, size));
    mem, m := copier.mem, copier.m;
  }
}
