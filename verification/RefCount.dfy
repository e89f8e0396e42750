/** Counting the pointers to the objects of a graph, for comparison with their reference counts. */
module RefCount {
  import opened HeapModel
  import opened ValueGraph

  /** The pointers to `q` in a value. */
  function Hits(z: Zval, q: nat): nat {
    if (z.Str? || z.Arr? || z.Ref?) && z.p == q then 1 else 0
  }

  function BucketHits(packed: bool, b: Bucket, q: nat): nat {
    if b.val.Undef? then 0
    else Hits(b.val, q) + (if !packed && b.key == Some(q) then 1 else 0)
  }

  ghost function ListHits(packed: bool, bs: seq<Bucket>, q: nat): nat {
    if bs == [] then 0 else BucketHits(packed, bs[0], q) + ListHits(packed, bs[1..], q)
  }

  /** The counted pointers in an object. */
  ghost function ObjHits(o: Obj, q: nat): nat {
    match o
    case Cell(_, z) => Hits(z, q)
    case Data(packed, _, bs) => ListHits(packed, bs, q)
    case _ => 0
  }

  ghost function Pointers(h: Memory, q: nat): nat
    decreases |h|
  {
    if h == map[] then 0
    else
      var a :| a in h;
      ObjHits(h[a], q) + Pointers(h - {a}, q)
  }

  ghost function RefsOf(h: Memory, q: nat): nat {
    if q in h && (h[q].Text? || h[q].Cell? || h[q].Table?) then h[q].refs else 0
  }

  /** How many references to `q` are counted that are in no object. */
  ghost function Excess(h: Memory, q: nat): int {
    RefsOf(h, q) - Pointers(h, q)
  }

  lemma {:induction false} PointersRemove(h: Memory, a: nat, q: nat)
    requires a in h
    ensures Pointers(h, q) == ObjHits(h[a], q) + Pointers(h - {a}, q)
    decreases |h|
  {
    var b :| b in h && Pointers(h, q) == ObjHits(h[b], q) + Pointers(h - {b}, q);
    hide Pointers, ObjHits;
    if a != b {
      PointersRemove(h - {b}, a, q);
      assert h - {b} - {a} == h - {a} - {b};
      PointersRemove(h - {a}, b, q);
    }
  }

  lemma PointersPut(h: Memory, a: nat, o: Obj, q: nat)
    ensures Pointers(h[a := o], q) == Pointers(h, q) + ObjHits(o, q) - (if a in h then ObjHits(h[a], q) else 0)
  {
    hide Pointers, ObjHits;
    PointersRemove(h[a := o], a, q);
    assert h[a := o] - {a} == h - {a};
    if a in h {
      PointersRemove(h, a, q);
    } else {
      assert h - {a} == h;
    }
  }

  lemma {:induction false} ListHitsPut(packed: bool, bs: seq<Bucket>, i: nat, b: Bucket, q: nat)
    requires i < |bs|
    ensures ListHits(packed, bs[i := b], q) == ListHits(packed, bs, q) + BucketHits(packed, b, q) - BucketHits(packed,
        bs[i], q)
  {
    hide BucketHits;
    var bs1 := bs[i := b];
    if i == 0 {
      assert bs1[1..] == bs[1..];
    } else {
      assert bs1[1..] == bs[1..][i - 1 := b];
      ListHitsPut(packed, bs[1..], i - 1, b, q);
    }
  }

  lemma {:induction false} ListHitsBlank(packed: bool, bs: seq<Bucket>, q: nat)
    requires NoneLive(bs)
    ensures ListHits(packed, bs, q) == 0
  {
    if bs != [] {
      ListHitsBlank(packed, bs[1..], q);
    }
  }

  // ----- What the steps of a copy do to the excess -----

  /** The references to objects are those in other objects, those that `h0` had in excess,
      and the one that `z` is. */
  ghost predicate OneMore(h0: Memory, h: Memory, z: Zval) {
    forall q: nat {:trigger Excess(h, q)} | q != EMPTY :: Excess(h, q) == Excess(h0, q) + Hits(z, q)
  }

  lemma OneMoreNothing(h: Memory, z: Zval)
    requires z.Undef? || z.Scalar? || z == Arr(EMPTY)
    ensures OneMore(h, h, z)
  {
    hide Excess;
    forall q: nat | q != EMPTY
      ensures Excess(h, q) == Excess(h, q) + Hits(z, q)
    {
      assert Hits(z, q) == 0;
    }
  }

  /** A new string. */
  lemma NewText(h: Memory, a: nat, o: Obj, z: Zval)
    requires a !in h && o.Text? && o.refs == 1 && (z == Str(a))
    ensures OneMore(h, h[a := o], z)
  {
    hide Pointers;
    forall q: nat | q != EMPTY
      ensures Excess(h[a := o], q) == Excess(h, q) + Hits(z, q)
    {
      PointersPut(h, a, o, q);
    }
  }

  ghost predicate PointsTo(z: Zval, a: nat) {
    (z.Str? || z.Arr? || z.Ref?) && z.p == a
  }

  function Bumped(o: Obj): Obj {
    match o
    case Text(n, h, cs) => Text(n + 1, h, cs)
    case Cell(n, z) => Cell(n + 1, z)
    case Table(n, packed, keyless, d) => Table(n + 1, packed, keyless, d)
    case _ => o
  }

  /** Another pointer to an object that is there. */
  lemma OneMoreRef(h: Memory, a: nat, z: Zval)
    requires a in h && (h[a].Text? || h[a].Cell? || h[a].Table?) && PointsTo(z, a)
    ensures OneMore(h, h[a := Bumped(h[a])], z)
  {
    hide Pointers;
    forall q: nat | q != EMPTY
      ensures Excess(h[a := Bumped(h[a])], q) == Excess(h, q) + Hits(z, q)
    {
      PointersPut(h, a, Bumped(h[a]), q);
    }
  }

  /** A new reference, which has no value yet, and later the value. */
  lemma NewCell(h: Memory, a: nat)
    requires a !in h
    ensures OneMore(h, h[a := Cell(1, Undef)], Ref(a))
  {
    hide Pointers;
    forall q: nat | q != EMPTY
      ensures Excess(h[a := Cell(1, Undef)], q) == Excess(h, q) + Hits(Ref(a), q)
    {
      PointersPut(h, a, Cell(1, Undef), q);
    }
  }

  lemma CellFilled(h0: Memory, h1: Memory, h2: Memory, a: nat, z: Zval)
    requires OneMore(h0, h1, Ref(a)) && OneMore(h1, h2, z) && a in h2 && h2[a].Cell? && h2[a].val == Undef
    ensures OneMore(h0, h2[a := Cell(h2[a].refs, z)], Ref(a))
  {
    hide Pointers;
    var h3 := h2[a := Cell(h2[a].refs, z)];
    forall q: nat | q != EMPTY
      ensures Excess(h3, q) == Excess(h0, q) + Hits(Ref(a), q)
    {
      PointersPut(h2, a, Cell(h2[a].refs, z), q);
      assert Excess(h2, q) == Excess(h1, q) + Hits(z, q) && Excess(h1, q) == Excess(h0, q) + Hits(Ref(a), q);
    }
  }

  /** A new array whose data is blank. */
  lemma NewTable(h: Memory, t: nat, d: nat, o: Obj, x: Obj)
    requires t !in h && d !in h && t != d && o.Table? && o.refs == 1 && x.Data? && NoneLive(x.buckets)
    ensures OneMore(h, h[t := o][d := x], Arr(t))
  {
    hide Pointers;
    forall q: nat | q != EMPTY
      ensures Excess(h[t := o][d := x], q) == Excess(h, q) + Hits(Arr(t), q)
    {
      PointersPut(h, t, o, q);
      PointersPut(h[t := o], d, x, q);
      ListHitsBlank(x.packed, x.buckets, q);
    }
  }

  /** Filling in a bucket: the new key, if there is one, and the value are in an object now. */
  lemma BucketFilled(h0: Memory, h1: Memory, h2: Memory, h3: Memory, d: nat, i: nat, b: Bucket, z: Zval)
    requires OneMore(h0, h1, z) && OneMore(h2, h3, b.val)
    requires d in h3 && h3[d].Data? && i < |h3[d].buckets| && h3[d].buckets[i].val.Undef? && !b.val.Undef?
    requires if !h3[d].packed && b.key.Some? then OneMore(h1, h2, Str(b.key.value)) else h2 == h1
    ensures OneMore(h0, h3[d := Data(h3[d].packed, h3[d].hashBytes, h3[d].buckets[i := b])], z)
  {
    hide Pointers, ListHits;
    var o := Data(h3[d].packed, h3[d].hashBytes, h3[d].buckets[i := b]);
    forall q: nat | q != EMPTY
      ensures Excess(h3[d := o], q) == Excess(h0, q) + Hits(z, q)
    {
      PointersPut(h3, d, o, q);
      ListHitsPut(h3[d].packed, h3[d].buckets, i, b, q);
      assert Excess(h3, q) == Excess(h2, q) + Hits(b.val, q) && Excess(h1, q) == Excess(h0, q) + Hits(z, q);
      if h2 != h1 {
        assert Excess(h2, q) == Excess(h1, q) + Hits(Str(b.key.value), q);
      }
    }
  }

  /** Every reference count is the number of pointers to the object, the root included. */
  ghost predicate ExactRefs(h: Memory, root: Zval) {
    forall q: nat {:trigger RefsOf(h, q)} | q != EMPTY :: RefsOf(h, q) == Pointers(h, q) + Hits(root, q)
  }

  lemma ExactFromNothing(h: Memory, root: Zval)
    requires OneMore(map[], h, root)
    ensures ExactRefs(h, root)
  {
    forall q: nat | q != EMPTY
      ensures RefsOf(h, q) == Pointers(h, q) + Hits(root, q)
    {
      assert Excess(h, q) == Excess(map[], q) + Hits(root, q);
    }
  }
}
