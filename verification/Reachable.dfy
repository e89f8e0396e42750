/** Which graphs can be stored: exactly those in which no object and no resource is reachable. */
module Reachable {
  import opened ValueGraph
  import opened PersistCalc

  // ----- Reachability -----

  /** `z` refers to an array or a reference that holds the value `w`. */
  ghost predicate PointsInto(v: View, z: Zval, w: Zval) {
    match z
    case Ref(p) => CellAt(v, p) && w == v.mem[v.base + p].val
    case Arr(p) => !EmptyArr(v, p) && exists i :: 0 <= i < |BucketsAt(v, p)| && BucketsAt(v, p)[i].val == w && !w.Undef?
    case _ => false
  }

  /** Each value of the path is inside the one before it. */
  ghost predicate IsPath(v: View, path: seq<Zval>) {
    path != [] && forall i, j | 0 <= i < |path| && 0 <= j < |path| && j == i + 1 :: PointsInto(v, path[i], path[j])
  }

  ghost predicate LeadsTo(v: View, z: Zval, path: seq<Zval>) {
    IsPath(v, path) && path[0] == z
  }

  /** Along no path from `z` there is an object or a resource. */
  ghost predicate Plain(v: View, z: Zval) {
    forall path: seq<Zval> {:trigger LeadsTo(v, z, path)} | LeadsTo(v, z, path) :: !path[|path| - 1].Other?
  }

  lemma PathCons(v: View, z: Zval, w: Zval, path: seq<Zval>)
    requires PointsInto(v, z, w) && LeadsTo(v, w, path)
    ensures LeadsTo(v, z, [z] + path) && path != []
  {
    hide PointsInto;
  }

  // ----- What fails has a reason -----

  /** If the count fails, a path leads to what it failed at. */
  lemma {:induction false} Culprit(v: View, r: set<nat>, z: Zval, seen: set<nat>) returns (path: seq<Zval>)
    requires Closed(v, r) && ValOk(v, r, z) && !CalcVal(v, r, z, seen).outcome.Fine?
    ensures LeadsTo(v, z, path)
    ensures path[|path| - 1] == Other(CalcVal(v, r, z, seen).outcome == Unstorable)
    decreases |r - seen|, 0
  {
    hide EmptyArr, Closed, CalcList, CalcVal, LeadsTo, PointsInto, ValOk;
    FailsAt(v, r, z, seen);
    match z
    case Ref(p) =>
      RefNode(v, r, p, seen);
      OneLess(r, seen, v.base + p);
      var w := v.mem[v.base + p].val;
      path := Culprit(v, r, w, seen + {v.base + p});
      InCell(v, p);
      PathCons(v, z, w, path);
      path := [z] + path;
    case Arr(p) =>
      CountedTable(v, r, p, seen);
      TableNode(v, r, p);
      OneLess(r, seen, v.base + p);
      var d := v.mem[v.base + v.mem[v.base + p].data];
      var i: nat;
      i, path := ListCulprit(v, r, d.packed, d.buckets, 0, seen + {v.base + p});
      InArray(v, p, i);
      PathCons(v, z, d.buckets[i].val, path);
      path := [z] + path;
    case _ =>
      path := [z];
      PathOne(v, z);
  }

  lemma {:induction false} ListCulprit(v: View, r: set<nat>, packed: bool, bs: seq<Bucket>, i: nat, seen: set<nat>)
    returns (k: nat, path: seq<Zval>)
    requires Closed(v, r) && BucketsOk(v, r, packed, bs) && i <= |bs|
             && !CalcList(v, r, packed, bs, i, seen).outcome.Fine?
    ensures k < |bs| && !bs[k].val.Undef? && LeadsTo(v, bs[k].val, path)
    ensures path[|path| - 1] == Other(CalcList(v, r, packed, bs, i, seen).outcome == Unstorable)
    decreases |r - seen|, 1 + |bs| - i
  {
    hide CalcVal, Closed, BucketsOk, LeadsTo;
    if bs[i].val.Undef? {
      k, path := ListCulprit(v, r, packed, bs, i + 1, seen);
    } else {
      BucketNode(v, r, packed, bs, i);
      var t := CalcVal(v, r, bs[i].val, seen);
      if t.outcome.Fine? {
        FewerLeft(r, seen, t.seen);
        k, path := ListCulprit(v, r, packed, bs, i + 1, t.seen);
      } else {
        k := i;
        path := Culprit(v, r, bs[i].val, seen);
      }
    }
  }

  /** Only objects and resources fail by themselves. */
  lemma FailsAt(v: View, r: set<nat>, z: Zval, seen: set<nat>)
    requires !CalcVal(v, r, z, seen).outcome.Fine?
    ensures z.Ref? || z.Arr? ==> v.base + z.p !in seen
    ensures z.Arr? ==> !EmptyArr(v, z.p)
    ensures !z.Ref? && !z.Arr? ==> z == Other(CalcVal(v, r, z, seen).outcome == Unstorable)
  {
    hide EmptyArr, CalcList;
  }

  lemma PathOne(v: View, z: Zval)
    ensures LeadsTo(v, z, [z])
  {
  }

  lemma InCell(v: View, p: nat)
    requires CellAt(v, p)
    ensures PointsInto(v, Ref(p), v.mem[v.base + p].val)
  {
  }

  lemma InArray(v: View, p: nat, i: nat)
    requires !EmptyArr(v, p) && TableAt(v, p)
    requires var bs := v.mem[v.base + v.mem[v.base + p].data].buckets; i < |bs| && !bs[i].val.Undef?
    ensures PointsInto(v, Arr(p), v.mem[v.base + v.mem[v.base + p].data].buckets[i].val)
  {
    var bs := v.mem[v.base + v.mem[v.base + p].data].buckets;
    assert BucketsAt(v, p) == bs && bs[i].val == BucketsAt(v, p)[i].val;
  }

  // ----- What was counted has no objects in it -----

  /** The value is no object, and what it refers to has been counted. */
  ghost predicate InSeen(v: View, s: set<nat>, z: Zval) {
    !z.Other? && (z.Str? || z.Ref? || z.Arr? ==> v.base + z.p in s)
  }

  /** So is everything in the object at `a`. */
  ghost predicate Tallied(v: View, s: set<nat>, a: nat) {
    forall z: Zval, w: Zval {:trigger PointsInto(v, z, w)} |
      (z.Ref? || z.Arr?) && v.base + z.p == a && PointsInto(v, z, w) :: InSeen(v, s, w)
  }

  ghost predicate AllCounted(v: View, seen: set<nat>, s: set<nat>) {
    forall a {:trigger Tallied(v, s, a)} | a in s && a !in seen && a != v.base + v.mark :: Tallied(v, s, a)
  }

  lemma CountedMore(v: View, s: set<nat>, s2: set<nat>, a: nat)
    requires Tallied(v, s, a) && s <= s2
    ensures Tallied(v, s2, a)
  {
    hide PointsInto;
  }

  lemma AllCountedMore(v: View, seen: set<nat>, s: set<nat>, s2: set<nat>)
    requires AllCounted(v, seen, s) && AllCounted(v, s, s2) && s <= s2
    ensures AllCounted(v, seen, s2)
  {
    hide Tallied;
    forall a | a in s2 && a !in seen && a != v.base + v.mark
      ensures Tallied(v, s2, a)
    {
      if a in s {
        assert Tallied(v, s, a);
        CountedMore(v, s, s2, a);
      }
    }
  }

  lemma {:induction false} CalcCounts(v: View, r: set<nat>, z: Zval, seen: set<nat>)
    requires Closed(v, r) && ValOk(v, r, z) && CalcVal(v, r, z, seen).outcome.Fine?
    ensures var s := CalcVal(v, r, z, seen).seen; InSeen(v, s, z) && AllCounted(v, seen, s)
    decreases |r - seen|, 0
  {
    hide EmptyArr, Closed, CalcList, CalcVal, Tallied, PointsInto, ValOk;
    var s := CalcVal(v, r, z, seen).seen;
    FineSeen(v, r, z, seen);
    match z
    case Ref(p) =>
      var a := v.base + p;
      if a !in seen {
        RefNode(v, r, p, seen);
        OneLess(r, seen, a);
        CalcCounts(v, r, v.mem[a].val, seen + {a});
        CellCounted(v, s, p);
        OneCounted(v, seen, s, a);
      }
    case Arr(p) =>
      var a := v.base + p;
      if a !in seen {
        CountedTable(v, r, p, seen);
        if EmptyArr(v, p) {
          EmptyCounted(v, r, s, p);
        } else {
          TableNode(v, r, p);
          OneLess(r, seen, a);
          var d := v.mem[v.base + v.mem[a].data];
          ListCounts(v, r, d.packed, d.buckets, 0, seen + {a});
          TableCounted(v, s, p);
          OneCounted(v, seen, s, a);
        }
      }
    case Str(p) =>
      TextCounted(v, r, s, p);
    case _ =>
  }

  lemma {:induction false} ListCounts(v: View, r: set<nat>, packed: bool, bs: seq<Bucket>, i: nat, seen: set<nat>)
    requires Closed(v, r) && BucketsOk(v, r, packed, bs) && i <= |bs|
             && CalcList(v, r, packed, bs, i, seen).outcome.Fine?
    ensures var s := CalcList(v, r, packed, bs, i, seen).seen;
            AllCounted(v, seen, s) && forall k | i <= k < |bs| && !bs[k].val.Undef? :: InSeen(v, s, bs[k].val)
    decreases |r - seen|, 1 + |bs| - i
  {
    hide CalcVal, Closed, BucketsOk, AllCounted;
    if i < |bs| {
      if bs[i].val.Undef? {
        ListCounts(v, r, packed, bs, i + 1, seen);
      } else {
        BucketNode(v, r, packed, bs, i);
        var t := CalcVal(v, r, bs[i].val, seen);
        CalcCounts(v, r, bs[i].val, seen);
        FewerLeft(r, seen, t.seen);
        ListCounts(v, r, packed, bs, i + 1, t.seen);
        AllCountedMore(v, seen, t.seen, CalcList(v, r, packed, bs, i + 1, t.seen).seen);
      }
    } else {
      NoneNew(v, seen);
    }
  }

  lemma NoneNew(v: View, seen: set<nat>)
    ensures AllCounted(v, seen, seen)
  {
  }

  lemma FineSeen(v: View, r: set<nat>, z: Zval, seen: set<nat>)
    requires CalcVal(v, r, z, seen).outcome.Fine?
    ensures !z.Other? && ((z.Ref? || z.Arr?) && v.base + z.p in seen ==> CalcVal(v, r, z, seen).seen == seen)
    ensures z.Str? ==> CalcVal(v, r, z, seen).seen == seen + {v.base + z.p}
    ensures z.Undef? || z.Scalar? ==> CalcVal(v, r, z, seen).seen == seen
  {
    hide EmptyArr, CalcList;
  }

  lemma OneCounted(v: View, seen: set<nat>, s: set<nat>, a: nat)
    requires AllCounted(v, seen + {a}, s) && Tallied(v, s, a)
    ensures AllCounted(v, seen, s)
  {
    hide Tallied;
  }

  lemma CellCounted(v: View, s: set<nat>, p: nat)
    requires CellAt(v, p) && InSeen(v, s, v.mem[v.base + p].val)
    ensures Tallied(v, s, v.base + p)
  {
    hide EmptyArr;
    forall z: Zval, w: Zval | (z.Ref? || z.Arr?) && v.base + z.p == v.base + p && PointsInto(v, z, w)
      ensures InSeen(v, s, w)
    {
      CellNoArray(v, p);
    }
  }

  lemma CellNoArray(v: View, p: nat)
    requires CellAt(v, p)
    ensures EmptyArr(v, p)
  {
  }

  lemma TableCounted(v: View, s: set<nat>, p: nat)
    requires TableAt(v, p)
    requires var bs := v.mem[v.base + v.mem[v.base + p].data].buckets;
             forall k | 0 <= k < |bs| && !bs[k].val.Undef? :: InSeen(v, s, bs[k].val)
    ensures Tallied(v, s, v.base + p)
  {
    hide EmptyArr;
    assert BucketsAt(v, p) == v.mem[v.base + v.mem[v.base + p].data].buckets;
  }

  /** An array without elements holds nothing. */
  lemma EmptyCounted(v: View, r: set<nat>, s: set<nat>, p: nat)
    requires EmptyArr(v, p) && ValOk(v, r, Arr(p))
    ensures p != v.mark ==> Tallied(v, s, v.base + p)
  {
    hide EmptyArr;
  }

  lemma TextCounted(v: View, r: set<nat>, s: set<nat>, p: nat)
    requires ValOk(v, r, Str(p))
    ensures Tallied(v, s, v.base + p)
  {
  }

  // ----- Both directions -----

  lemma InsideOk(v: View, r: set<nat>, z: Zval, w: Zval)
    requires Closed(v, r) && ValOk(v, r, z) && PointsInto(v, z, w)
    ensures ValOk(v, r, w) && v.base + z.p != v.base + v.mark && (z.Ref? || z.Arr?)
  {
    hide EmptyArr, BucketsOk;
    match z
    case Ref(p) => assert NodeOk(v, r, v.base + p);
    case Arr(p) =>
      MarkEmpty(v);
      TableNode(v, r, p);
      var i :| 0 <= i < |BucketsAt(v, p)| && BucketsAt(v, p)[i].val == w && !w.Undef?;
      BucketNode(v, r, v.mem[v.base + p].packed, BucketsAt(v, p), i);
    case _ =>
  }

  lemma {:induction false} PathCounted(v: View, r: set<nat>, s: set<nat>, path: seq<Zval>, n: nat)
    requires Closed(v, r) && IsPath(v, path) && ValOk(v, r, path[0]) && InSeen(v, s, path[0]) && AllCounted(v, {}, s)
             && n < |path|
    ensures ValOk(v, r, path[n]) && InSeen(v, s, path[n])
  {
    hide Closed, ValOk, PointsInto;
    if n > 0 {
      PathCounted(v, r, s, path, n - 1);
      var z, w := path[n - 1], path[n];
      assert PointsInto(v, z, w);
      InsideOk(v, r, z, w);
      assert Tallied(v, s, v.base + z.p);
    }
  }

  /** The count succeeds exactly if no object and no resource is reachable; if it fails, one
      of the kind that is reported is reachable. */
  lemma FineIffPlain(v: View, r: set<nat>, z: Zval)
    requires Closed(v, r) && ValOk(v, r, z)
    ensures CalcVal(v, r, z, {}).outcome.Fine? <==> Plain(v, z)
    ensures !CalcVal(v, r, z, {}).outcome.Fine? ==>
              exists path ::
                  LeadsTo(v, z, path) && path[|path| - 1] == Other(CalcVal(v, r, z, {}).outcome == Unstorable)
  {
    hide Closed, ValOk, CalcVal, PointsInto, Tallied;
    if CalcVal(v, r, z, {}).outcome.Fine? {
      CalcCounts(v, r, z, {});
      var s := CalcVal(v, r, z, {}).seen;
      forall path: seq<Zval> | LeadsTo(v, z, path)
        ensures !path[|path| - 1].Other?
      {
        PathCounted(v, r, s, path, |path| - 1);
      }
    } else {
      var path := Culprit(v, r, z, {});
      assert LeadsTo(v, z, path);
    }
  }
}
