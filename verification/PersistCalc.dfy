/** The first pass of persisting a value: how much memory its copy takes. */
module PersistCalc {
  import opened ValueGraph

  // ----- Sizes in bytes -----

  const ZVAL_SIZE: nat := 16
  const BUCKET_SIZE: nat := 32
  const TABLE_SIZE: nat := 56
  const CELL_SIZE: nat := 32
  const TEXT_HEADER: nat := 24
  const ENTRY_HEADER: nat := 120

  function Aligned(n: nat): (r: nat)
    ensures n <= r < n + 8 && r % 8 == 0
  {
    (n + 7) / 8 * 8
  }

  function TextSize(len: nat): (r: nat)
    ensures r > 0
  {
    Aligned(TEXT_HEADER + len + 1)
  }

  function DataSize(packed: bool, hashBytes: nat, n: nat): nat {
    Aligned(hashBytes + n * (if packed then ZVAL_SIZE else BUCKET_SIZE))
  }

  function EntrySize(len: nat): (r: nat)
    ensures r > ENTRY_HEADER
  {
    Aligned(ENTRY_HEADER + len + 1)
  }

  // ----- The count -----

  /** A graph with an object has to be serialized; a resource cannot be stored at all. */
  datatype Outcome = Fine | NeedsSerializer | Unstorable

  /** Which objects have been counted and what they take. */
  datatype Tally = Tally(seen: set<nat>, size: nat, outcome: Outcome)

  function TextLen(v: View, p: nat): nat {
    if TextAt(v, p) then |v.mem[v.base + p].chars| else 0
  }

  function KeySize(v: View, packed: bool, b: Bucket): nat {
    if !packed && b.key.Some? then TextSize(TextLen(v, b.key.value)) else 0
  }

  lemma FewerLeft(r: set<nat>, seen: set<nat>, seen1: set<nat>)
    requires seen <= seen1
    ensures |r - seen1| <= |r - seen|
  {
    SubsetSize(r - seen1, r - seen);
  }

  lemma {:induction false} SubsetSize(a: set<nat>, b: set<nat>)
    requires a <= b
    ensures |a| <= |b|
    decreases |a|
  {
    if a != {} {
      var x :| x in a;
      SubsetSize(a - {x}, b - {x});
    }
  }

  lemma OneLess(r: set<nat>, seen: set<nat>, a: nat)
    requires a in r && a !in seen
    ensures |r - (seen + {a})| < |r - seen|
  {
    assert r - (seen + {a}) == r - seen - {a};
  }

  /** The count of a value when the objects in `seen` were counted before. */
  ghost function CalcVal(v: View, r: set<nat>, z: Zval, seen: set<nat>): (t: Tally)
    ensures seen <= t.seen
    decreases |r - seen|, 0
  {
    match z
    case Undef => Tally(seen, 0, Fine)
    case Scalar(_, _) => Tally(seen, 0, Fine)
    case Other(resource) => Tally(seen, 0, if resource then Unstorable else NeedsSerializer)
    case Str(p) =>
      var a := v.base + p;
      if a in seen then Tally(seen, 0, Fine) else Tally(seen + {a}, TextSize(TextLen(v, p)), Fine)
    case Ref(p) =>
      var a := v.base + p;
      if a in seen || a !in r || !CellAt(v, p) then Tally(seen, 0, Fine)
      else
        OneLess(r, seen, a);
        var t := CalcVal(v, r, v.mem[a].val, seen + {a});
        Tally(t.seen, CELL_SIZE + t.size, t.outcome)
    case Arr(p) =>
      var a := v.base + p;
      if a in seen then Tally(seen, 0, Fine)
      else if EmptyArr(v, p) || a !in r || !TableAt(v, p) then Tally(seen + {a}, 0, Fine)
      else
        OneLess(r, seen, a);
        var d := v.mem[v.base + v.mem[a].data];
        var t := CalcList(v, r, d.packed, d.buckets, 0, seen + {a});
        Tally(t.seen, TABLE_SIZE + DataSize(d.packed, d.hashBytes, |d.buckets|) + t.size, t.outcome)
  }

  ghost function CalcList(v: View, r: set<nat>, packed: bool, bs: seq<Bucket>, i: nat, seen: set<nat>): (t: Tally)
    requires i <= |bs|
    ensures seen <= t.seen
    decreases |r - seen|, 1 + |bs| - i
  {
    if i == |bs| then Tally(seen, 0, Fine)
    else if bs[i].val.Undef? then CalcList(v, r, packed, bs, i + 1, seen)
    else
      var t := CalcVal(v, r, bs[i].val, seen);
      if !t.outcome.Fine? then Tally(t.seen, KeySize(v, packed, bs[i]) + t.size, t.outcome)
      else
        FewerLeft(r, seen, t.seen);
        var t1 := CalcList(v, r, packed, bs, i + 1, t.seen);
        Tally(t1.seen, KeySize(v, packed, bs[i]) + t.size + t1.size, t1.outcome)
  }

  /** Sharing is only looked for in arrays: a string alone needs no table of what was counted. */
  ghost predicate FlatOr(memoize: bool, z: Zval, seen: set<nat>) {
    memoize || (seen == {} && (z.Undef? || z.Scalar? || z.Str? || z.Other?))
  }

  class Calculator {
    const src: View
    const memoize: bool
    var size: nat
    var counted: set<nat>      // objects already counted
    var outcome: Outcome
    ghost var seen: set<nat>

    constructor (src: View, memoize: bool)
      ensures this.src == src && this.memoize == memoize && size == 0 && seen == {} && outcome == Fine && Valid()
    {
      this.src, this.memoize := src, memoize;
      size, counted, outcome, seen := 0, {}, Fine, {};
    }

    ghost predicate Valid()
      reads this
    {
      memoize ==> counted == seen
    }

    /** Whether the object was counted before; if not, it is now. */
    method Memoize(a: nat) returns (known: bool)
      requires Valid() && (memoize || seen == {})
      modifies this`counted, this`seen
      ensures Valid() && known == (a in old(seen)) && seen == old(seen) + {a}
    {
      known := memoize && a in counted;
      if memoize {
        counted := counted + {a};
      }
      seen := seen + {a};
    }

    method CalcZval(z: Zval, ghost r: set<nat>) returns (ok: bool)
      requires Valid() && Closed(src, r) && ValOk(src, r, z) && FlatOr(memoize, z, seen) && outcome == Fine
      modifies this
      ensures var t := CalcVal(src, r, z, old(seen));
              Valid() && (t.outcome.Fine? ==> seen == t.seen) && size == old(size) + t.size && outcome == t.outcome
                  && ok == t.outcome.Fine?
      decreases |r - seen|, 1
    {
      if z.Undef? || z.Scalar? {
        return true;
      }
      if z.Other? {
        outcome := if z.resource then Unstorable else NeedsSerializer;
        return false;
      }
      var a := src.base + z.p;
      ghost var before := seen;
      var known := Memoize(a);
      if known {
        assert seen == before;
        return true;
      }
      match z
      case Str(p) =>
        size := size + TextSize(|src.mem[a].chars|);
        ok := true;
      case Arr(p) =>
        ok := CalcTable(p, r, before);
      case Ref(p) =>
        assert NodeOk(src, r, a);
        OneLess(r, before, a);
        size := size + CELL_SIZE;
        ok := CalcZval(src.mem[a].val, r);
    }

    method CalcTable(p: nat, ghost r: set<nat>, ghost before: set<nat>) returns (ok: bool)
      requires Valid() && Closed(src, r) && ValOk(src, r, Arr(p)) && memoize && outcome == Fine
      requires src.base + p !in before && seen == before + {src.base + p}
      modifies this
      ensures var t := CalcVal(src, r, Arr(p), before);
              Valid() && (t.outcome.Fine? ==> seen == t.seen) && size == old(size) + t.size && outcome == t.outcome
                  && ok == t.outcome.Fine?
      decreases |r - before|, 0
    {
      hide CalcVal, CalcList, ValOk, BucketsOk, Closed, AtBucket, EmptyArr;
      CountedTable(src, r, p, before);
      if EmptyArr(src, p) {
        return true;
      }
      var a := src.base + p;
      TableNode(src, r, p);
      OneLess(r, before, a);
      var d := src.mem[src.base + src.mem[a].data];
      size := size + TABLE_SIZE + DataSize(d.packed, d.hashBytes, |d.buckets|);
      ghost var size0 := size;
      CountedAll(src, r, d.packed, d.buckets, before + {a});
      var i := 0;
      while i < |d.buckets|
        invariant i <= |d.buckets| && Valid() && outcome == Fine && before + {a} <= seen
        invariant size >= size0 && AtBucket(src, r, d.packed, d.buckets, before + {a}, seen, i, size - size0)
      {
        CountedNext(src, r, d.packed, d.buckets, before + {a}, seen, i, size - size0);
        if !d.buckets[i].val.Undef? {
          BucketNode(src, r, d.packed, d.buckets, i);
          if !d.packed && d.buckets[i].key.Some? {
            size := size + TextSize(|src.mem[src.base + d.buckets[i].key.value].chars|);
          }
          FewerLeft(r, before + {a}, seen);
          var fine := CalcZval(d.buckets[i].val, r);
          if !fine {
            return false;
          }
        }
        i := i + 1;
      }
      CountedNext(src, r, d.packed, d.buckets, before + {a}, seen, i, size - size0);
      ok := true;
    }
  }

  /** Of the buckets, the first `i` have been counted, from `seen0` on, with the given size. */
  ghost predicate AtBucket(v: View, r: set<nat>, packed: bool, bs: seq<Bucket>, seen0: set<nat>, seen: set<nat>, i: nat,
                           size: nat) {
    i <= |bs| &&
    var all, rest := CalcList(v, r, packed, bs, 0, seen0), CalcList(v, r, packed, bs, i, seen);
    all.seen == rest.seen && all.size == size + rest.size && all.outcome == rest.outcome
  }

  lemma CountedAll(v: View, r: set<nat>, packed: bool, bs: seq<Bucket>, seen: set<nat>)
    ensures AtBucket(v, r, packed, bs, seen, seen, 0, 0)
  {
    hide CalcList;
  }

  lemma CountedNext(v: View, r: set<nat>, packed: bool, bs: seq<Bucket>, seen0: set<nat>, seen: set<nat>, i: nat,
                    size: nat)
    requires AtBucket(v, r, packed, bs, seen0, seen, i, size)
    ensures i == |bs| ==>
              var all := CalcList(v, r, packed, bs, 0, seen0);
              all.seen == seen && all.size == size && all.outcome.Fine?
    ensures i < |bs| && bs[i].val.Undef? ==> AtBucket(v, r, packed, bs, seen0, seen, i + 1, size)
    ensures i < |bs| && !bs[i].val.Undef? ==>
              var t, all := CalcVal(v, r, bs[i].val, seen), CalcList(v, r, packed, bs, 0, seen0);
              if t.outcome.Fine?
                then AtBucket(v, r, packed, bs, seen0, t.seen, i + 1, size + KeySize(v, packed, bs[i]) + t.size)
              else all.size == size + KeySize(v, packed, bs[i]) + t.size && all.outcome == t.outcome
    ensures i < |bs| && !bs[i].val.Undef? && CalcList(v, r, packed, bs, 0, seen0).outcome.Fine? ==>
              CalcVal(v, r, bs[i].val, seen).outcome.Fine?
  {
    hide CalcVal;
  }

  /** An array is counted with its table, its data and then its buckets. */
  lemma CountedTable(v: View, r: set<nat>, p: nat, seen: set<nat>)
    requires v.base + p !in seen
    ensures EmptyArr(v, p) ==> CalcVal(v, r, Arr(p), seen) == Tally(seen + {v.base + p}, 0, Fine)
    ensures !EmptyArr(v, p) && v.base + p in r && TableAt(v, p) ==>
              var d := v.mem[v.base + v.mem[v.base + p].data];
              var t := CalcList(v, r, d.packed, d.buckets, 0, seen + {v.base + p});
              var head := TABLE_SIZE + DataSize(d.packed, d.hashBytes, |d.buckets|);
              CalcVal(v, r, Arr(p), seen) == Tally(t.seen, head + t.size, t.outcome)
  {
    hide CalcList;
  }

  /** What a reference leads to, and what it is counted as. */
  lemma RefNode(v: View, r: set<nat>, p: nat, seen: set<nat>)
    requires Closed(v, r) && ValOk(v, r, Ref(p)) && v.base + p !in seen
    ensures v.base + p in r && CellAt(v, p) && ValOk(v, r, v.mem[v.base + p].val) && p != v.mark
    ensures var t := CalcVal(v, r, v.mem[v.base + p].val, seen + {v.base + p});
            CalcVal(v, r, Ref(p), seen) == Tally(t.seen, CELL_SIZE + t.size, t.outcome)
  {
    assert NodeOk(v, r, v.base + p);
  }
}
