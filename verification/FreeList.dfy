/** Boundary tags and the doubly linked free list, as kept in block headers. */
module FreeList {
  import opened Blocks
  import opened Segment

  // ----- The list -----

  /** The headers of `c` are linked to each other in this order, in both directions, and
      nothing follows the last one. */
  ghost predicate Chain(hd: Headers, c: seq<nat>) {
    && (|c| > 0 ==> c[|c| - 1] in hd && hd[c[|c| - 1]].fnext == 0)
    && (forall k | 0 <= k < |c| :: c[k] in hd)
    && (forall j, k | 0 <= j < |c| && 0 <= k < |c| && k == j + 1 :: hd[c[j]].fnext == c[k] && hd[c[k]].fprev == c[j])
  }

  ghost predicate Distinct(c: seq<nat>) {
    forall j, k | 0 <= j < k < |c| :: c[j] != c[k]
  }

  ghost function Unlinked(hd: Headers, cur: nat): Headers
    requires cur in hd && hd[cur].fprev in hd && hd[cur].fnext in hd
  {
    var p, n := hd[cur].fprev, hd[cur].fnext;
    var hd1 := hd[p := hd[p].(fnext := n)];
    hd1[n := hd1[n].(fprev := p)]
  }

  ghost function LinkedAfter(hd: Headers, dst: nat, cur: nat): Headers
    requires dst in hd && cur in hd && hd[dst].fnext in hd
  {
    var n := hd[dst].fnext;
    var hd1 := hd[cur := hd[cur].(fnext := n, fprev := dst)];
    var hd2 := hd1[dst := hd1[dst].(fnext := cur)];
    hd2[n := hd2[n].(fprev := cur)]
  }

  /** Linking writes change links of the nodes in `s` only, and leave no link to offset 0. */
  ghost predicate LinksOnly(hd: Headers, hd1: Headers, s: set<nat>) {
    && hd1.Keys == hd.Keys
    && (forall p | p in hd :: hd1[p].size == hd[p].size && hd1[p].prevSize == hd[p].prevSize)
    && (forall p | p in hd && p !in s :: hd1[p] == hd[p])
    && (forall p | p in hd && p in s && hd[p].fnext != 0 :: hd1[p].fnext != 0)
  }

  ghost function Elements(c: seq<nat>): set<nat> {
    set k | 0 <= k < |c| :: c[k]
  }

  lemma UnlinkChain(hd: Headers, c: seq<nat>, i: nat)
    requires Chain(hd, c) && Distinct(c) && 0 < i < |c| - 1
    ensures hd[c[i]].fprev == c[i - 1] && hd[c[i]].fnext == c[i + 1]
    ensures Chain(Unlinked(hd, c[i]), c[..i] + c[i + 1..])
  {
    assert hd[c[i]].fprev == c[i - 1] && hd[c[i]].fnext == c[i + 1];
    var hd1, c1 := Unlinked(hd, c[i]), c[..i] + c[i + 1..];
    assert c1[|c1| - 1] == c[|c| - 1];
    forall j, k | 0 <= j < |c1| && 0 <= k < |c1| && k == j + 1
      ensures hd1[c1[j]].fnext == c1[k] && hd1[c1[k]].fprev == c1[j]
    {
      var j0 := if j < i then j else j + 1;
      var k0 := if k < i then k else k + 1;
      assert c1[j] == c[j0] && c1[k] == c[k0];
    }
  }

  lemma UnlinkFrame(hd: Headers, c: seq<nat>, i: nat)
    requires Chain(hd, c) && Distinct(c) && 0 < i < |c| - 1 && 0 !in hd
    requires hd[c[i]].fprev == c[i - 1] && hd[c[i]].fnext == c[i + 1]
    ensures LinksOnly(hd, Unlinked(hd, c[i]), Elements(c) - {c[i]})
  {
    assert c[i - 1] in Elements(c) && c[i + 1] in Elements(c);
    assert c[i - 1] != c[i] && c[i + 1] != c[i];
  }

  lemma LinkChain(hd: Headers, c: seq<nat>, cur: nat)
    requires Chain(hd, c) && Distinct(c) && |c| >= 2 && cur in hd && cur !in c
    ensures hd[c[0]].fnext == c[1]
    ensures Chain(LinkedAfter(hd, c[0], cur), [c[0], cur] + c[1..])
  {
    assert hd[c[0]].fnext == c[1];
    var hd1, c1 := LinkedAfter(hd, c[0], cur), [c[0], cur] + c[1..];
    assert c1[|c1| - 1] == c[|c| - 1];
    forall j, k | 0 <= j < |c1| && 0 <= k < |c1| && k == j + 1
      ensures hd1[c1[j]].fnext == c1[k] && hd1[c1[k]].fprev == c1[j]
    {
      if j >= 2 {
        assert c1[j] == c[j - 1] && c1[k] == c[k - 1];
      } else {
        assert c1[2] == c[1];
      }
    }
  }

  lemma LinkFrame(hd: Headers, c: seq<nat>, cur: nat)
    requires Chain(hd, c) && |c| >= 2 && cur in hd && 0 !in hd && hd[c[0]].fnext == c[1]
    ensures LinksOnly(hd, LinkedAfter(hd, c[0], cur), Elements(c) + {cur})
    ensures LinkedAfter(hd, c[0], cur)[cur].fnext != 0
  {
    assert c[0] in Elements(c) && c[1] in Elements(c);
    assert c[0] in hd && c[1] in hd;
  }

  // ----- The boundary tags -----

  /** An allocated block shows fnext 0 and its used words; a free one has a link. */
  ghost predicate HeadTag(h: Header, b: Block) {
    if b.Used? then h.fnext == 0 && h.fprev == b.need else h.fnext != 0
  }

  ghost predicate Heads(hd: Headers, bs: Tiles, but: set<nat>) {
    forall o | o in bs :: o in hd && hd[o].size == bs[o].size && (o !in but ==> HeadTag(hd[o], bs[o]))
  }

  ghost function FreeSize(b: Block): nat {
    if b.Free? then b.size else 0
  }

  /** `prev_size` tells the size of the block before it, or 0 if that block is allocated. */
  ghost predicate Tags(hd: Headers, bs: Tiles, but: set<nat>) {
    forall o {:trigger Step(bs, o)} | o in bs && o !in but ::
      Step(bs, o) in hd && hd[Step(bs, o)].prevSize == FreeSize(bs[o])
  }

  /** The segment starts with a block of size 0 below `lo` and ends with one at `hi`. */
  ghost predicate Ends(hd: Headers, bs: Tiles, lo: nat, hi: nat) {
    && 4 < lo && hd.Keys == bs.Keys + {lo - 4, hi}
    && hd[lo - 4].size == 0 && hd[hi].size == 0
    && lo in hd && hd[lo].prevSize == 0
  }

  ghost predicate Shape(hd: Headers, bs: Tiles, lo: nat, hi: nat, headBut: set<nat>, tagBut: set<nat>) {
    Ends(hd, bs, lo, hi) && Heads(hd, bs, headBut) && Tags(hd, bs, tagBut)
  }

  lemma LinksKeepShape(hd: Headers, hd1: Headers, s: set<nat>, bs: Tiles, lo: nat, hi: nat, headBut: set<nat>,
                       tagBut: set<nat>)
    requires Shape(hd, bs, lo, hi, headBut, tagBut) && LinksOnly(hd, hd1, s)
    requires forall p | p in s && p in bs :: bs[p].Free?
    ensures Shape(hd1, bs, lo, hi, headBut, tagBut)
  {
  }

  /** The list from the first sentinel through the free blocks to the last sentinel. */
  ghost function Spine(lo: nat, hi: nat, fl: seq<nat>): (c: seq<nat>)
    requires 4 <= lo
    ensures |c| == |fl| + 2 && c[0] == lo - 4
  {
    [lo - 4] + fl + [hi]
  }

  /** `fl` lists every free block once, apart from those in `but`. */
  ghost predicate Lists(fl: seq<nat>, bs: Tiles, but: set<nat>) {
    Distinct(fl) && forall o: nat :: o in fl <==> o in bs && bs[o].Free? && o !in but
  }

  lemma SpineDistinct(fl: seq<nat>, bs: Tiles, lo: nat, hi: nat, but: set<nat>)
    requires Ranged(bs, lo, hi) && Lists(fl, bs, but) && 4 <= lo <= hi
    ensures Distinct(Spine(lo, hi, fl))
    ensures forall p | p in Elements(Spine(lo, hi, fl)) && p in bs :: bs[p].Free?
  {
    var c := Spine(lo, hi, fl);
    forall k | 0 < k < |c| - 1
      ensures c[k] in bs && bs[c[k]].Free?
    {
      assert c[k] == fl[k - 1] && fl[k - 1] in fl;
    }
  }

  /** `s` without its first occurrence of `x`. */
  ghost function Without(s: seq<nat>, x: nat): seq<nat> {
    if s == [] then [] else if s[0] == x then s[1..] else [s[0]] + Without(s[1..], x)
  }

  lemma {:induction false} WithoutAt(s: seq<nat>, i: nat)
    requires Distinct(s) && i < |s|
    ensures Without(s, s[i]) == s[..i] + s[i + 1..]
  {
    if i > 0 {
      assert s[0] != s[i];
      assert Distinct(s[1..]);
      WithoutAt(s[1..], i - 1);
      assert s[1..][..i - 1] == s[1..i] && s[1..][i..] == s[i + 1..];
      assert [s[0]] + s[1..i] == s[..i];
    } else {
      assert s[..0] + s[1..] == s[1..];
    }
  }

  lemma WithoutLists(s: seq<nat>, x: nat)
    requires Distinct(s) && x in s
    ensures Distinct(Without(s, x)) && x !in Without(s, x)
    ensures forall o: nat :: o in Without(s, x) <==> o in s && o != x
  {
    var i :| 0 <= i < |s| && s[i] == x;
    WithoutAt(s, i);
    forall o: nat | o in s && o != x
      ensures o in s[..i] + s[i + 1..]
    {
      var j :| 0 <= j < |s| && s[j] == o;
      assert (s[..i] + s[i + 1..])[if j < i then j else j - 1] == o;
    }
  }
}
