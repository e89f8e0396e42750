/** The shared memory segment: one flat array of machine words.  Every word is reached by
    its offset only.  The two ghost maps say which words currently hold a block header and
    which hold the payload of an allocation; the offset-based accesses of the allocator and
    of its clients are specified by what they do to these maps. */
module Segment {

  /** The four words at the start of a block. */
  datatype Header = Header(size: int, prevSize: int, fnext: int, fprev: int)

  type Headers = map<nat, Header>
  type Payloads = map<nat, seq<int>>

  ghost function HeaderAt(m: seq<int>, p: nat): Header
    requires p + 4 <= |m|
  {
    Header(m[p], m[p + 1], m[p + 2], m[p + 3])
  }

  ghost predicate HeadersIn(m: seq<int>, hd: Headers) {
    forall p | p in hd :: p + 4 <= |m| && hd[p] == HeaderAt(m, p)
  }

  ghost predicate PayloadsIn(m: seq<int>, pay: Payloads) {
    forall e | e in pay :: e + |pay[e]| <= |m| && pay[e] == m[e..e + |pay[e]|]
  }

  ghost predicate HeadersApart(hd: Headers) {
    forall p, q | p in hd && q in hd && p < q :: p + 4 <= q
  }

  ghost predicate PayloadsApart(pay: Payloads) {
    forall e, f | e in pay && f in pay && e < f :: e + |pay[e]| <= f
  }

  ghost predicate HeadersOffPayloads(hd: Headers, pay: Payloads) {
    forall p, e | p in hd && e in pay :: p + 4 <= e || e + |pay[e]| <= p
  }

  /** The header words and payload words are where the maps say, and none of them overlap. */
  ghost predicate Laid(m: seq<int>, hd: Headers, pay: Payloads) {
    && HeadersIn(m, hd) && PayloadsIn(m, pay)
    && HeadersApart(hd) && PayloadsApart(pay) && HeadersOffPayloads(hd, pay)
  }

  ghost predicate SameLengths(pay: Payloads, pay1: Payloads) {
    pay.Keys == pay1.Keys && forall e | e in pay :: |pay[e]| == |pay1[e]|
  }

  ghost function SetField(h: Header, f: nat, x: int): Header
    requires f < 4
  {
    match f
    case 0 => h.(size := x)
    case 1 => h.(prevSize := x)
    case 2 => h.(fnext := x)
    case _ => h.(fprev := x)
  }

  lemma HeaderWrite(m: seq<int>, hd: Headers, pay: Payloads, p: nat, f: nat, x: int)
    requires Laid(m, hd, pay) && p in hd && f < 4
    ensures Laid(m[p + f := x], hd[p := SetField(hd[p], f, x)], pay)
  {
    var m1 := m[p + f := x];
    forall e | e in pay
      ensures pay[e] == m1[e..e + |pay[e]|]
    {
      assert pay[e] == m[e..e + |pay[e]|];
      assert p + 4 <= e || e + |pay[e]| <= p;
    }
  }

  lemma PayloadWriteIn(m: seq<int>, pay: Payloads, e: nat, i: nat, x: int)
    requires PayloadsIn(m, pay) && PayloadsApart(pay) && e in pay && i < |pay[e]|
    ensures e + i < |m| && PayloadsIn(m[e + i := x], pay[e := pay[e][i := x]])
  {
    var m1, pay1 := m[e + i := x], pay[e := pay[e][i := x]];
    forall f | f in pay1
      ensures f + |pay1[f]| <= |m1| && pay1[f] == m1[f..f + |pay1[f]|]
    {
      assert pay[f] == m[f..f + |pay[f]|];
    }
  }

  lemma PayloadWrite(m: seq<int>, hd: Headers, pay: Payloads, e: nat, i: nat, x: int)
    requires Laid(m, hd, pay) && e in pay && i < |pay[e]|
    ensures e + i < |m| && Laid(m[e + i := x], hd, pay[e := pay[e][i := x]])
  {
    hide PayloadsIn;
    PayloadWriteIn(m, pay, e, i, x);
    assert HeadersIn(m[e + i := x], hd);
  }

  /** The words from `to` up to the end of the block at `from` belong to no one else. */
  ghost predicate OnlyThese(hd: Headers, pay: Payloads, to: nat, from: nat, end: nat) {
    && (forall p | p in hd && p != to && p != from :: p + 4 <= to || end <= p)
    && (forall e | e in pay && e != from + 4 :: e + |pay[e]| <= to || end <= e)
  }

  ghost predicate CanMove(m: seq<int>, hd: Headers, pay: Payloads, to: nat, from: nat) {
    && Laid(m, hd, pay) && to < from && to in hd && from in hd && from + 4 in pay
    && OnlyThese(hd, pay, to, from, from + 4 + |pay[from + 4]|)
  }

  ghost function MovedHeaders(hd: Headers, to: nat, from: nat): Headers
    requires from in hd
  {
    (hd - {from})[to := hd[from]]
  }

  ghost function MovedPayloads(pay: Payloads, to: nat, from: nat): Payloads
    requires from + 4 in pay
  {
    (pay - {from + 4})[to + 4 := pay[from + 4]]
  }

  ghost function Shifted(m: seq<int>, to: nat, from: nat, len: nat): seq<int>
    requires to <= from && from + len <= |m|
  {
    m[..to] + m[from..from + len] + m[to + len..]
  }

  lemma MovedHeadersIn(m: seq<int>, m1: seq<int>, hd: Headers, pay: Payloads, to: nat, from: nat)
    requires CanMove(m, hd, pay, to, from)
    requires var len := 4 + |pay[from + 4]|;
             from + len <= |m| && m1 == Shifted(m, to, from, len)
    ensures HeadersIn(m1, MovedHeaders(hd, to, from))
    ensures HeadersApart(MovedHeaders(hd, to, from))
  {
    hide PayloadsIn, PayloadsApart, HeadersOffPayloads;
    var hd1, len := MovedHeaders(hd, to, from), 4 + |pay[from + 4]|;
    forall p | p in hd1
      ensures p + 4 <= |m1| && hd1[p] == HeaderAt(m1, p)
    {
      if p == to {
        assert m1[to] == m[from] && m1[to + 1] == m[from + 1] && m1[to + 2] == m[from + 2] && m1[to + 3] == m[from + 3];
      } else {
        assert hd[p] == HeaderAt(m, p);
      }
    }
  }

  lemma MovedPayloadsIn(m: seq<int>, m1: seq<int>, hd: Headers, pay: Payloads, to: nat, from: nat)
    requires CanMove(m, hd, pay, to, from)
    requires var len := 4 + |pay[from + 4]|;
             from + len <= |m| && m1 == Shifted(m, to, from, len)
    ensures PayloadsIn(m1, MovedPayloads(pay, to, from))
  {
    hide HeadersIn, PayloadsApart, HeadersOffPayloads, HeadersApart;
    var pay1, len := MovedPayloads(pay, to, from), 4 + |pay[from + 4]|;
    forall e | e in pay1
      ensures e + |pay1[e]| <= |m1| && pay1[e] == m1[e..e + |pay1[e]|]
    {
      if e == to + 4 {
        assert pay[from + 4] == m[from + 4..from + len];
      } else {
        assert pay[e] == m[e..e + |pay[e]|];
      }
    }
  }

  lemma MovedApart(m: seq<int>, hd: Headers, pay: Payloads, to: nat, from: nat)
    requires CanMove(m, hd, pay, to, from)
    ensures PayloadsApart(MovedPayloads(pay, to, from))
    ensures HeadersOffPayloads(MovedHeaders(hd, to, from), MovedPayloads(pay, to, from))
  {
  }

  lemma MoveKeepsLayout(m: seq<int>, hd: Headers, pay: Payloads, to: nat, from: nat)
    requires CanMove(m, hd, pay, to, from)
    ensures from + 4 + |pay[from + 4]| <= |m|
    ensures Laid(Shifted(m, to, from, 4 + |pay[from + 4]|), MovedHeaders(hd, to, from), MovedPayloads(pay, to, from))
  {
    var m1 := Shifted(m, to, from, 4 + |pay[from + 4]|);
    MovedHeadersIn(m, m1, hd, pay, to, from);
    MovedPayloadsIn(m, m1, hd, pay, to, from);
    MovedApart(m, hd, pay, to, from);
    hide HeadersIn, PayloadsIn, HeadersApart, PayloadsApart, HeadersOffPayloads;
  }

  ghost predicate NoOverlapAt(hd: Headers, pay: Payloads, from: nat, end: nat) {
    && (forall p | p in hd :: p + 4 <= from || end <= p)
    && (forall e | e in pay :: e + |pay[e]| <= from || end <= e)
  }

  lemma NoOverlapWithin(hd: Headers, hd1: Headers, pay: Payloads, from: nat, end: nat, from1: nat, end1: nat)
    requires NoOverlapAt(hd, pay, from, end) && hd1.Keys == hd.Keys && from <= from1 && end1 <= end
    ensures NoOverlapAt(hd1, pay, from1, end1)
  {
  }

  lemma PayloadAdded(m: seq<int>, hd: Headers, pay: Payloads, e: nat, len: nat)
    requires Laid(m, hd, pay) && e + len <= |m| && NoOverlapAt(hd, pay, e, e + len)
    ensures Laid(m, hd, pay[e := m[e..e + len]])
  {
    hide HeadersIn, HeadersApart;
  }

  lemma ShiftedIs(m: seq<int>, m1: seq<int>, to: nat, from: nat, len: nat)
    requires to <= from && from + len <= |m| == |m1|
    requires forall k :: to <= k < to + len ==> m1[k] == m[k + (from - to)]
    requires forall k :: 0 <= k < to || to + len <= k < |m| ==> m1[k] == m[k]
    ensures m1 == Shifted(m, to, from, len)
  {
    assert m1[..to] == m[..to];
    assert m1[to..to + len] == m[from..from + len];
    assert m1[to + len..] == m[to + len..];
    assert m1 == m1[..to] + m1[to..to + len] + m1[to + len..];
  }

  /** The word-by-word copy behind memmove when the target lies below the source. */
  method CopyDown(a: array<int>, to: nat, from: nat, len: nat)
    requires to <= from && from + len <= a.Length
    modifies a
    ensures a[..] == Shifted(old(a[..]), to, from, len)
  {
    hide Shifted;
    ghost var m := a[..];
    var i := 0;
    while i < len
      invariant 0 <= i <= len
      invariant forall k :: to <= k < to + i ==> a[k] == m[k + (from - to)]
      invariant forall k :: 0 <= k < to || to + i <= k < a.Length ==> a[k] == m[k]
    {
      a[to + i] := a[from + i];
      i := i + 1;
    }
    ShiftedIs(m, a[..], to, from, len);
  }

  class Words {
    const words: array<int>
    ghost var hd: Headers
    ghost var pay: Payloads

    ghost predicate Valid()
      reads this, words
    {
      Laid(words[..], hd, pay)
    }

    constructor (n: nat)
      ensures Valid() && words.Length == n && hd == map[] && pay == map[] && fresh(words)
    {
      words := new int[n];
      hd, pay := map[], map[];
    }

    function Size(p: nat): (x: int)
      requires Valid() && p in hd
      reads this, words
      ensures x == hd[p].size
    {
      words[p]
    }

    function PrevSize(p: nat): (x: int)
      requires Valid() && p in hd
      reads this, words
      ensures x == hd[p].prevSize
    {
      words[p + 1]
    }

    function Fnext(p: nat): (x: int)
      requires Valid() && p in hd
      reads this, words
      ensures x == hd[p].fnext
    {
      words[p + 2]
    }

    function Fprev(p: nat): (x: int)
      requires Valid() && p in hd
      reads this, words
      ensures x == hd[p].fprev
    {
      words[p + 3]
    }

    /** The word at address `a`, which lies in the allocation at `e`. */
    function Load(a: nat, ghost e: nat): (x: int)
      requires Valid() && e in pay && e <= a < e + |pay[e]|
      reads this, words
      ensures x == pay[e][a - e]
    {
      assert pay[e] == words[..][e..e + |pay[e]|];
      assert words[..][a] == words[..][e..e + |pay[e]|][a - e];
      words[a]
    }

    method Put(p: nat, f: nat, x: int)
      requires Valid() && p in hd && f < 4
      modifies this, words
      ensures Valid() && pay == old(pay) && hd == old(hd)[p := SetField(old(hd)[p], f, x)]
    {
      ghost var m := words[..];
      HeaderWrite(m, hd, pay, p, f, x);
      words[p + f] := x;
      hd := hd[p := SetField(hd[p], f, x)];
      assert words[..] == m[p + f := x];
    }

    method SetSize(p: nat, x: int)
      requires Valid() && p in hd
      modifies this, words
      ensures Valid() && pay == old(pay) && hd == old(hd)[p := old(hd)[p].(size := x)]
    {
      Put(p, 0, x);
    }

    method SetPrevSize(p: nat, x: int)
      requires Valid() && p in hd
      modifies this, words
      ensures Valid() && pay == old(pay) && hd == old(hd)[p := old(hd)[p].(prevSize := x)]
    {
      Put(p, 1, x);
    }

    method SetFnext(p: nat, x: int)
      requires Valid() && p in hd
      modifies this, words
      ensures Valid() && pay == old(pay) && hd == old(hd)[p := old(hd)[p].(fnext := x)]
    {
      Put(p, 2, x);
    }

    method SetFprev(p: nat, x: int)
      requires Valid() && p in hd
      modifies this, words
      ensures Valid() && pay == old(pay) && hd == old(hd)[p := old(hd)[p].(fprev := x)]
    {
      Put(p, 3, x);
    }

    /** Writes all four words of a header. */
    method SetHeader(p: nat, size: int, prevSize: int, fnext: int, fprev: int)
      requires Valid() && p in hd
      modifies this, words
      ensures Valid() && pay == old(pay) && hd == old(hd)[p := Header(size, prevSize, fnext, fprev)]
    {
      hide Laid;
      SetSize(p, size);
      SetPrevSize(p, prevSize);
      SetFnext(p, fnext);
      SetFprev(p, fprev);
    }

    method Store(a: nat, x: int, ghost e: nat)
      requires Valid() && e in pay && e <= a < e + |pay[e]|
      modifies this, words
      ensures Valid() && hd == old(hd) && pay == old(pay)[e := old(pay)[e][a - e := x]]
    {
      hide Laid;
      ghost var m := words[..];
      PayloadWrite(m, hd, pay, e, a - e, x);
      words[a] := x;
      pay := pay[e := pay[e][a - e := x]];
      assert words[..] == m[a := x];
    }

    /** From now on a block header is kept at `p`. */
    ghost method AddHeader(p: nat)
      requires Valid() && p + 4 <= words.Length && NoOverlapAt(hd, pay, p, p + 4)
      modifies this
      ensures Valid() && pay == old(pay)
      ensures hd == old(hd)[p := HeaderAt(words[..], p)]
    {
      hd := hd[p := HeaderAt(words[..], p)];
    }

    ghost method DropHeader(p: nat)
      requires Valid()
      modifies this
      ensures Valid() && pay == old(pay) && hd == old(hd) - {p}
    {
      hd := hd - {p};
    }

    /** From now on the `len` words at `e` are the payload of an allocation. */
    ghost method AddPayload(e: nat, len: nat)
      requires Valid() && e + len <= words.Length && NoOverlapAt(hd, pay, e, e + len)
      modifies this
      ensures Valid() && hd == old(hd)
      ensures pay == old(pay)[e := words[e..e + len]]
    {
      PayloadAdded(words[..], hd, pay, e, len);
      hide Laid, NoOverlapAt;
      pay := pay[e := words[e..e + len]];
    }

    ghost method DropPayload(e: nat)
      requires Valid()
      modifies this
      ensures Valid() && hd == old(hd) && pay == old(pay) - {e}
    {
      pay := pay - {e};
    }

    /** Replaces the payload words by those of the memory image `m1`. */
    method Overwrite(m1: seq<int>, ghost pay1: Payloads)
      requires Valid() && |m1| == words.Length && Laid(m1, hd, pay1)
      modifies this, words
      ensures Valid() && hd == old(hd) && pay == pay1
    {
      hide Laid;
      forall i | 0 <= i < words.Length {
        words[i] := m1[i];
      }
      pay := pay1;
      assert words[..] == m1;
    }

    /** Moves the block at `from` with its header down to `to`; the areas may overlap. */
    method Move(to: nat, from: nat, len: nat)
      requires Valid() && CanMove(words[..], hd, pay, to, from) && len == 4 + |pay[from + 4]|
      modifies this, words
      ensures Valid()
      ensures hd == MovedHeaders(old(hd), to, from) && pay == MovedPayloads(old(pay), to, from)
    {
      hide Laid, MovedHeaders, MovedPayloads, OnlyThese;
      ghost var m := words[..];
      MoveKeepsLayout(m, hd, pay, to, from);
      CopyDown(words, to, from, len);
      hd, pay := MovedHeaders(hd, to, from), MovedPayloads(pay, to, from);
    }
  }
}
