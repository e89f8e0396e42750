/** An entry as words: where the objects of a persisted graph lie in the memory of the entry,
    which words spell them, and how they are read back from the words. */
module EntryWords {
  import opened HeapModel
  import opened Packing
  import opened CacheLists
  import opened CacheModel
  import opened ValueGraph
  import opened PersistCalc
  import opened CopyState

  const IS_ARRAY: int := 7
  const IS_OBJECT: int := 8
  const IS_RESOURCE: int := 9
  const IS_REFERENCE: int := 10

  // ----- The words of an object -----

  /** A value takes two words: what it holds or where it points to, and its type. */
  function ValWords(z: Zval): (ws: seq<int>)
    ensures |ws| == 2
  {
    match z
    case Undef => [0, 0]
    case Scalar(kind, bits) => [bits, kind]
    case Str(p) => [p, IS_STRING]
    case Arr(p) => [p, IS_ARRAY]
    case Ref(p) => [p, IS_REFERENCE]
    case Other(resource) => [0, if resource then IS_RESOURCE else IS_OBJECT]
  }

  function BucketWords(packed: bool, b: Bucket): (ws: seq<int>)
    ensures |ws| == BucketLen(packed)
  {
    if packed then ValWords(b.val) else ValWords(b.val) + [b.h, if b.key.Some? then b.key.value else 0]
  }

  function BucketLen(packed: bool): nat {
    if packed then 2 else 4
  }

  function ListWords(packed: bool, bs: seq<Bucket>): (ws: seq<int>)
    ensures |ws| == |bs| * BucketLen(packed)
  {
    if bs == [] then [] else BucketWords(packed, bs[0]) + ListWords(packed, bs[1..])
  }

  /** An array: reference count, flags with the size of the hash part, where its data is, and
      how many buckets are used. */
  function TableWords(t: Obj, d: Obj): (ws: seq<int>)
    requires t.Table? && d.Data?
  {
    var flags := (if t.packed then 1 else 0) + (if t.keyless then 2 else 0);
    [t.refs, flags + 4 * d.hashBytes, t.data, |d.buckets|]
  }

  /** The words of an entry from its value on, up to the end of its key. */
  function EntryBody(hash: Hash, key: seq<Byte>, z: Zval): (ws: seq<int>)
    ensures |ws| == |key| / 8 + 6
  {
    ValWords(z) + [1, hash(key), |key|] + Pack(key)
  }

  /** The words that spell the object at `a`; of an entry those from its value on. */
  function ObjWords(hash: Hash, v: View, a: nat): (ws: seq<int>)
    requires a in v.mem
  {
    match v.mem[a]
    case Text(refs, h, cs) => [refs, h, |cs|] + Pack(cs)
    case Cell(refs, z) => [refs] + ValWords(z)
    case Table(_, _, _, data) =>
      if v.base <= a && TableAt(v, a - v.base) then TableWords(v.mem[a], v.mem[v.base + data]) else []
    case Data(packed, _, bs) => ListWords(packed, bs)
    case Entry(key, z, _) => EntryBody(hash, key, z)
  }

  /** How many words of the object come before those that spell it: the metadata of an entry,
      and the hash part of an array. */
  function Skipped(o: Obj): nat {
    match o
    case Entry(_, _, _) => VAL
    case Data(_, hashBytes, _) => (hashBytes + 7) / 8
    case _ => 0
  }

  /** Where the words of the object at `a` are among the words of the entry, from its value on. */
  function PlaceOf(v: View, a: nat): int
    requires a in v.mem
  {
    (a - v.base) / 8 + Skipped(v.mem[a]) - VAL
  }

  predicate WordsAt(body: seq<int>, i: int, xs: seq<int>) {
    0 <= i && i + |xs| <= |body| && body[i..i + |xs|] == xs
  }

  ghost predicate Spelled(hash: Hash, body: seq<int>, v: View, a: nat)
    requires a in v.mem
  {
    WordsAt(body, PlaceOf(v, a), ObjWords(hash, v, a))
  }

  /** The words `body` of an entry spell the objects of `v`. */
  ghost predicate Spells(hash: Hash, body: seq<int>, v: View) {
    forall a {:trigger Spelled(hash, body, v, a)} | a in v.mem :: Spelled(hash, body, v, a)
  }

  /** An entry at the base of `v`, spelled by the words. */
  ghost predicate EntrySpelled(hash: Hash, body: seq<int>, v: View) {
    Spells(hash, body, v) && v.mark == 0 && v.base in v.mem && v.mem[v.base].Entry?
  }

  /** A graph spelled by the words: `r` are its objects. */
  ghost predicate Reads(hash: Hash, body: seq<int>, v: View, r: set<nat>) {
    EntrySpelled(hash, body, v) && Closed(v, r) && ValOk(v, r, v.mem[v.base].val)
  }

  // ----- Laying the objects out -----

  lemma DataEnd(packed: bool, hashBytes: nat, n: nat)
    ensures 8 * ((hashBytes + 7) / 8 + n * BucketLen(packed)) == DataSize(packed, hashBytes, n)
  {
  }

  /** The words of an object are part of its memory. */
  lemma InMemory(hash: Hash, v: View, a: nat)
    requires a in v.mem && v.base <= a && (a - v.base) % 8 == 0
    ensures var i := PlaceOf(v, a) + VAL;
            a <= v.base + 8 * i && v.base + 8 * (i + |ObjWords(hash, v, a)|) <= a + SizeOf(v.mem[a])
  {
    hide DataSize, BucketLen;
    if v.mem[a].Data? {
      DataEnd(v.mem[a].packed, v.mem[a].hashBytes, |v.mem[a].buckets|);
    }
  }

  function Written(body: seq<int>, i: nat, xs: seq<int>): (r: seq<int>)
    requires i + |xs| <= |body|
    ensures |r| == |body| && WordsAt(r, i, xs)
    ensures forall k | 0 <= k < |body| && (k < i || i + |xs| <= k) :: r[k] == body[k]
  {
    body[..i] + xs + body[i + |xs|..]
  }

  /** What is written for one object leaves the others alone. */
  lemma OthersStay(hash: Hash, body: seq<int>, body1: seq<int>, v: View, a: nat, b: nat)
    requires a in v.mem && b in v.mem && a != b && Room(v, v.base + 8 * (VAL + |body|)) && WordAligned(v)
    requires Spelled(hash, body, v, b) && |body1| == |body|
    requires var i := PlaceOf(v, a);
             forall k | 0 <= k < |body| && (k < i || i + |ObjWords(hash, v, a)| <= k) :: body1[k] == body[k]
    ensures Spelled(hash, body1, v, b)
  {
    hide SizeOf, PlaceOf, ObjWords;
    InMemory(hash, v, a);
    InMemory(hash, v, b);
    var i, n := PlaceOf(v, b), |ObjWords(hash, v, b)|;
    if n > 0 {
      assert body1[i..i + n] == body[i..i + n];
    }
  }

  /** All objects but the entry itself lie behind its metadata. */
  ghost predicate BehindMeta(v: View) {
    forall a | a in v.mem :: v.mem[a].Entry? || a >= v.base + 8 * VAL
  }

  lemma InBody(hash: Hash, v: View, n: nat, a: nat)
    requires a in v.mem && Room(v, v.base + 8 * (VAL + n)) && WordAligned(v) && BehindMeta(v)
    ensures PlaceOf(v, a) >= 0 && PlaceOf(v, a) + |ObjWords(hash, v, a)| <= n
  {
    hide SizeOf, ObjWords;
    InMemory(hash, v, a);
  }

  lemma LaidOne(hash: Hash, body: seq<int>, v: View, todo: set<nat>, a: nat)
    requires a in todo && todo <= v.mem.Keys && Room(v, v.base + 8 * (VAL + |body|)) && WordAligned(v) && BehindMeta(v)
    requires forall b {:trigger Spelled(hash, body, v, b)} | b in v.mem && b !in todo :: Spelled(hash, body, v, b)
    ensures var i, xs := PlaceOf(v, a), ObjWords(hash, v, a);
            i >= 0 && i + |xs| <= |body| && forall b {:trigger Spelled(hash, Written(body, i, xs), v, b)} |
              b in v.mem && b !in todo - {a} :: Spelled(hash, Written(body, i, xs), v, b)
  {
    hide SizeOf, PlaceOf, ObjWords, Room, WordAligned, Written;
    InBody(hash, v, |body|, a);
    var body1 := Written(body, PlaceOf(v, a), ObjWords(hash, v, a));
    forall b | b in v.mem && b !in todo - {a}
      ensures Spelled(hash, body1, v, b)
    {
      if b != a {
        OthersStay(hash, body, body1, v, a, b);
      }
    }
  }

  /** Writes the objects into the words of an entry of `n` words from the value on. */
  method Lay(hash: Hash, v: View, n: nat) returns (body: seq<int>)
    requires Room(v, v.base + 8 * (VAL + n)) && WordAligned(v)
    requires BehindMeta(v)
    ensures |body| == n && Spells(hash, body, v)
  {
    hide SizeOf, PlaceOf, ObjWords, Room, WordAligned, BehindMeta, Spelled, Written;
    body := seq(n, _ => 0);
    var todo := v.mem.Keys;
    while todo != {}
      invariant todo <= v.mem.Keys && |body| == n
      invariant forall a {:trigger Spelled(hash, body, v, a)} | a in v.mem && a !in todo :: Spelled(hash, body, v, a)
      decreases |todo|
    {
      var a :| a in todo;
      LaidOne(hash, body, v, todo, a);
      body := Written(body, PlaceOf(v, a), ObjWords(hash, v, a));
      todo := todo - {a};
    }
  }

  // ----- Reading the objects back -----

  function WordAt(ws: seq<int>, i: int): int {
    if 0 <= i < |ws| then ws[i] else 0
  }

  function Natural(x: int): nat {
    if x < 0 then 0 else x
  }

  /** The value in the words `i` and `i + 1`. */
  function ReadVal(ws: seq<int>, i: int): Zval {
    var x, kind := WordAt(ws, i), WordAt(ws, i + 1);
    if kind == 0 then Undef
    else if 1 <= kind <= 5 then Scalar(kind, x)
    else if kind == IS_STRING then Str(Natural(x))
    else if kind == IS_ARRAY then Arr(Natural(x))
    else if kind == IS_REFERENCE then Ref(Natural(x))
    else Other(kind == IS_RESOURCE)
  }

  /** The first word of the object at the offset `p`. */
  function StartOf(p: nat): int {
    p / 8 - VAL
  }

  function ReadText(ws: seq<int>, p: nat): (o: Obj)
    ensures o.Text?
  {
    var i := StartOf(p);
    var n := WordAt(ws, i + 2);
    var chars := if 0 <= i && i + 3 <= |ws| && 0 <= n <= 8 * (|ws| - i - 3) then Unpack(ws[i + 3..], n) else [];
    Text(Natural(WordAt(ws, i)), WordAt(ws, i + 1), chars)
  }

  function ReadRef(ws: seq<int>, p: nat): (o: Obj)
    ensures o.Cell?
  {
    Cell(Natural(WordAt(ws, StartOf(p))), ReadVal(ws, StartOf(p) + 1))
  }

  function ReadTable(ws: seq<int>, p: nat): (o: Obj)
    ensures o.Table?
  {
    var i := StartOf(p);
    var flags := WordAt(ws, i + 1);
    Table(Natural(WordAt(ws, i)), flags % 2 == 1, flags / 2 % 2 == 1, Natural(WordAt(ws, i + 2)))
  }

  function ReadBucket(ws: seq<int>, packed: bool, i: int): Bucket {
    if packed then Bucket(0, None, ReadVal(ws, i))
    else Bucket(WordAt(ws, i + 2), if WordAt(ws, i + 3) > 0 then Some(WordAt(ws, i + 3)) else None, ReadVal(ws, i))
  }

  /** The data of the array at `p`: where it is and how large, the array says. */
  function ReadData(ws: seq<int>, p: nat): (o: Obj)
    ensures o.Data? && o.packed == ReadTable(ws, p).packed
  {
    var t, hashBytes := ReadTable(ws, p), Natural(WordAt(ws, StartOf(p) + 1) / 4);
    var from := StartOf(t.data) + (hashBytes + 7) / 8;
    Data(t.packed, hashBytes,
         seq(Natural(WordAt(ws, StartOf(p) + 3)), k => ReadBucket(ws, t.packed, from + k * BucketLen(t.packed))))
  }

  lemma ReadAt(ws: seq<int>, i: int, xs: seq<int>, k: nat)
    requires WordsAt(ws, i, xs) && k < |xs|
    ensures WordAt(ws, i + k) == xs[k]
  {
    assert ws[i..i + |xs|][k] == ws[i + k];
  }

  lemma ValRead(ws: seq<int>, i: int, z: Zval)
    requires WordAt(ws, i) == ValWords(z)[0] && WordAt(ws, i + 1) == ValWords(z)[1]
    ensures ReadVal(ws, i) == z
  {
  }

  /** A string is read as it is spelled. */
  lemma TextRead(hash: Hash, ws: seq<int>, v: View, p: nat)
    requires Spells(hash, ws, v) && TextAt(v, p)
    ensures ReadText(ws, p) == v.mem[v.base + p]
  {
    hide Pack;
    var a, i := v.base + p, StartOf(p);
    assert Spelled(hash, ws, v, a);
    var o, xs := v.mem[a], ObjWords(hash, v, a);
    ReadAt(ws, i, xs, 0);
    ReadAt(ws, i, xs, 1);
    ReadAt(ws, i, xs, 2);
    forall k | 0 <= k < |Pack(o.chars)|
      ensures ws[i + 3..][k] == Pack(o.chars)[k]
    {
      ReadAt(ws, i, xs, 3 + k);
    }
    UnpackSame(ws[i + 3..], Pack(o.chars), |o.chars|);
    UnpackPack(o.chars);
  }

  lemma CellRead(hash: Hash, ws: seq<int>, v: View, p: nat)
    requires Spells(hash, ws, v) && CellAt(v, p)
    ensures ReadRef(ws, p) == v.mem[v.base + p]
  {
    hide ValWords;
    var a, i := v.base + p, StartOf(p);
    assert Spelled(hash, ws, v, a);
    var xs := ObjWords(hash, v, a);
    ReadAt(ws, i, xs, 0);
    ReadAt(ws, i, xs, 1);
    ReadAt(ws, i, xs, 2);
    ValRead(ws, i + 1, v.mem[a].val);
  }

  lemma EntryRead(hash: Hash, ws: seq<int>, v: View)
    requires Spells(hash, ws, v) && v.base in v.mem && v.mem[v.base].Entry?
    ensures ReadVal(ws, 0) == v.mem[v.base].val
  {
    hide ValWords, Pack;
    assert Spelled(hash, ws, v, v.base);
    ReadAt(ws, 0, ObjWords(hash, v, v.base), 0);
    ReadAt(ws, 0, ObjWords(hash, v, v.base), 1);
    ValRead(ws, 0, v.mem[v.base].val);
  }

  /** The head of an array, with the size of its hash part and the number of its buckets. */
  lemma HeadRead(hash: Hash, ws: seq<int>, v: View, p: nat)
    requires Spells(hash, ws, v) && TableAt(v, p)
    ensures var t := v.mem[v.base + p];
            var d := v.mem[v.base + t.data];
            && ReadTable(ws, p) == t && Natural(WordAt(ws, StartOf(p) + 1) / 4) == d.hashBytes
            && WordAt(ws, StartOf(p) + 3) == |d.buckets|
  {
    var a, i := v.base + p, StartOf(p);
    assert Spelled(hash, ws, v, a);
    var t := v.mem[a];
    var xs := TableWords(t, v.mem[v.base + t.data]);
    assert ObjWords(hash, v, a) == xs;
    ReadAt(ws, i, xs, 0);
    ReadAt(ws, i, xs, 1);
    ReadAt(ws, i, xs, 2);
    ReadAt(ws, i, xs, 3);
  }

  lemma {:induction false} ListAtWord(packed: bool, bs: seq<Bucket>, k: nat, j: nat)
    requires k < |bs| && j < BucketLen(packed)
    ensures k * BucketLen(packed) + j < |ListWords(packed, bs)|
            && ListWords(packed, bs)[k * BucketLen(packed) + j] == BucketWords(packed, bs[k])[j]
  {
    hide BucketWords;
    if k > 0 {
      ListAtWord(packed, bs[1..], k - 1, j);
    }
  }

  /** The buckets are the same as far as they matter: unused ones are unused, and packed ones
      have no keys. */
  predicate BucketAlike(packed: bool, b: Bucket, b1: Bucket) {
    b1.val == b.val && (packed || b.val.Undef? || b1 == b)
  }

  /** A key is not at the place of the entry. */
  ghost predicate KeyedOk(v: View, packed: bool, b: Bucket) {
    !packed && !b.val.Undef? && b.key.Some? ==> TextAt(v, b.key.value)
  }

  lemma BucketRead(ws: seq<int>, v: View, packed: bool, bs: seq<Bucket>, k: nat, from: int)
    requires WordsAt(ws, from, ListWords(packed, bs)) && k < |bs| && KeyedOk(v, packed, bs[k])
    requires v.base in v.mem && v.mem[v.base].Entry?
    ensures BucketAlike(packed, bs[k], ReadBucket(ws, packed, from + k * BucketLen(packed)))
  {
    hide ValWords, ListWords, WordsAt, WordAt, ReadVal;
    var i := from + k * BucketLen(packed);
    BucketWord(ws, packed, bs, k, from, 0);
    BucketWord(ws, packed, bs, k, from, 1);
    ValRead(ws, i, bs[k].val);
    if !packed {
      BucketWord(ws, packed, bs, k, from, 2);
      BucketWord(ws, packed, bs, k, from, 3);
      KeyHere(v, bs[k]);
    }
  }

  lemma BucketWord(ws: seq<int>, packed: bool, bs: seq<Bucket>, k: nat, from: int, j: nat)
    requires WordsAt(ws, from, ListWords(packed, bs)) && k < |bs| && j < BucketLen(packed)
    ensures WordAt(ws, from + k * BucketLen(packed) + j) == BucketWords(packed, bs[k])[j]
  {
    hide WordsAt, WordAt, ListWords, BucketWords, BucketLen;
    ListAtWord(packed, bs, k, j);
    ReadAt(ws, from, ListWords(packed, bs), k * BucketLen(packed) + j);
  }

  lemma KeyHere(v: View, b: Bucket)
    requires KeyedOk(v, false, b) && v.base in v.mem && v.mem[v.base].Entry?
    ensures !b.val.Undef? && b.key.Some? ==> b.key.value > 0
  {
  }

  ghost predicate DataAlike(d: Obj, d1: Obj)
    requires d.Data? && d1.Data?
  {
    && d1.packed == d.packed && d1.hashBytes == d.hashBytes && |d1.buckets| == |d.buckets|
    && forall k {:trigger d.buckets[k]} {:trigger d1.buckets[k]} | 0 <= k < |d.buckets| ::
         BucketAlike(d.packed, d.buckets[k], d1.buckets[k])
  }

  /** An array is read as it is spelled. */
  lemma DataRead(hash: Hash, ws: seq<int>, v: View, p: nat)
    requires Spells(hash, ws, v) && TableAt(v, p) && v.base in v.mem && v.mem[v.base].Entry?
    requires var d := v.mem[v.base + v.mem[v.base + p].data];
             forall k | 0 <= k < |d.buckets| :: KeyedOk(v, d.packed, d.buckets[k])
    ensures DataAlike(v.mem[v.base + v.mem[v.base + p].data], ReadData(ws, p))
  {
    hide ReadTable, WordsAt, ReadBucket, BucketAlike, KeyedOk, ListWords, ValWords;
    HeadRead(hash, ws, v, p);
    var t := v.mem[v.base + p];
    var d, a := v.mem[v.base + t.data], v.base + t.data;
    assert Spelled(hash, ws, v, a);
    forall k | 0 <= k < |d.buckets|
      ensures BucketAlike(d.packed, d.buckets[k], ReadData(ws, p).buckets[k])
    {
      BucketRead(ws, v, d.packed, d.buckets, k, PlaceOf(v, a));
    }
  }

  // ----- The words at another place -----

  /** The same words are read as the same graph after they were moved. */
  lemma MovedSpells(hash: Hash, body: seq<int>, v: View, w: View)
    requires Spells(hash, body, v) && Elsewhere(v, w)
    ensures Spells(hash, body, w)
  {
    hide ListWords, TableWords, Pack, WordsAt, ValWords, Elsewhere;
    forall b | b in w.mem
      ensures Spelled(hash, body, w, b)
    {
      MovedHere(v, w, b);
      var p := b - w.base;
      ElsewhereAt(v, w, p);
      assert Spelled(hash, body, v, v.base + p);
      if w.mem[b].Table? {
        ElsewhereAt(v, w, w.mem[b].data);
      }
    }
  }

  lemma MovedHere(v: View, w: View, b: nat)
    requires Elsewhere(v, w) && b in w.mem
    ensures w.base <= b
  {
  }
}
