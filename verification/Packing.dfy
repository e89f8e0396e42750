/** Strings in memory: eight bytes to a word, the last word filled up with zeros. */
module Packing {
  type Byte = x: int | 0 <= x < 256

  function ByteOf(w: int, j: nat): Byte
    decreases j
  {
    if j == 0 then w % 256 else ByteOf(w / 256, j - 1)
  }

  /** The `n` bytes that start with the first of the words. */
  function Unpack(ws: seq<int>, n: nat): (bs: seq<Byte>)
    requires n <= 8 * |ws|
    ensures |bs| == n
  {
    seq(n, i requires 0 <= i < n => ByteOf(ws[i / 8], i % 8))
  }

  function Word(bs: seq<Byte>): nat {
    if bs == [] then 0 else bs[0] + 256 * Word(bs[1..])
  }

  /** The words of a string, with at least one zero byte at the end. */
  function Pack(bs: seq<Byte>): (ws: seq<int>)
    ensures |ws| == |bs| / 8 + 1
  {
    if |bs| < 8 then [Word(bs)] else [Word(bs[..8])] + Pack(bs[8..])
  }

  lemma {:induction false} WordByte(bs: seq<Byte>, j: nat)
    requires j < |bs|
    ensures ByteOf(Word(bs), j) == bs[j]
  {
    if j > 0 {
      WordByte(bs[1..], j - 1);
    }
  }

  lemma {:induction false} PackByte(bs: seq<Byte>, i: nat)
    requires i < |bs|
    ensures ByteOf(Pack(bs)[i / 8], i % 8) == bs[i]
  {
    if |bs| < 8 {
      WordByte(bs, i);
    } else if i < 8 {
      WordByte(bs[..8], i);
    } else {
      hide Word, ByteOf;
      assert i / 8 == (i - 8) / 8 + 1 && i % 8 == (i - 8) % 8;
      PackByte(bs[8..], i - 8);
    }
  }

  /** Strings are read as they were written. */
  lemma UnpackPack(bs: seq<Byte>)
    ensures Unpack(Pack(bs), |bs|) == bs
  {
    forall i | 0 <= i < |bs|
      ensures Unpack(Pack(bs), |bs|)[i] == bs[i]
    {
      PackByte(bs, i);
    }
  }

  /** Only the words that hold the string matter. */
  lemma UnpackSame(ws: seq<int>, ws1: seq<int>, n: nat)
    requires n <= 8 * |ws| && n <= 8 * |ws1| && forall i | 0 <= i < |ws| && i < |ws1| :: ws[i] == ws1[i]
    ensures Unpack(ws, n) == Unpack(ws1, n)
  {
  }
}
