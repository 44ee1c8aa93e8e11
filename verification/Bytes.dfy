/** Bytes, byte buffers and the fixed-width integers that container headers store in them. */
module Bytes {

  /** One octet of an uploaded file. */
  type byte = x: int | 0 <= x < 256

  /** `256` to the power `n`: the number of values `n` bytes can hold. */
  function Pow256(n: nat): (p: nat)
    ensures p >= 1
  {
    if n == 0 then 1 else 256 * Pow256(n - 1)
  }

  /** The big-endian number a byte string spells. */
  function DecodeBE(s: seq<byte>): nat {
    if s == [] then 0 else DecodeBE(s[..|s| - 1]) * 256 + s[|s| - 1]
  }

  /** The `n` low-order bytes of `v`, most significant first. */
  function EncodeBE(v: nat, n: nat): (s: seq<byte>)
    ensures |s| == n
  {
    if n == 0 then [] else EncodeBE(v / 256, n - 1) + [v % 256]
  }

  /** The little-endian number a byte string spells. */
  function DecodeLE(s: seq<byte>): nat {
    if s == [] then 0 else s[0] + 256 * DecodeLE(s[1..])
  }

  /** The `n` low-order bytes of `v`, least significant first. */
  function EncodeLE(v: nat, n: nat): (s: seq<byte>)
    ensures |s| == n
  {
    if n == 0 then [] else [v % 256] + EncodeLE(v / 256, n - 1)
  }

  lemma DecodeSnoc(front: seq<byte>, last: byte)
    ensures DecodeBE(front + [last]) == DecodeBE(front) * 256 + last
  {
    assert (front + [last])[..|front|] == front;
  }

  lemma {:induction false} DecodeEncodeBE(v: nat, n: nat)
    requires v < Pow256(n)
    ensures DecodeBE(EncodeBE(v, n)) == v
  {
    if n > 0 {
      var front := EncodeBE(v / 256, n - 1);
      DecodeEncodeBE(v / 256, n - 1);
      DecodeSnoc(front, v % 256);
    }
  }

  lemma {:induction false} EncodeDecodeBE(s: seq<byte>)
    ensures EncodeBE(DecodeBE(s), |s|) == s
  {
    if s != [] {
      var front := s[..|s| - 1];
      EncodeDecodeBE(front);
      assert DecodeBE(s) / 256 == DecodeBE(front);
      assert s == front + [s[|s| - 1]];
    }
  }

  lemma {:induction false} DecodeEncodeLE(v: nat, n: nat)
    requires v < Pow256(n)
    ensures DecodeLE(EncodeLE(v, n)) == v
  {
    if n > 0 {
      assert EncodeLE(v, n)[1..] == EncodeLE(v / 256, n - 1);
      DecodeEncodeLE(v / 256, n - 1);
    }
  }

  /** The widths the readers use, spelled out. */
  lemma Widths()
    ensures Pow256(1) == 0x100 && Pow256(2) == 0x1_0000 && Pow256(3) == 0x100_0000
    ensures Pow256(4) == 0x1_0000_0000 && Pow256(8) == 0x1_0000_0000_0000_0000
  {
    assert Pow256(2) == 256 * Pow256(1);
    assert Pow256(3) == 256 * Pow256(2);
    assert Pow256(4) == 256 * Pow256(3);
    assert Pow256(5) == 256 * Pow256(4);
    assert Pow256(6) == 256 * Pow256(5);
    assert Pow256(7) == 256 * Pow256(6);
  }

  /** The bytes of a name in Latin-1. */
  predicate Spells(s: seq<byte>, name: string) {
    |s| == |name| && forall i :: 0 <= i < |s| ==> s[i] == name[i] as int
  }

  lemma SameSpelling(s: seq<byte>, t: seq<byte>, name: string)
    requires Spells(s, name) && Spells(t, name)
    ensures s == t
  {
    forall i | 0 <= i < |s|
      ensures s[i] == t[i]
    {
      assert s[i] == name[i] as int == t[i];
    }
  }

  /** The bytes `s` are found in `b` at `offset`. */
  predicate At(b: seq<byte>, offset: nat, s: seq<byte>)
  {
    offset + |s| <= |b| && b[offset..offset + |s|] == s
  }

  /** A concatenation is found piece by piece. */
  lemma AtSplit(b: seq<byte>, offset: nat, s: seq<byte>, t: seq<byte>)
    requires At(b, offset, s + t)
    ensures At(b, offset, s) && At(b, offset + |s|, t)
  {
    var whole := b[offset..offset + |s + t|];
    assert s == whole[..|s|] && t == whole[|s|..];
  }

  /** Parts of a byte string are found where the string lies. */
  lemma AtSlice(b: seq<byte>, offset: nat, s: seq<byte>, lo: nat, hi: nat)
    requires At(b, offset, s) && lo <= hi <= |s|
    ensures b[offset + lo..offset + hi] == s[lo..hi]
  {
    forall k | 0 <= k < hi - lo
      ensures b[offset + lo..offset + hi][k] == s[lo..hi][k]
    {
      assert s[lo + k] == b[offset + lo + k];
    }
  }
}
