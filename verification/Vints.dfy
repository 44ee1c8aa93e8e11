/**
 EBML variable-length integers (RFC 8794, section 4): the bit-by-bit readers, what they compute as
 numbers, and the writer they invert.
 */
module Vints {
  import opened Bytes
  import opened Options

  function Pow2(n: nat): (p: nat)
    ensures p >= 1
  {
    if n == 0 then 1 else 2 * Pow2(n - 1)
  }

  /** The number of values a size field of `n` bytes has: seven value bits a byte. */
  function Pow128(n: nat): (p: nat)
    ensures p >= 1
  {
    if n == 0 then 1 else 128 * Pow128(n - 1)
  }

  /** Bit `i` of `x` is clear: `x & (1 << i)` is zero. */
  predicate BitClear(x: byte, i: nat) {
    x / Pow2(i) % 2 == 0
  }

  /** Zero bits above the highest set bit of `x`. */
  function LeadingZeros(x: byte): (n: nat)
    ensures n <= 8
    ensures x < Pow2(8 - n)
    ensures n < 8 ==> Pow2(7 - n) <= x
  {
    assert Pow2(1) == 2 && Pow2(2) == 4 && Pow2(3) == 8 && Pow2(4) == 16;
    assert Pow2(5) == 32 && Pow2(6) == 64 && Pow2(7) == 128 && Pow2(8) == 256;
    if x >= 128 then 0 else if x >= 64 then 1 else if x >= 32 then 2 else if x >= 16 then 3
    else if x >= 8 then 4 else if x >= 4 then 5 else if x >= 2 then 6 else if x >= 1 then 7 else 8
  }

  lemma BelowTop(x: byte)
    ensures x < Pow2(8)
  {
    assert Pow2(4) == 16;
    assert Pow2(6) == 64;
  }

  lemma TopBit(x: byte, i: nat)
    requires x < Pow2(i + 1)
    ensures BitClear(x, i) <==> x < Pow2(i)
  {
    Quotient(x, Pow2(i));
  }

  lemma Quotient(x: nat, p: nat)
    requires p >= 1 && x < 2 * p
    ensures x / p == if x < p then 0 else 1
  {
    if x >= p {
      assert x == p * 1 + (x - p);
    }
  }

  method LeadingZeroBits(x: byte) returns (count: nat)
    ensures count == LeadingZeros(x)
  {
    count := 0;
    var i := 7;
    BelowTop(x);
    while i >= 0
      invariant -1 <= i <= 7 && count == 7 - i
      invariant x < Pow2(i + 1)
    {
      TopBit(x, i);
      if BitClear(x, i) {
        count := count + 1;
      } else {
        break;
      }
      i := i - 1;
    }
    LeadingZerosUnique(x, count);
  }

  lemma {:induction false} Pow2Monotonic(m: nat, n: nat)
    requires m <= n
    ensures Pow2(m) <= Pow2(n)
  {
    if m < n {
      Pow2Monotonic(m, n - 1);
    }
  }

  lemma LeadingZerosUnique(x: byte, n: nat)
    requires n <= 8 && x < Pow2(8 - n) && (n < 8 ==> Pow2(7 - n) <= x)
    ensures n == LeadingZeros(x)
  {
    var m := LeadingZeros(x);
    if m < n {
      Pow2Monotonic(8 - n, 7 - m);
    } else if n < m {
      Pow2Monotonic(8 - m, 7 - n);
    }
  }

  datatype Vint = Vint(value: nat, length: nat)

  /**
   The variable-length integer at `offset` (RFC 8794, section 4): as many bytes as the leading zero
   bits of the first one announce, read as one number from which the marker bit is taken away.
   */
  function VintAt(b: seq<byte>, offset: nat): (r: Option<Vint>)
    ensures r.Some? ==> 1 <= r.value.length <= 8 && offset + r.value.length <= |b|
  {
    if offset >= |b| then None else
    var length := LeadingZeros(b[offset]) + 1;
    if length > 8 || offset + length > |b| then None else
    MarkerBelow(b[offset..offset + length]);
    Some(Vint(DecodeBE(b[offset..offset + length]) - Pow128(length), length))
  }

  lemma {:induction false} DecodeCons(x: byte, s: seq<byte>)
    ensures DecodeBE([x] + s) == x * Pow256(|s|) + DecodeBE(s)
    decreases |s|
  {
    if s == [] {
      assert [x] + s == [] + [x];
      DecodeSnoc([], x);
    } else {
      var front, last := s[..|s| - 1], s[|s| - 1];
      assert [x] + s == ([x] + front) + [last] && s == front + [last];
      DecodeSnoc([x] + front, last);
      DecodeCons(x, front);
      assert 256 * (x * Pow256(|front|)) == x * Pow256(|s|);
    }
  }

  lemma {:induction false} DecodeBelow(s: seq<byte>)
    ensures DecodeBE(s) < Pow256(|s|)
  {
    if s != [] {
      DecodeBelow(s[..|s| - 1]);
    }
  }

  /** The marker bit of a first byte, weighed by the bytes after it. */
  lemma MarkerWeight(length: nat)
    requires 1 <= length <= 8
    ensures Pow2(8 - length) * Pow256(length - 1) == Pow128(length)
    ensures Pow256(length) == Pow2(length) * Pow128(length)
  {
    if length > 1 {
      MarkerWeight(length - 1);
      assert Pow2(9 - length) == 2 * Pow2(8 - length);
      Regroup(Pow2(8 - length), Pow256(length - 2), Pow2(length - 1), Pow128(length - 1));
    } else {
      assert Pow2(7) == 128 by { assert Pow2(4) == 16; }
    }
  }

  lemma Regroup(p: nat, q: nat, u: nat, v: nat)
    ensures p * (256 * q) == 128 * (2 * p * q)
    ensures 256 * (u * v) == (2 * u) * (128 * v)
  {
  }

  /** Exactly the byte strings that announce their own length spell a number with the marker bit set on top. */
  lemma MarkerBelow(s: seq<byte>)
    requires 1 <= |s| <= 8
    ensures LeadingZeros(s[0]) == |s| - 1 <==> Pow128(|s|) <= DecodeBE(s) < 2 * Pow128(|s|)
  {
    var x, t := s[0], s[1..];
    assert s == [x] + t;
    DecodeCons(x, t);
    DecodeBelow(t);
    MarkerWeight(|s|);
    var p := Pow2(8 - |s|);
    assert Pow2(9 - |s|) == 2 * p;
    MarkerRange(x, p, Pow256(|t|), DecodeBE(t));
    if p <= x < 2 * p {
      LeadingZerosUnique(x, |s| - 1);
    }
  }

  lemma MarkerRange(x: nat, p: nat, w: nat, rest: nat)
    requires rest < w
    ensures p * w <= x * w + rest < 2 * (p * w) <==> p <= x < 2 * p
  {
    if x < p {
      Scale(x + 1, p, w);
    } else if x >= 2 * p {
      Scale(2 * p, x, w);
    } else {
      Scale(p, x, w);
      Scale(x + 1, 2 * p, w);
    }
    assert (x + 1) * w == x * w + w;
    assert 2 * p * w == 2 * (p * w);
  }

  lemma Scale(x: nat, y: nat, w: nat)
    requires x <= y
    ensures x * w <= y * w
  {
  }

  /** The bits below the marker: `first & ((0x80 >> (length - 1)) - 1)`. */
  function ValueBits(first: byte, length: nat): (bits: byte)
    requires LeadingZeros(first) == length - 1 && length <= 8
    ensures bits == first - Pow2(8 - length)
  {
    MaskMarker(first, Pow2(8 - length));
    first % Pow2(8 - length)
  }

  lemma MaskMarker(x: nat, p: nat)
    requires p <= x < 2 * p
    ensures x % p == x - p
  {
    assert x == p * 1 + (x - p);
  }

  lemma VintFromBits(b: seq<byte>, offset: nat, length: nat)
    requires 1 <= length <= 8 && offset + length <= |b| && LeadingZeros(b[offset]) == length - 1
    ensures VintAt(b, offset) ==
            Some(Vint(DecodeBE([ValueBits(b[offset], length)] + b[offset + 1..offset + length]), length))
  {
    DropMarker(b[offset..offset + length]);
    assert b[offset..offset + length][1..] == b[offset + 1..offset + length];
  }

  /** No integer is read exactly where the buffer ends or the first byte asks for too much. */
  lemma VintMissing(b: seq<byte>, offset: nat)
    ensures VintAt(b, offset).None? <==>
            offset >= |b| || LeadingZeros(b[offset]) == 8 || offset + LeadingZeros(b[offset]) + 1 > |b|
  {
  }

  /** The first loop of the reader: the length the marker bit announces, 9 when there is none. */
  method MarkerLength(first: byte) returns (length: nat)
    ensures length == LeadingZeros(first) + 1
  {
    length := 1;
    BelowTop(first);
    while length <= 8 && BitClear(first, 8 - length)
      invariant 1 <= length <= 9
      invariant first < Pow2(9 - length)
    {
      TopBit(first, 8 - length);
      length := length + 1;
    }
    if length <= 8 {
      TopBit(first, 8 - length);
    }
    LeadingZerosUnique(first, length - 1);
  }

  method ReadVintSize(b: seq<byte>, offset: nat) returns (r: Option<Vint>)
    ensures r == VintAt(b, offset)
  {
    hide DecodeBE, LeadingZeros, ValueBits, VintAt;
    VintMissing(b, offset);
    if offset >= |b| {
      return None;
    }
    var length := MarkerLength(b[offset]);
    if length > 8 {
      return None;
    }
    ghost var bits := ValueBits(b[offset], length);
    var value: nat := ValueBits(b[offset], length);
    DecodeOne(bits);
    assert [bits] + b[offset + 1..offset + 1] == [bits];
    for i := 1 to length
      invariant offset + i <= |b|
      invariant value == DecodeBE([bits] + b[offset + 1..offset + i])
    {
      if offset + i >= |b| {
        return None;
      }
      value := value * 256 + b[offset + i];
      DecodeNext(bits, b, offset + 1, offset + i);
    }
    VintFromBits(b, offset, length);
    return Some(Vint(value, length));
  }

  lemma DecodeOne(x: byte)
    ensures DecodeBE([x]) == x
  {
    DecodeSnoc([], x);
    assert [] + [x] == [x];
  }

  lemma DecodeNext(x: byte, b: seq<byte>, lo: nat, hi: nat)
    requires lo <= hi < |b|
    ensures DecodeBE([x] + b[lo..hi + 1]) == DecodeBE([x] + b[lo..hi]) * 256 + b[hi]
  {
    assert [x] + b[lo..hi + 1] == ([x] + b[lo..hi]) + [b[hi]];
    DecodeSnoc([x] + b[lo..hi], b[hi]);
  }

  /** Clearing the marker bit of the first byte takes the marker's weight off the whole number. */
  lemma DropMarker(s: seq<byte>)
    requires 1 <= |s| <= 8 && LeadingZeros(s[0]) == |s| - 1
    ensures DecodeBE([ValueBits(s[0], |s|)] + s[1..]) == DecodeBE(s) - Pow128(|s|)
  {
    hide DecodeBE, LeadingZeros, Pow2, Pow128, Pow256;
    var x, t, p, w := s[0], s[1..], Pow2(8 - |s|), Pow256(|s| - 1);
    assert s == [x] + t;
    DecodeCons(x, t);
    DecodeCons(ValueBits(x, |s|), t);
    MarkerWeight(|s|);
    Distribute(x, p, w);
  }

  lemma Distribute(x: nat, p: nat, w: nat)
    ensures (x - p) * w == x * w - p * w
  {
  }

  /** A value written as a variable-length integer of `n` bytes. */
  function EncodeVint(value: nat, n: nat): (s: seq<byte>)
    ensures |s| == n
  {
    EncodeBE(value + Pow128(n), n)
  }

  lemma MarkerFits(value: nat, n: nat)
    requires 1 <= n <= 8 && value < Pow128(n)
    ensures value + Pow128(n) < Pow256(n)
  {
    MarkerWeight(n);
    Scale(2, Pow2(n), Pow128(n));
  }

  /** Writing then reading gives the value back, for every length the format has. */
  lemma VintRoundTrip(b: seq<byte>, offset: nat, value: nat, n: nat)
    requires 1 <= n <= 8 && value < Pow128(n)
    requires At(b, offset, EncodeVint(value, n))
    ensures VintAt(b, offset) == Some(Vint(value, n))
  {
    hide DecodeBE, EncodeBE, LeadingZeros, Pow128, Pow256;
    var s := EncodeVint(value, n);
    MarkerFits(value, n);
    DecodeEncodeBE(value + Pow128(n), n);
    MarkerBelow(s);
    assert b[offset] == b[offset..offset + n][0];
  }

  /** Whatever is read is what writing the value would have produced. */
  lemma VintReadIsWritten(b: seq<byte>, offset: nat)
    requires VintAt(b, offset).Some?
    ensures var v := VintAt(b, offset).value;
            v.value < Pow128(v.length) && At(b, offset, EncodeVint(v.value, v.length))
  {
    hide DecodeBE, EncodeBE, LeadingZeros, Pow128;
    var v := VintAt(b, offset).value;
    var s := b[offset..offset + v.length];
    assert s[0] == b[offset];
    MarkerBelow(s);
    EncodeDecodeBE(s);
  }

  /** The size means "unknown": all value bits set (RFC 8794, section 6.2), or too long to be exact. */
  predicate IsUnknownSize(v: Vint) {
    v.length >= 7 || v.value == Pow128(v.length) - 1
  }
}
