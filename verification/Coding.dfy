/**
 The byte-level encodings of util/coding.cc that the storage formats rely on:
 little-endian fixed-width integers, base-128 varints and length-prefixed slices.
 */
module Coding {
  type Byte = b: int | 0 <= b < 256
  type Bytes = seq<Byte>

  function Pow256(n: nat): (p: nat)
    ensures p > 0
  {
    if n == 0 then 1 else 256 * Pow256(n - 1)
  }

  function Pow128(n: nat): (p: nat)
    ensures p > 0
  {
    if n == 0 then 1 else 128 * Pow128(n - 1)
  }

  lemma Quotient(v: nat, d: nat, a: nat, r: nat)
    requires r < d && v == a * d + r
    ensures v / d == a
  {
    var q := v / d;
    assert v == q * d + v % d;
    assert (q - a) * d == r - v % d;
    Multiple(q - a, d);
  }

  lemma Multiple(k: int, d: nat)
    ensures (k >= 1 ==> k * d >= d) && (k <= -1 ==> k * d + d <= 0)
  {
    if k <= -1 { assert (-k) * d >= d; }
  }

  lemma ConcatAssociates<T>(a: seq<T>, b: seq<T>, c: seq<T>)
    ensures a + (b + c) == (a + b) + c
  {
  }

  lemma TailOfConcat<T>(a: seq<T>, b: seq<T>)
    requires a != []
    ensures (a + b)[0] == a[0] && (a + b)[1..] == a[1..] + b
  {
  }

  // ---------------------------------------------------------------- fixed width

  // Byte i of v, least significant first.
  function ByteOf(v: nat, i: nat): Byte {
    if i == 0 then v % 256 else ByteOf(v / 256, i - 1)
  }

  function EncodeFixed(width: nat, v: nat): (s: Bytes)
    ensures |s| == width
  {
    seq(width, i requires 0 <= i < width => ByteOf(v, i))
  }

  lemma EncodeFixedStep(width: nat, v: nat)
    requires width > 0
    ensures EncodeFixed(width, v) == [v % 256] + EncodeFixed(width - 1, v / 256)
  {
  }

  function DecodeFixed(s: Bytes): nat {
    if s == [] then 0 else s[0] + 256 * DecodeFixed(s[1..])
  }

  lemma {:induction false} FixedRoundTrip(width: nat, v: nat)
    requires v < Pow256(width)
    ensures DecodeFixed(EncodeFixed(width, v)) == v
  {
    if width > 0 {
      FixedRoundTrip(width - 1, v / 256);
      EncodeFixedStep(width, v);
    }
  }

  lemma LowByte(b: Byte, v: nat)
    ensures (b + 256 * v) % 256 == b && (b + 256 * v) / 256 == v
  {
  }

  lemma {:induction false} FixedBound(s: Bytes)
    ensures DecodeFixed(s) < Pow256(|s|) && EncodeFixed(|s|, DecodeFixed(s)) == s
  {
    if s != [] {
      FixedBound(s[1..]);
      LowByte(s[0], DecodeFixed(s[1..]));
      EncodeFixedStep(|s|, DecodeFixed(s));
      assert s == [s[0]] + s[1..];
    }
  }

  // ---------------------------------------------------------------- varints

  function EncodeVarint(v: nat): (s: Bytes)
    ensures |s| > 0
  {
    if v < 128 then [v] else [v % 128 + 128] + EncodeVarint(v / 128)
  }

  // The value and the length of a varint of at most limit bytes at the front of s.
  function GetVarint(s: Bytes, limit: nat): (r: (bool, nat, nat))
    ensures r.0 ==> 0 < r.2 <= |s| && r.2 <= limit
    decreases |s|
  {
    if s == [] || limit == 0 then (false, 0, 0)
    else if s[0] < 128 then (true, s[0], 1)
    else
      var (ok, v, n) := GetVarint(s[1..], limit - 1);
      if ok then (true, s[0] - 128 + 128 * v, n + 1) else (false, 0, 0)
  }

  lemma {:induction false} VarintRoundTrip(v: nat, limit: nat, rest: Bytes)
    requires v < Pow128(limit) && limit > 0
    ensures GetVarint(EncodeVarint(v) + rest, limit) == (true, v, |EncodeVarint(v)|)
  {
    if v >= 128 {
      VarintRoundTrip(v / 128, limit - 1, rest);
      assert (EncodeVarint(v) + rest)[0] == v % 128 + 128;
      assert (EncodeVarint(v) + rest)[1..] == EncodeVarint(v / 128) + rest;
    }
  }

  // An encoding never takes more bytes than the size of its value demands.
  lemma {:induction false} VarintLength(v: nat, limit: nat)
    requires v < Pow128(limit) && limit > 0
    ensures |EncodeVarint(v)| <= limit
  {
    if v >= 128 { VarintLength(v / 128, limit - 1); }
  }

  const kTwoTo32 := 0x1_0000_0000
  const kTwoTo64 := 0x1_0000_0000_0000_0000

  // The value of a varint at the front of s, and what follows it.  Shifting into a word of so many values
  // loses the bits that do not fit.
  function TakeVarint(s: Bytes, limit: nat, words: nat): (r: (bool, nat, Bytes))
    requires words > 0
    ensures r.0 ==> |r.2| < |s| && r.1 < words
  {
    var (ok, v, n) := GetVarint(s, limit);
    if ok then (true, v % words, s[n..]) else (false, 0, s)
  }

  function TakeVarint32(s: Bytes): (r: (bool, nat, Bytes))
    ensures r.0 ==> |r.2| < |s| && r.1 < kTwoTo32
  {
    TakeVarint(s, 5, kTwoTo32)
  }

  function TakeVarint64(s: Bytes): (r: (bool, nat, Bytes))
    ensures r.0 ==> |r.2| < |s| && r.1 < kTwoTo64
  {
    TakeVarint(s, 10, kTwoTo64)
  }

  lemma TakeVarintRoundTrip(v: nat, limit: nat, words: nat, rest: Bytes)
    requires v < Pow128(limit) && limit > 0 && v < words
    ensures TakeVarint(EncodeVarint(v) + rest, limit, words) == (true, v, rest)
  {
    VarintRoundTrip(v, limit, rest);
    assert v % words == v;
  }

  lemma TakeVarint32RoundTrip(v: nat, rest: Bytes)
    requires v < kTwoTo32
    ensures TakeVarint32(EncodeVarint(v) + rest) == (true, v, rest)
  {
    assert Pow128(5) == 0x8_0000_0000;
    TakeVarintRoundTrip(v, 5, kTwoTo32, rest);
  }

  lemma TakeVarint64RoundTrip(v: nat, rest: Bytes)
    requires v < kTwoTo64
    ensures TakeVarint64(EncodeVarint(v) + rest) == (true, v, rest)
  {
    assert Pow128(5) == 0x8_0000_0000;
    assert Pow128(10) == 0x40_0000_0000_0000_0000;
    TakeVarintRoundTrip(v, 10, kTwoTo64, rest);
  }

  // ---------------------------------------------------------------- length-prefixed slices

  predicate FitsSlice(s: Bytes) { |s| < kTwoTo32 }

  function PutLengthPrefixed(s: Bytes): Bytes {
    EncodeVarint(|s|) + s
  }

  // The slice at the front of s, and what follows it.
  function TakeSlice(s: Bytes): (r: (bool, Bytes, Bytes))
    ensures r.0 ==> |r.2| < |s|
  {
    var (ok, len, rest) := TakeVarint32(s);
    if ok && len <= |rest| then (true, rest[..len], rest[len..]) else (false, [], s)
  }

  lemma TakeSliceRoundTrip(s: Bytes, rest: Bytes)
    requires FitsSlice(s)
    ensures TakeSlice(PutLengthPrefixed(s) + rest) == (true, s, rest)
  {
    TakeVarint32RoundTrip(|s|, s + rest);
    ConcatAssociates(EncodeVarint(|s|), s, rest);
  }
}
