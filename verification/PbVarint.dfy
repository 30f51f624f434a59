/**
 The varint family of nanopb (pb_encode.c, pb_decode.c): base 128 varints, their 32 bit reader, and
 zigzag for signed integers.  EncodeVarint of Coding is the encoding of the Protocol Buffers
 Encoding specification, section "Base 128 Varints".
 */
module PbVarint {
  import opened Coding

  const TWO_31 := 0x8000_0000
  const TWO_32 := 0x1_0000_0000
  const TWO_35 := 0x8_0000_0000
  const TWO_63 := 0x8000_0000_0000_0000
  const TWO_64 := 0x1_0000_0000_0000_0000

  predicate U64(v: int) { 0 <= v < TWO_64 }

  lemma PowersOf128()
    ensures Pow128(5) == TWO_35 && Pow128(9) == TWO_63 && Pow128(10) == 128 * TWO_63
  {
    assert Pow128(5) == TWO_35;
  }

  // ---------------------------------------------------------------- encoding

  // The groups as the loop leaves them: every continuation bit set.
  function Groups(v: nat): Bytes {
    if v == 0 then [] else [v % 128 + 128] + Groups(v / 128)
  }

  function UnsetTopBit(s: Bytes): Bytes {
    if s == [] then [] else s[..|s| - 1] + [s[|s| - 1] % 128]
  }

  lemma {:induction false} GroupsAreVarint(v: nat)
    requires v > 0
    ensures UnsetTopBit(Groups(v)) == EncodeVarint(v)
  {
    if v >= 128 {
      GroupsAreVarint(v / 128);
      var g := Groups(v / 128);
      assert Groups(v) == [v % 128 + 128] + g;
      assert UnsetTopBit([v % 128 + 128] + g) == [v % 128 + 128] + UnsetTopBit(g);
    } else {
      assert Groups(v / 128) == [];
    }
  }

  method EncodeVarintLoop(value: nat) returns (buffer: Bytes)
    requires U64(value)
    ensures buffer == EncodeVarint(value) && |buffer| <= 10
  {
    PowersOf128();
    VarintLength(value, 10);
    if value <= 0x7F {
      return [value];
    }
    buffer := [];
    var v := value;
    while v != 0
      invariant Groups(value) == buffer + Groups(v)
    {
      ConcatAssociates(buffer, [v % 128 + 128], Groups(v / 128));
      buffer := buffer + [v % 128 + 128];
      v := v / 128;
    }
    assert buffer + [] == buffer;
    GroupsAreVarint(value);
    var i := |buffer|;
    buffer := buffer[i - 1 := buffer[i - 1] % 128];
    assert buffer == UnsetTopBit(Groups(value));
  }

  // ---------------------------------------------------------------- pb_decode_varint

  // The value of the varint at the front of s, and its length.
  datatype Varint = Varint(value: nat, length: nat) | BadVarint

  // What the loop of pb_decode_varint makes of the bytes from bit position bitpos on, in 64 bits.
  function Decode64From(s: Bytes, bitpos: nat): (r: Varint)
    ensures r.Varint? ==> 0 < r.length <= |s|
    decreases |s|
  {
    if bitpos >= 64 || s == [] then BadVarint
    else
      var bits := if bitpos == 63 then s[0] % 2 else s[0] % 128;
      if s[0] < 128 then Varint(bits, 1)
      else match Decode64From(s[1..], bitpos + 7)
        case Varint(value, n) => Varint(bits + 128 * value, n + 1)
        case BadVarint => BadVarint
  }

  function Decode64(s: Bytes): (r: Varint)
    ensures r.Varint? ==> 0 < r.length <= |s|
  {
    Decode64From(s, 0)
  }

  lemma {:induction false} Decode64FromInverts(v: nat, bitpos: nat, left: nat, rest: Bytes)
    requires bitpos + 7 * left == 63 && v < 2 * Pow128(left)
    ensures Decode64From(EncodeVarint(v) + rest, bitpos) == Varint(v, |EncodeVarint(v)|)
    decreases left
  {
    var s := EncodeVarint(v) + rest;
    if v >= 128 {
      Decode64FromInverts(v / 128, bitpos + 7, left - 1, rest);
      assert s[0] == v % 128 + 128 && s[1..] == EncodeVarint(v / 128) + rest;
    } else {
      assert s[0] == v;
    }
  }

  // pb_decode_varint inverts pb_encode_varint on all of uint64.
  lemma DecodeVarintInverts(v: nat, rest: Bytes)
    requires U64(v)
    ensures Decode64(EncodeVarint(v) + rest) == Varint(v, |EncodeVarint(v)|)
  {
    PowersOf128();
    Decode64FromInverts(v, 0, 9, rest);
  }

  // ---------------------------------------------------------------- pb_decode_varint32

  // The bytes at bit position 35 and up add nothing; they have to look like a sign extension.
  function Upper32(s: Bytes, bitpos: nat, negative: bool): (n: nat)
    ensures n <= |s|
    decreases |s|
  {
    if s == [] then 0
    else if s[0] % 128 != 0 && !(negative && s[0] == if bitpos < 63 then 0xFF else 0x01) then 0
    else if s[0] < 128 then 1
    else
      var n := Upper32(s[1..], bitpos + 7, negative);
      if n == 0 then 0 else n + 1
  }

  // The value so far is carried in result; bits beyond 32 fall off.
  function Decode32From(s: Bytes, bitpos: nat, weight: nat, result: nat): (r: Varint)
    requires bitpos % 7 == 0 && bitpos <= 35
    ensures r.Varint? ==> 0 < r.length <= |s|
    decreases |s|
  {
    if s == [] then BadVarint
    else if bitpos < 32 then
      var sum := (result + s[0] % 128 * weight) % TWO_32;
      if s[0] >= 128 then
        match Decode32From(s[1..], bitpos + 7, weight * 128, sum)
        case Varint(value, n) => Varint(value, n + 1)
        case BadVarint => BadVarint
      else if bitpos == 28 && s[0] >= 16 then BadVarint    // a fifth byte has room for four bits
      else Varint(sum, 1)
    else
      var n := Upper32(s, bitpos, result >= TWO_31);
      if n == 0 then BadVarint else Varint(result, n)
  }

  function Decode32(s: Bytes): (r: Varint)
    ensures r.Varint? ==> 0 < r.length <= |s|
  {
    Decode32From(s, 0, 1, 0)
  }

  // What pb_decode_varint32 lets through at bit position 35 and up: nothing, or a sign bit with
  // groups of only zeros or only ones before it.
  predicate SignLike(v: nat, bitpos: nat)
    decreases v
  {
    if bitpos >= 63 then v == 1 else v >= 128 && (v % 128 == 0 || v % 128 == 127) && SignLike(v / 128, bitpos + 7)
  }

  lemma {:induction false} UpperOfVarint(v: nat, bitpos: nat, left: nat, negative: bool, rest: Bytes)
    requires bitpos + 7 * left == 63 && 0 < v < 2 * Pow128(left)
    ensures Upper32(EncodeVarint(v) + rest, bitpos, negative) ==
            if negative && SignLike(v, bitpos) then |EncodeVarint(v)| else 0
    decreases left
  {
    var s := EncodeVarint(v) + rest;
    if v >= 128 {
      UpperOfVarint(v / 128, bitpos + 7, left - 1, negative, rest);
      assert s[0] == v % 128 + 128 && s[1..] == EncodeVarint(v / 128) + rest;
    } else {
      assert s[0] == v;
    }
  }

  // What pb_decode_varint32 makes of the canonical varint of v, with result below weight already read.
  predicate Fits32(v: nat, weight: nat, result: nat, high: nat)
    requires high > 0
  {
    if v < high then result + v * weight < TWO_32
    else (result + v * weight) % TWO_32 >= TWO_31 && SignLike(v / high, 35)
  }

  ghost predicate Reads32(v: nat, bitpos: nat, weight: nat, result: nat, high: nat, rest: Bytes)
    requires bitpos % 7 == 0 && bitpos <= 35 && high > 0
  {
    Decode32From(EncodeVarint(v) + rest, bitpos, weight, result) ==
    if Fits32(v, weight, result, high) then Varint((result + v * weight) % TWO_32, |EncodeVarint(v)|) else BadVarint
  }

  lemma Reads32At35(v: nat, result: nat, rest: Bytes)
    requires 0 < v < 0x2000_0000 && result < TWO_32
    ensures Reads32(v, 35, TWO_35, result, 1, rest)
  {
    assert Pow128(4) == 0x1000_0000;
    UpperOfVarint(v, 35, 4, result >= TWO_31, rest);
    assert (result + v * TWO_35) % TWO_32 == result;
  }

  lemma VarintHead(v: nat, rest: Bytes)
    ensures var s := EncodeVarint(v) + rest;
            if v < 128 then s[0] == v
            else s[0] == v % 128 + 128 && s[1..] == EncodeVarint(v / 128) + rest && |EncodeVarint(v)| == |EncodeVarint(v / 128)| + 1
  {
    if v >= 128 {
      var head: Bytes, tail := [v % 128 + 128], EncodeVarint(v / 128);
      assert EncodeVarint(v) == head + tail;
      assert (head + tail) + rest == head + (tail + rest);
    }
  }

  lemma Regroup(v: nat, w: nat)
    ensures v % 128 * w + v / 128 * (128 * w) == v * w
  {
    assert v == v / 128 * 128 + v % 128;
    assert v * w == (v / 128 * 128) * w + v % 128 * w;
  }

  lemma DivideTwice(v: nat, high: nat)
    requires high > 0
    ensures v / 128 / high == v / (128 * high) && (v / 128 < high <==> v < 128 * high)
  {
    var q, r := v / 128, v % 128;
    var a, b := q / high, q % high;
    assert v == q * 128 + r && q == a * high + b;
    assert v == a * (128 * high) + (b * 128 + r);
    assert 0 <= b * 128 + r < 128 * high;
    Quotient(v, 128 * high, a, b * 128 + r);
  }

  // One more group.
  lemma Decode32Step(v: nat, bitpos: nat, weight: nat, result: nat, rest: Bytes)
    requires bitpos % 7 == 0 && bitpos < 32 && v >= 128
    ensures Decode32From(EncodeVarint(v) + rest, bitpos, weight, result) ==
            match Decode32From(EncodeVarint(v / 128) + rest, bitpos + 7, weight * 128, (result + v % 128 * weight) % TWO_32)
            case Varint(value, n) => Varint(value, n + 1)
            case BadVarint => BadVarint
    ensures |EncodeVarint(v)| == |EncodeVarint(v / 128)| + 1
  {
    VarintHead(v, rest);
    Decode32Unfold(EncodeVarint(v) + rest, bitpos, weight, result);
  }

  lemma Decode32Unfold(s: Bytes, bitpos: nat, weight: nat, result: nat)
    requires bitpos % 7 == 0 && bitpos < 32 && s != [] && s[0] >= 128
    ensures Decode32From(s, bitpos, weight, result) ==
            match Decode32From(s[1..], bitpos + 7, weight * 128, (result + s[0] % 128 * weight) % TWO_32)
            case Varint(value, n) => Varint(value, n + 1)
            case BadVarint => BadVarint
  {
  }

  lemma Totals(v: nat, weight: nat, result: nat, sum: nat)
    requires sum == (result + v % 128 * weight) % TWO_32
    ensures (result + v * weight) % TWO_32 == (sum + v / 128 * (weight * 128)) % TWO_32
    ensures result + v % 128 * weight < TWO_32 ==> result + v * weight == sum + v / 128 * (weight * 128)
  {
    Regroup(v, weight);
    assert weight * 128 == 128 * weight;
    ModOfSum(result + v % 128 * weight, v / 128 * (weight * 128));
  }

  lemma Fits32Step(v: nat, weight: nat, result: nat, high: nat, sum: nat)
    requires v >= 128 && high > 0 && sum == (result + v % 128 * weight) % TWO_32
    requires result + v % 128 * weight < TWO_32 || high == 1
    ensures Fits32(v, weight, result, 128 * high) == Fits32(v / 128, weight * 128, sum, high)
  {
    Totals(v, weight, result, sum);
    DivideTwice(v, high);
  }

  lemma Reads32Next(v: nat, bitpos: nat, weight: nat, result: nat, high: nat, rest: Bytes, weight': nat, sum: nat, high': nat)
    requires bitpos % 7 == 0 && bitpos < 32 && v >= 128 && high > 0
    requires weight' == weight * 128 && sum == (result + v % 128 * weight) % TWO_32 && high' == 128 * high
    requires result + v % 128 * weight < TWO_32 || high == 1
    requires Reads32(v / 128, bitpos + 7, weight', sum, high, rest)
    ensures Reads32(v, bitpos, weight, result, high', rest)
  {
    Decode32Step(v, bitpos, weight, result, rest);
    Totals(v, weight, result, sum);
    Fits32Step(v, weight, result, high, sum);
  }

  lemma ModOfSum(a: nat, b: nat)
    ensures (a % TWO_32 + b) % TWO_32 == (a + b) % TWO_32
  {
  }

  // The last group.
  lemma Reads32Last(v: nat, bitpos: nat, weight: nat, result: nat, high: nat, rest: Bytes)
    requires bitpos % 7 == 0 && bitpos < 28 && v < 128 <= high && result + v * weight < TWO_32
    ensures Reads32(v, bitpos, weight, result, high, rest)
  {
    VarintHead(v, rest);
    assert v % 128 == v;
  }

  lemma Reads32At28(v: nat, result: nat, rest: Bytes)
    requires v < 0x10_0000_0000 && result < 0x1000_0000
    ensures Reads32(v, 28, 0x1000_0000, result, 128, rest)
  {
    if v >= 128 {
      Reads32At35(v / 128, (result + v % 128 * 0x1000_0000) % TWO_32, rest);
      Reads32Next(v, 28, 0x1000_0000, result, 1, rest, TWO_35, (result + v % 128 * 0x1000_0000) % TWO_32, 128);
    } else {
      VarintHead(v, rest);
    }
  }

  lemma Reads32At21(v: nat, result: nat, rest: Bytes)
    requires v < 0x800_0000_0000 && result < 0x20_0000
    ensures Reads32(v, 21, 0x20_0000, result, 0x4000, rest)
  {
    if v >= 128 {
      Reads32At28(v / 128, result + v % 128 * 0x20_0000, rest);
      Reads32Next(v, 21, 0x20_0000, result, 128, rest, 0x1000_0000, result + v % 128 * 0x20_0000, 0x4000);
    } else {
      Reads32Last(v, 21, 0x20_0000, result, 0x4000, rest);
    }
  }

  lemma Reads32At14(v: nat, result: nat, rest: Bytes)
    requires v < 0x4_0000_0000_0000 && result < 0x4000
    ensures Reads32(v, 14, 0x4000, result, 0x20_0000, rest)
  {
    if v >= 128 {
      Reads32At21(v / 128, result + v % 128 * 0x4000, rest);
      Reads32Next(v, 14, 0x4000, result, 0x4000, rest, 0x20_0000, result + v % 128 * 0x4000, 0x20_0000);
    } else {
      Reads32Last(v, 14, 0x4000, result, 0x20_0000, rest);
    }
  }

  lemma Reads32At7(v: nat, result: nat, rest: Bytes)
    requires v < 0x200_0000_0000_0000 && result < 128
    ensures Reads32(v, 7, 128, result, 0x1000_0000, rest)
  {
    if v >= 128 {
      Reads32At14(v / 128, result + v % 128 * 128, rest);
      Reads32Next(v, 7, 128, result, 0x20_0000, rest, 0x4000, result + v % 128 * 128, 0x1000_0000);
    } else {
      Reads32Last(v, 7, 128, result, 0x1000_0000, rest);
    }
  }

  lemma Reads32At0(v: nat, rest: Bytes)
    requires v < TWO_64
    ensures Reads32(v, 0, 1, 0, TWO_35, rest)
  {
    if v >= 128 {
      Reads32At7(v / 128, v % 128, rest);
      Reads32Next(v, 0, 1, 0, 0x1000_0000, rest, 128, v % 128, TWO_35);
    } else {
      Reads32Last(v, 0, 1, 0, TWO_35, rest);
    }
  }

  // The values whose varint pb_decode_varint32 accepts: those of 32 bits, and those with bit 63 and
  // bit 31 set whose groups in between, at bits 35, 42, 49 and 56, are all zeros or all ones each.
  // Bits 32 to 34 do not matter.
  predicate Accepted32(v: nat) {
    v < TWO_32 || (v >= TWO_35 && v % TWO_32 >= TWO_31 && SignLike(v / TWO_35, 35))
  }

  lemma DecodeVarint32Accepts(v: nat, rest: Bytes)
    requires U64(v)
    ensures Decode32(EncodeVarint(v) + rest) ==
            if Accepted32(v) then Varint(v % TWO_32, |EncodeVarint(v)|) else BadVarint
  {
    PowersOf128();
    Reads32At0(v, rest);
  }

  lemma DecodeVarint32Inverts(v: nat, rest: Bytes)
    requires v < TWO_32
    ensures Decode32(EncodeVarint(v) + rest) == Varint(v, |EncodeVarint(v)|)
  {
    DecodeVarint32Accepts(v, rest);
  }

  // A sign-extended negative int32 comes back as its low 32 bits.
  lemma NegativesAreAccepted(v: nat)
    requires TWO_64 - TWO_31 <= v < TWO_64
    ensures Accepted32(v)
  {
    var u := v / TWO_35;
    assert u == 0x1FFF_FFFF;
    assert SignLike(1, 63) && SignLike(0xFF, 56) && SignLike(0x7FFF, 49) && SignLike(0x3F_FFFF, 42) && SignLike(0x1FFF_FFFF, 35);
  }

  // ---------------------------------------------------------------- zigzag

  function ZigZag(value: int): nat {
    if value < 0 then -2 * value - 1 else 2 * value
  }

  function UnZigZag(v: nat): int {
    if v % 2 == 1 then -(v / 2) - 1 else v / 2
  }

  // svarint encoding and decoding is the identity on all of int64.
  lemma SvarintRoundTrip(value: int, rest: Bytes)
    requires -TWO_63 <= value < TWO_63
    ensures var d := Decode64(EncodeVarint(ZigZag(value)) + rest);
            d.Varint? && UnZigZag(d.value) == value && d.length == |EncodeVarint(ZigZag(value))|
  {
    DecodeVarintInverts(ZigZag(value), rest);
  }
}
