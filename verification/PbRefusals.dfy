/**
 What pb_decode refuses: values that do not fit their fields, and streams cut inside a record.
 */
module PbRefusals {
  import opened Coding
  import opened Options
  import opened PbFields
  import opened PbVarint
  import opened PbMessage
  import opened PbRoundTrip
  import opened PbStreams

  // ---------------------------------------------------------------- values that do not fit

  // An unsigned value is taken exactly if it fits.
  lemma UvarintIff(f: Field, n: nat, rest: Bytes)
    requires U64(n)
    ensures DecUvarint(f, EncodeVarint(n) + rest) == if UnsignedRange(n, f.d.dataSize) then Got(n, rest) else Fail
  {
    DecodeVarintInverts(n, rest);
    DropPrefix(EncodeVarint(n), rest);
  }

  // So is a zigzag value.
  lemma SvarintIff(f: Field, v: int, rest: Bytes)
    requires -TWO_63 <= v < TWO_63
    ensures DecSvarint(f, EncodeVarint(ZigZag(v)) + rest) == if SignedRange(v, f.d.dataSize) then Got(v, rest) else Fail
  {
    SvarintRoundTrip(v, rest);
    DecodeVarintInverts(ZigZag(v), rest);
    DropPrefix(EncodeVarint(ZigZag(v)), rest);
  }

  // A signed value is first cut to 32 bits, unless the field has 64: what is taken is the one value of the
  // field with the same low bits, if there is one.
  lemma VarintIff(f: Field, n: nat, rest: Bytes, v: int)
    requires U64(n)
    ensures DecVarint(f, EncodeVarint(n) + rest) == Got(v, rest) <==>
            SignedRange(v, f.d.dataSize) && (v - n) % (if f.d.dataSize == 8 then TWO_64 else TWO_32) == 0
    ensures DecVarint(f, EncodeVarint(n) + rest).Got? ==> DecVarint(f, EncodeVarint(n) + rest).rest == rest
  {
    DecodeVarintInverts(n, rest);
    DropPrefix(EncodeVarint(n), rest);
    if f.d.dataSize == 8 { SameLowBits(n, TWO_63, v); } else { SameLowBits(n, TWO_31, v); }
  }

  lemma SameLowBits(n: nat, half: int, v: int)
    requires half > 0
    ensures -half <= v < half ==> (v == Signed(n, half) <==> (v - n) % (2 * half) == 0)
  {
    var m := 2 * half;
    var q, low := n / m, n % m;
    assert n == q * m + low;
    if -half <= v < half {
      var k := if low < half then -q else -q - 1;
      var w := Signed(n, half);
      assert w - n == k * m;
      Apart(v - w, k, m);
    }
  }

  // A distance below m from a multiple of m is one only if it is none.
  lemma Apart(d: int, k: int, m: int)
    requires m > 0 && -m < d < m
    ensures (d + k * m) % m == 0 <==> d == 0
  {
    if d >= 0 {
      Remainder(d + k * m, m, k, d);
    } else {
      assert d + k * m == (k - 1) * m + (d + m);
      Remainder(d + k * m, m, k - 1, d + m);
    }
  }

  lemma Remainder(v: int, m: nat, k: int, r: nat)
    requires r < m && v == k * m + r
    ensures v % m == r
  {
    var q := v / m;
    assert v == q * m + v % m;
    assert (q - k) * m == r - v % m;
    Multiple(q - k, m);
  }

  // Bytes are taken exactly if they fit with their length, a string with its terminator; a field of fixed
  // length takes its own length or nothing.
  lemma DataIff(f: Field, b: Bytes, rest: Bytes)
    requires |b| < TWO_32 && f.d.ltype in {BYTES, STRING, FIXED_LENGTH_BYTES}
    ensures DecData(f, PutLengthPrefixed(b) + rest) ==
            if f.d.ltype == FIXED_LENGTH_BYTES && b == [] then Got(ZeroBytes(f.d.dataSize), rest)
            else if (match f.d.ltype case BYTES => |b| + 4 <= f.d.dataSize case STRING => |b| < f.d.dataSize case _ => |b| == f.d.dataSize)
            then Got(b, rest) else Fail
  {
    PrefixedRoundTrip(b, rest);
    LengthRoundTrip(|b|, b + rest);
    assert (b + rest)[..|b|] == b && (b + rest)[|b|..] == rest;
    if b == [] { assert b + rest == rest; }
  }

  // ---------------------------------------------------------------- what a cut leaves

  // Every byte says that another one follows.
  predicate GoesOn(s: Bytes) { forall i :: 0 <= i < |s| ==> s[i] >= 128 }

  lemma {:induction false} NeverEnds(s: Bytes, bitpos: nat, weight: nat, result: nat, negative: bool)
    requires GoesOn(s)
    ensures Decode64From(s, bitpos) == BadVarint && Upper32(s, bitpos, negative) == 0 && SkipVarint(s) == Fail
    ensures bitpos % 7 == 0 && bitpos <= 35 ==> Decode32From(s, bitpos, weight, result) == BadVarint
    decreases |s|
  {
    if s != [] {
      NeverEnds(s[1..], bitpos + 7, weight * 128, (result + s[0] % 128 * weight) % TWO_32, negative);
      if bitpos == 35 { NeverEnds(s[1..], 42, 0, 0, result >= TWO_31); }
    }
  }

  lemma {:induction false} CutVarint(v: nat, n: nat)
    requires n < |EncodeVarint(v)|
    ensures GoesOn(EncodeVarint(v)[..n])
    decreases n
  {
    if n > 0 && v >= 128 {
      CutVarint(v / 128, n - 1);
      var s, t := EncodeVarint(v), EncodeVarint(v / 128);
      VarintHead(v, []);
      assert s + [] == s && t + [] == t;
      forall i | 0 <= i < n ensures s[..n][i] >= 128 {
        if i > 0 { assert s[i] == s[1..][i - 1] == t[..n - 1][i - 1]; }
      }
    }
  }

  lemma {:induction false} CutFixed(width: nat, v: nat)
    ensures |EncodeFixed(width, v)| == width
  {
  }

  // A cut inside a counted run of bytes.
  lemma CutRun(b: Bytes, n: nat)
    requires |b| < TWO_32 && n < |PutLengthPrefixed(b)|
    ensures var s := PutLengthPrefixed(b)[..n];
            DecSubstream(s) == Fail && (DecLength(s) == Fail || (DecLength(s).value == |b| > |DecLength(s).rest|))
  {
    var head := EncodeVarint(|b|);
    if n < |head| {
      assert PutLengthPrefixed(b)[..n] == head[..n];
      CutVarint(|b|, n);
      NeverEnds(head[..n], 0, 1, 0, false);
    } else {
      assert PutLengthPrefixed(b)[..n] == head + b[..n - |head|];
      LengthRoundTrip(|b|, b[..n - |head|]);
    }
  }

  lemma CutInt(f: Field, v: Value, n: nat)
    requires Packable(f) && ValueOk(f, v) && n < |EncValue(f, v)|
    ensures DecInt(f, EncValue(f, v)[..n]) == Fail && SkipField(WireType(f), EncValue(f, v)[..n]) == Fail
  {
    var s := EncValue(f, v)[..n];
    if f.d.ltype in {VARINT, UVARINT, SVARINT} {
      var u: nat := if f.d.ltype == VARINT then ToU64(v.i) else if f.d.ltype == UVARINT then v.i else ZigZag(v.i);
      CutVarint(u, n);
      NeverEnds(s, 0, 1, 0, false);
    } else {
      CutFixed(4, v.i);
      CutFixed(8, v.i);
    }
  }

  // A record whose payload is cut cannot be decoded or skipped.
  lemma CutPayload(fs: seq<Field>, slots: seq<Slot>, it: Item, n: nat)
    requires DescOk(fs) && |slots| == |fs| && ItemOk(fs, it) && n < |ItemPayload(fs, it)|
    ensures it.Stray? ==> SkipField(ItemType(fs, it), ItemPayload(fs, it)[..n]) == Fail
    ensures !it.Stray? ==> DecField(fs[it.i], slots[it.i], ItemType(fs, it), ItemPayload(fs, it)[..n]) == Fail
  {
    var s := ItemPayload(fs, it)[..n];
    match it
    case One(i, v) =>
      assert FieldOk(fs[i]);
      if Packable(fs[i]) { CutInt(fs[i], v, n); } else { CutData(fs[i], v, n); }
      ValueDecodes(fs[i], slots[i], WireType(fs[i]), s, Fail);
    case Run(i, vs) => CutRun(EncItems(fs[i], vs), n);
    case Sub(i, inner) =>
      CutRun(Wire(fs[i].sub, inner), n);
      assert DecValue(fs[i], Current(fs[i], slots[i]), s) == Fail;
      ValueDecodes(fs[i], slots[i], PB_WT_STRING, s, Fail);
    case Stray(u) => CutStray(u, n);
  }

  lemma CutData(f: Field, v: Value, n: nat)
    requires FieldOk(f) && f.d.ltype in {BYTES, STRING, FIXED_LENGTH_BYTES} && ValueOk(f, v) && n < |EncValue(f, v)|
    ensures DecData(f, EncValue(f, v)[..n]) == Fail
  {
    if f.d.ltype == STRING {
      TillNulOfString(v.b, f.d.dataSize);
    }
    CutRun(v.b, n);
  }

  lemma CutStray(u: UnknownField, n: nat)
    requires UnknownOk([], u) && n < |UnknownPayload(u)|
    ensures SkipField(UnknownType(u), UnknownPayload(u)[..n]) == Fail
  {
    match u
    case UnknownVarint(_, value) =>
      CutVarint(value, n);
      NeverEnds(EncodeVarint(value)[..n], 0, 1, 0, false);
    case UnknownString(_, bytes) => CutRun(bytes, n);
    case Unknown64(_, _) =>
    case Unknown32(_, _) =>
  }

  function TagOf(fs: seq<Field>, it: Item): nat
    requires ItemOk(fs, it)
  {
    if it.Stray? then it.u.tag else fs[it.i].d.tag
  }

  // A record cut anywhere but at its start cannot be decoded.
  lemma CutRecord(fs: seq<Field>, slots: seq<Slot>, seen: set<nat>, it: Item, n: nat)
    requires DescOk(fs) && |slots| == |fs| && ItemOk(fs, it) && 0 < n < |ItemBytes(fs, it)|
    ensures DecLoop(fs, slots, seen, ItemBytes(fs, it)[..n]) == Bad
  {
    if !it.Stray? { assert FieldOk(fs[it.i]); }
    var head, payload := EncTag(ItemType(fs, it), TagOf(fs, it)), ItemPayload(fs, it);
    assert ItemBytes(fs, it) == head + payload;
    if n < |head| {
      assert ItemBytes(fs, it)[..n] == head[..n];
      CutTag(fs, slots, seen, TagOf(fs, it) * 8 + ItemType(fs, it), n);
    } else {
      assert ItemBytes(fs, it)[..n] == head + payload[..n - |head|];
      CutBehindTag(fs, slots, seen, it, n - |head|);
    }
  }

  lemma CutTag(fs: seq<Field>, slots: seq<Slot>, seen: set<nat>, v: nat, n: nat)
    requires |slots| == |fs| && 0 < n < |EncodeVarint(v)|
    ensures DecLoop(fs, slots, seen, EncodeVarint(v)[..n]) == Bad
  {
    CutVarint(v, n);
    NeverEnds(EncodeVarint(v)[..n], 0, 1, 0, false);
  }

  lemma CutBehindTag(fs: seq<Field>, slots: seq<Slot>, seen: set<nat>, it: Item, n: nat)
    requires DescOk(fs) && |slots| == |fs| && ItemOk(fs, it) && n < |ItemPayload(fs, it)|
    ensures DecLoop(fs, slots, seen, EncTag(ItemType(fs, it), TagOf(fs, it)) + ItemPayload(fs, it)[..n]) == Bad
  {
    var tag, wireType, after := TagOf(fs, it), ItemType(fs, it), ItemPayload(fs, it)[..n];
    if it.Stray? {
      FindTagOfNone(fs, tag, 0);
    } else {
      assert FieldOk(fs[it.i]);
      FindTagOfField(fs, it.i, 0);
    }
    TagRoundTrip(wireType, tag, after);
    CutPayload(fs, slots, it, n);
    CutStep(fs, slots, seen, EncTag(wireType, tag) + after, tag, wireType, after);
  }

  lemma CutStep(fs: seq<Field>, slots: seq<Slot>, seen: set<nat>, s: Bytes, tag: nat, wireType: nat, after: Bytes)
    requires |slots| == |fs| && s != [] && DecTag(s) == Tag(tag, wireType, after)
    requires var i := FindTag(fs, tag); if i == |fs| then SkipField(wireType, after) == Fail else DecField(fs[i], slots[i], wireType, after) == Fail
    ensures DecLoop(fs, slots, seen, s) == Bad
  {
  }

  // ---------------------------------------------------------------- a cut stream

  // The records that are whole when the stream is cut after n bytes.
  function Whole(fs: seq<Field>, its: seq<Item>, n: nat): (k: nat)
    ensures k <= |its|
  {
    if its == [] || n < |ItemBytes(fs, its[0])| then 0 else 1 + Whole(fs, its[1..], n - |ItemBytes(fs, its[0])|)
  }

  lemma {:induction false} LoopCut(fs: seq<Field>, slots: seq<Slot>, seen: set<nat>, its: seq<Item>, n: nat)
    requires DescOk(fs) && |slots| == |fs| && ItemsOk(fs, its) && n <= |Wire(fs, its)|
    ensures var whole := its[..Whole(fs, its, n)];
            DecLoop(fs, slots, seen, Wire(fs, its)[..n]) == if n == |Wire(fs, whole)| then DecLoop(fs, slots, seen, Wire(fs, whole)) else Bad
    decreases |its|
  {
    if its == [] || n == 0 {
      assert Wire(fs, its)[..n] == [] == Wire(fs, []);
      if its != [] { assert its[..0] == []; }
    } else {
      var head, rest := ItemBytes(fs, its[0]), Wire(fs, its[1..]);
      if n < |head| {
        assert (head + rest)[..n] == head[..n];
        assert its[..0] == [];
        CutRecord(fs, slots, seen, its[0], n);
      } else {
        var m := n - |head|;
        var whole := Wire(fs, its[1..][..Whole(fs, its[1..], m)]);
        assert (head + rest)[..n] == head + rest[..m];
        WholeMore(fs, its, n);
        LoopCut(fs, Put(fs, slots, its[0]), Marked(fs, seen, its[0]), its[1..], m);
        CutBehind(fs, slots, seen, its[0], rest[..m], whole, m == |whole|);
      }
    }
  }

  lemma CutBehind(fs: seq<Field>, slots: seq<Slot>, seen: set<nat>, it: Item, s: Bytes, whole: Bytes, between: bool)
    requires DescOk(fs) && |slots| == |fs| && ItemOk(fs, it)
    requires var slots', seen' := Put(fs, slots, it), Marked(fs, seen, it);
             DecLoop(fs, slots', seen', s) == if between then DecLoop(fs, slots', seen', whole) else Bad
    ensures DecLoop(fs, slots, seen, ItemBytes(fs, it) + s) == if between then DecLoop(fs, slots, seen, ItemBytes(fs, it) + whole) else Bad
  {
    ItemDecodes(fs, slots, seen, it, s);
    ItemDecodes(fs, slots, seen, it, whole);
  }

  lemma WholeMore(fs: seq<Field>, its: seq<Item>, n: nat)
    requires its != [] && n >= |ItemBytes(fs, its[0])|
    ensures var m := n - |ItemBytes(fs, its[0])|;
            var k := Whole(fs, its[1..], m);
            Whole(fs, its, n) == k + 1 && Wire(fs, its[..k + 1]) == ItemBytes(fs, its[0]) + Wire(fs, its[1..][..k])
  {
    var k := Whole(fs, its[1..], n - |ItemBytes(fs, its[0])|);
    assert its[..k + 1][1..] == its[1..][..k];
  }

  // A stream cut inside a record is refused; cut between two, it decodes as the records before the cut do.
  lemma CutStream(fs: seq<Field>, slots: seq<Slot>, its: seq<Item>, n: nat)
    requires DescOk(fs) && |slots| == |fs| && ItemsOk(fs, its) && n <= |Wire(fs, its)|
    ensures var whole := its[..Whole(fs, its, n)];
            DecMsg(fs, slots, Wire(fs, its)[..n]) ==
            if n == |Wire(fs, whole)| && AllFit(fs, slots, whole) && Complete(fs, whole) then Some(Absorb(fs, slots, whole)) else None
  {
    var whole := its[..Whole(fs, its, n)];
    LoopCut(fs, slots, {}, its, n);
    FrontOk(fs, its, |whole|);
    StreamDecodes(fs, slots, whole);
  }

  lemma {:induction false} FrontOk(fs: seq<Field>, its: seq<Item>, k: nat)
    requires ItemsOk(fs, its) && k <= |its|
    ensures ItemsOk(fs, its[..k])
    decreases k
  {
    if k > 0 {
      FrontOk(fs, its[1..], k - 1);
      assert its[..k][1..] == its[1..][..k - 1];
    }
  }

  // ---------------------------------------------------------------- what ends a message

  // The decoder comes to what follows the records with what they make.
  lemma {:induction false} BehindRecords(fs: seq<Field>, slots: seq<Slot>, seen: set<nat>, its: seq<Item>, rest: Bytes)
    requires DescOk(fs) && |slots| == |fs| && ItemsOk(fs, its)
    ensures DecLoop(fs, slots, seen, Wire(fs, its) + rest) ==
            if AllFit(fs, slots, its) && InnerComplete(fs, its) then DecLoop(fs, Absorb(fs, slots, its), Seen(fs, seen, its), rest) else Bad
    decreases |its|
  {
    if its == [] {
      assert Wire(fs, its) + rest == rest;
    } else {
      ConcatAssociates(ItemBytes(fs, its[0]), Wire(fs, its[1..]), rest);
      ItemDecodes(fs, slots, seen, its[0], Wire(fs, its[1..]) + rest);
      BehindRecords(fs, Put(fs, slots, its[0]), Marked(fs, seen, its[0]), its[1..], rest);
    }
  }

  // A zero byte where a tag is expected ends the message, whatever follows it.
  lemma ZeroEndsMessage(fs: seq<Field>, slots: seq<Slot>, its: seq<Item>, rest: Bytes)
    requires DescOk(fs) && |slots| == |fs| && ItemsOk(fs, its)
    ensures DecMsg(fs, slots, Wire(fs, its) + ([0] + rest)) == DecMsg(fs, slots, Wire(fs, its))
  {
    BehindRecords(fs, slots, {}, its, [0] + rest);
    BehindRecords(fs, slots, {}, its, []);
    assert Wire(fs, its) + [] == Wire(fs, its);
    ZeroTag(rest);
  }

  lemma ZeroTag(rest: Bytes)
    ensures DecTag([0] + rest) == EndMark
  {
  }

  // A field of tag zero, which no message has, is refused by an empty descriptor, which takes it for its own
  // terminator, and skipped like any unknown field by the others.
  lemma TagZero(fs: seq<Field>, slots: seq<Slot>, wireType: nat, rest: Bytes)
    requires DescOk(fs) && |slots| == |fs| && 0 < wireType < 8
    ensures fs == [] ==> DecMsg(fs, slots, [wireType] + rest) == None
    ensures fs != [] ==> DecMsg(fs, slots, [wireType] + rest) ==
                         if SkipField(wireType, rest).Got? then DecMsg(fs, slots, SkipField(wireType, rest).rest) else None
  {
    var s := [wireType] + rest;
    assert s[1..] == rest && s[0] == wireType;
    assert Decode32(s) == Varint(wireType, 1);
    assert DecTag(s) == Tag(0, wireType, rest);
    forall i | 0 <= i < |fs| ensures fs[i].d.tag != 0 { assert FieldOk(fs[i]); }
    FindTagOfNone(fs, 0, 0);
  }
}
