/**
 pb_decode gives back what pb_encode wrote, also with unknown fields in between.
 */
module PbRoundTrip {
  import opened Coding
  import opened Options
  import opened PbFields
  import opened PbVarint
  import opened PbMessage

  // ---------------------------------------------------------------- pieces of the wire format

  lemma LengthRoundTrip(n: nat, rest: Bytes)
    requires n < TWO_32
    ensures DecLength(EncodeVarint(n) + rest) == Got(n, rest)
  {
    DecodeVarint32Inverts(n, rest);
    DropPrefix(EncodeVarint(n), rest);
  }

  lemma DropPrefix(a: Bytes, rest: Bytes)
    ensures (a + rest)[|a|..] == rest && (a + rest)[..|a|] == a
  {
  }

  lemma TagRoundTrip(wireType: nat, tag: nat, rest: Bytes)
    requires wireType < 8 && 0 < tag < MAX_TAG
    ensures DecTag(EncTag(wireType, tag) + rest) == Tag(tag, wireType, rest)
  {
    var v := tag * 8 + wireType;
    DecodeVarint32Inverts(v, rest);
    DropPrefix(EncodeVarint(v), rest);
    TagOfVarint(EncodeVarint(v) + rest, v, |EncodeVarint(v)|);
    assert v / 8 == tag && v % 8 == wireType;
  }

  lemma TagOfVarint(s: Bytes, v: nat, n: nat)
    requires n <= |s| && v != 0 && Decode32(s) == Varint(v, n)
    ensures DecTag(s) == Tag(v / 8, v % 8, s[n..])
  {
  }

  lemma PrefixedRoundTrip(b: Bytes, rest: Bytes)
    requires |b| < TWO_32
    ensures PutLengthPrefixed(b) + rest == EncodeVarint(|b|) + (b + rest)
    ensures DecSubstream(PutLengthPrefixed(b) + rest) == Got(b, rest)
  {
    ConcatAssociates(EncodeVarint(|b|), b, rest);
    LengthRoundTrip(|b|, b + rest);
    assert (b + rest)[..|b|] == b && (b + rest)[|b|..] == rest;
  }

  lemma RunRoundTrip(b: Bytes, room: nat, overhead: nat, rest: Bytes)
    requires |b| < TWO_32 && |b| + overhead <= room
    ensures DecRun(PutLengthPrefixed(b) + rest, room, overhead) == Got(b, rest)
  {
    PrefixedRoundTrip(b, rest);
    LengthRoundTrip(|b|, b + rest);
    assert (b + rest)[..|b|] == b && (b + rest)[|b|..] == rest;
  }

  lemma VarintValueRoundTrip(f: Field, v: int, rest: Bytes)
    requires SignedRange(v, f.d.dataSize)
    ensures DecVarint(f, EncodeVarint(ToU64(v)) + rest) == Got(v, rest)
  {
    DecodeVarintInverts(ToU64(v), rest);
    DropPrefix(EncodeVarint(ToU64(v)), rest);
    if f.d.dataSize == 8 { SignedOf64(v); } else { SignedOf32(v); }
  }

  lemma SignedOf64(v: int)
    requires -TWO_63 <= v < TWO_63
    ensures Signed(ToU64(v), TWO_63) == v
  {
  }

  // Casting to int32_t first gets the sign right in the smaller types.
  lemma SignedOf32(v: int)
    requires -TWO_31 <= v < TWO_31
    ensures Signed(ToU64(v), TWO_31) == v
  {
    if v < 0 { assert ToU64(v) == (TWO_32 - 1) * TWO_32 + (v + TWO_32); }
  }

  lemma FixedValueRoundTrip(width: nat, v: nat, rest: Bytes)
    requires v < Pow256(width)
    ensures DecFixed(width, EncodeFixed(width, v) + rest) == Got(v, rest)
  {
    FixedRoundTrip(width, v);
    var s := EncodeFixed(width, v) + rest;
    assert s[..width] == EncodeFixed(width, v) && s[width..] == rest;
  }

  lemma IntRoundTrip(f: Field, v: Value, rest: Bytes)
    requires Packable(f) && ValueOk(f, v)
    ensures DecInt(f, EncValue(f, v) + rest) == Got(v.i, rest)
  {
    match f.d.ltype
    case VARINT => VarintValueRoundTrip(f, v.i, rest);
    case UVARINT => DecodeVarintInverts(v.i, rest);
    case SVARINT => SvarintRoundTrip(v.i, rest);
    case FIXED32 =>
      assert Pow256(4) == TWO_32;
      FixedValueRoundTrip(4, v.i, rest);
    case FIXED64 =>
      assert Pow256(4) == TWO_32;
      assert Pow256(8) == TWO_64;
      FixedValueRoundTrip(8, v.i, rest);
  }

  lemma {:induction false} TillNulOfString(b: Bytes, size: nat)
    requires |b| <= size && forall k :: 0 <= k < |b| ==> b[k] != 0
    ensures TillNul(b, size) == b
    decreases size
  {
    if b != [] {
      TillNulOfString(b[1..], size - 1);
      assert b == [b[0]] + b[1..];
    }
  }

  lemma DataRoundTrip(f: Field, v: Value, rest: Bytes)
    requires f.d.ltype in {BYTES, STRING, FIXED_LENGTH_BYTES} && ValueOk(f, v) && f.d.dataSize <= PB_SIZE_MAX
    ensures DecData(f, EncValue(f, v) + rest) == Got(v.b, rest)
  {
    if f.d.ltype == BYTES {
      RunRoundTrip(v.b, f.d.dataSize, BYTES_OVERHEAD, rest);
    } else if f.d.ltype == STRING {
      TillNulOfString(v.b, f.d.dataSize);
      RunRoundTrip(v.b, f.d.dataSize, 1, rest);
    } else {
      PrefixedRoundTrip(v.b, rest);
      LengthRoundTrip(|v.b|, v.b + rest);
      assert (v.b + rest)[..|v.b|] == v.b && (v.b + rest)[|v.b|..] == rest;
      if v.b == [] { assert ZeroBytes(0) == []; }
    }
  }

  lemma {:induction false} PackedRoundTrip(f: Field, done: seq<Value>, items: seq<Value>)
    requires Packable(f) && AllOk(f, items) && |done| + |items| <= f.d.arraySize
    ensures DecPacked(f, done, EncItems(f, items)) == Some(done + items)
    decreases |items|
  {
    if items != [] {
      IntRoundTrip(f, items[0], EncItems(f, items[1..]));
      PackedRoundTrip(f, done + [items[0]], items[1..]);
      assert done + [items[0]] + items[1..] == done + items;
    } else {
      assert done + items == done;
    }
  }

  // ---------------------------------------------------------------- what comes back

  // A value as it is decoded into a struct that holds the defaults.
  function RestoredValue(f: Field, v: Value): Value
    decreases v
  {
    if f.d.ltype == SUBMESSAGE && v.Msg? && |v.slots| == |f.sub| then Msg(RestoredSlots(f.sub, v.slots)) else v
  }

  // Fields that were not written have their defaults.
  function RestoredSlot(f: Field, s: Slot): Slot
    decreases s
  {
    match s
    case Plain(v) => Plain(if f.d.htype != REQUIRED && ZeroValue(f, v) then Default(f) else RestoredValue(f, v))
    case Maybe(has, v) => Maybe(has, if has then RestoredValue(f, v) else Default(f))
    case Many(items) => Many(RestoredItems(f, items))
    case Choice(chosen) => Choice(if chosen.Some? then Some(RestoredValue(f, chosen.value)) else None)
  }

  function RestoredItems(f: Field, items: seq<Value>): (r: seq<Value>)
    ensures |r| == |items|
    decreases items
  {
    seq(|items|, k requires 0 <= k < |items| => RestoredValue(f, items[k]))
  }

  function RestoredSlots(fs: seq<Field>, slots: seq<Slot>): (r: seq<Slot>)
    requires |slots| == |fs|
    ensures |r| == |fs|
    decreases slots
  {
    seq(|fs|, i requires 0 <= i < |fs| => RestoredSlot(fs[i], slots[i]))
  }

  // ---------------------------------------------------------------- records

  // One tag with what follows it.
  datatype Rec = Single(i: nat, v: Value) | Packed(i: nat, items: seq<Value>)

  predicate RecOk(fs: seq<Field>, r: Rec) {
    r.i < |fs| && var f := fs[r.i];
    match r
    case Single(_, v) => ValueOk(f, v) && !(f.d.htype == REPEATED && Packable(f))
    case Packed(_, items) => f.d.htype == REPEATED && Packable(f) && items != [] && AllOk(f, items)
  }

  function RecType(fs: seq<Field>, r: Rec): nat
    requires r.i < |fs|
  {
    if r.Single? then WireType(fs[r.i]) else PB_WT_STRING
  }

  function EncRec(fs: seq<Field>, r: Rec): Bytes
    requires RecOk(fs, r)
  {
    var f := fs[r.i];
    EncTag(RecType(fs, r), f.d.tag) + match r case Single(_, v) => EncValue(f, v) case Packed(_, items) => PutLengthPrefixed(EncItems(f, items))
  }

  function NewSlot(f: Field, s: Slot, r: Rec): Slot {
    match r
    case Packed(_, items) => Many((if s.Many? then s.items else []) + items)
    case Single(_, v) =>
      var v' := RestoredValue(f, v);
      match f.d.htype
      case REQUIRED => Plain(v')
      case OPTIONAL => if HasFlag(f) then Maybe(true, v') else Plain(v')
      case REPEATED => Many((if s.Many? then s.items else []) + [v'])
      case ONEOF => Choice(Some(v'))
  }

  function Effect(fs: seq<Field>, slots: seq<Slot>, r: Rec): (r': seq<Slot>)
    requires |slots| == |fs| && r.i < |fs|
    ensures |r'| == |fs|
  {
    Store(fs, slots, r.i, NewSlot(fs[r.i], slots[r.i], r))
  }

  // The field is still as it was set to default, or the array has room.
  predicate Applicable(fs: seq<Field>, slots: seq<Slot>, r: Rec)
    requires |slots| == |fs| && r.i < |fs|
  {
    var f, s := fs[r.i], slots[r.i];
    if f.d.htype == REPEATED then s.Many? && |s.items| + (if r.Packed? then |r.items| else 1) <= f.d.arraySize
    else s == DefaultSlot(f)
  }

  lemma {:induction false} FindTagOfField(fs: seq<Field>, i: nat, from: nat)
    requires DescOk(fs) && from <= i < |fs|
    ensures FindTag(fs, fs[i].d.tag, from) == i
    decreases i - from
  {
    assert FieldOk(fs[i]);
    if from < i {
      assert fs[from].d.tag != fs[i].d.tag;
      FindTagOfField(fs, i, from + 1);
    }
  }

  lemma FieldDecodes(f: Field, s: Slot, r: Rec, payload: Bytes, rest: Bytes)
    requires f.d.atype == STATIC && RecOk([f], r) && r.i == 0 && Applicable([f], [s], r)
    requires r.Single? ==> DecValue(f, Default(f), payload + rest) == Got(RestoredValue(f, r.v), rest)
    requires r.Packed? ==> |EncItems(f, r.items)| < TWO_32 && payload == PutLengthPrefixed(EncItems(f, r.items))
    ensures DecField(f, s, RecType([f], r), payload + rest) == Got(NewSlot(f, s, r), rest)
  {
    if r.Packed? {
      PrefixedRoundTrip(EncItems(f, r.items), rest);
      PackedRoundTrip(f, s.items, r.items);
    }
  }

  // One record moves the decoder on by its effect.
  lemma RecDecodes(fs: seq<Field>, slots: seq<Slot>, seen: set<nat>, p: Piece, rest: Bytes)
    requires DescOk(fs) && |slots| == |fs| && p.Known? && PieceOk(fs, p) && Applicable(fs, slots, p.r) && PieceDecodes(fs, p)
    ensures DecLoop(fs, slots, seen, PieceBytes(fs, p) + rest) == DecLoop(fs, Effect(fs, slots, p.r), Mark(fs, seen, p.r.i), rest)
  {
    var r, f, payload := p.r, fs[p.r.i], Payload(fs, p);
    assert FieldOk(f);
    ConcatAssociates(EncTag(RecType(fs, r), f.d.tag), payload, rest);
    TagRoundTrip(RecType(fs, r), f.d.tag, payload + rest);
    FindTagOfField(fs, r.i, 0);
    if r.Single? { assert DecValue(f, Default(f), payload + rest) == Got(RestoredValue(f, r.v), rest); }
    FieldDecodes(f, slots[r.i], At0(r), payload, rest);
    LoopStep(fs, slots, seen, PieceBytes(fs, p) + rest, f.d.tag, RecType(fs, r), payload + rest, r.i, NewSlot(f, slots[r.i], r), rest);
  }

  function At0(r: Rec): Rec { if r.Single? then Single(0, r.v) else Packed(0, r.items) }

  lemma LoopStep(fs: seq<Field>, slots: seq<Slot>, seen: set<nat>, s: Bytes, tag: nat, wireType: nat, after: Bytes, i: nat, slot: Slot, rest: Bytes)
    requires |slots| == |fs| && s != [] && DecTag(s) == Tag(tag, wireType, after) && FindTag(fs, tag) == i < |fs|
    requires DecField(fs[i], slots[i], wireType, after) == Got(slot, rest)
    ensures DecLoop(fs, slots, seen, s) == DecLoop(fs, Store(fs, slots, i, slot), Mark(fs, seen, i), rest)
  {
  }

  // ---------------------------------------------------------------- unknown fields

  datatype UnknownField =
    | UnknownVarint(tag: nat, value: nat)
    | Unknown64(tag: nat, bytes: Bytes)
    | UnknownString(tag: nat, bytes: Bytes)
    | Unknown32(tag: nat, bytes: Bytes)

  // A well-formed field whose tag the descriptor does not have.
  predicate UnknownOk(fs: seq<Field>, u: UnknownField) {
    0 < u.tag < MAX_TAG && (forall i :: 0 <= i < |fs| ==> fs[i].d.tag != u.tag) &&
    match u
    case UnknownVarint(_, value) => true
    case Unknown64(_, bytes) => |bytes| == 8
    case UnknownString(_, bytes) => |bytes| < TWO_32
    case Unknown32(_, bytes) => |bytes| == 4
  }

  function UnknownType(u: UnknownField): nat {
    match u
    case UnknownVarint(_, _) => PB_WT_VARINT
    case Unknown64(_, _) => PB_WT_64BIT
    case UnknownString(_, _) => PB_WT_STRING
    case Unknown32(_, _) => PB_WT_32BIT
  }

  function UnknownPayload(u: UnknownField): Bytes {
    match u
    case UnknownVarint(_, value) => EncodeVarint(value)
    case Unknown64(_, bytes) => bytes
    case UnknownString(_, bytes) => PutLengthPrefixed(bytes)
    case Unknown32(_, bytes) => bytes
  }

  function EncUnknown(u: UnknownField): Bytes { EncTag(UnknownType(u), u.tag) + UnknownPayload(u) }

  lemma {:induction false} SkipVarintOf(v: nat, rest: Bytes)
    ensures SkipVarint(EncodeVarint(v) + rest) == Got((), rest)
  {
    VarintHead(v, rest);
    if v >= 128 {
      SkipVarintOf(v / 128, rest);
    } else {
      assert (EncodeVarint(v) + rest)[1..] == rest;
    }
  }

  lemma {:induction false} FindTagOfNone(fs: seq<Field>, tag: nat, from: nat)
    requires from <= |fs| && forall i :: 0 <= i < |fs| ==> fs[i].d.tag != tag
    ensures FindTag(fs, tag, from) == |fs|
    decreases |fs| - from
  {
    if from < |fs| { FindTagOfNone(fs, tag, from + 1); }
  }

  lemma UnknownIsSkipped(fs: seq<Field>, slots: seq<Slot>, seen: set<nat>, u: UnknownField, rest: Bytes)
    requires |slots| == |fs| && UnknownOk(fs, u)
    ensures DecLoop(fs, slots, seen, EncUnknown(u) + rest) == DecLoop(fs, slots, seen, rest)
  {
    var payload := UnknownPayload(u);
    ConcatAssociates(EncTag(UnknownType(u), u.tag), payload, rest);
    TagRoundTrip(UnknownType(u), u.tag, payload + rest);
    FindTagOfNone(fs, u.tag, 0);
    PayloadIsSkipped(u, rest);
    SkipStep(fs, slots, seen, EncUnknown(u) + rest, u.tag, UnknownType(u), payload + rest, rest);
  }

  lemma PayloadIsSkipped(u: UnknownField, rest: Bytes)
    requires UnknownOk([], u)
    ensures SkipField(UnknownType(u), UnknownPayload(u) + rest) == Got((), rest)
  {
    match u
    case UnknownVarint(_, value) => SkipVarintOf(value, rest);
    case UnknownString(_, bytes) => PrefixedRoundTrip(bytes, rest);
    case Unknown64(_, bytes) => assert (bytes + rest)[8..] == rest;
    case Unknown32(_, bytes) => assert (bytes + rest)[4..] == rest;
  }

  lemma SkipStep(fs: seq<Field>, slots: seq<Slot>, seen: set<nat>, s: Bytes, tag: nat, wireType: nat, after: Bytes, rest: Bytes)
    requires |slots| == |fs| && s != [] && DecTag(s) == Tag(tag, wireType, after) && tag != 0 && FindTag(fs, tag) == |fs|
    requires SkipField(wireType, after) == Got((), rest)
    ensures DecLoop(fs, slots, seen, s) == DecLoop(fs, slots, seen, rest)
  {
  }

  // ---------------------------------------------------------------- streams of records

  // A stretch of a stream: a record, whose submessage is a stream itself, or an unknown field.
  datatype Piece = Known(r: Rec, inner: seq<Piece>) | Unknown(u: UnknownField)

  function Knowns(ps: seq<Piece>): seq<Rec> {
    if ps == [] then [] else KnownIn(ps[0]) + Knowns(ps[1..])
  }

  function KnownIn(p: Piece): seq<Rec> { if p.Known? then [p.r] else [] }

  // What follows the tag of a record; a submessage is as long as its stream makes it.
  function Payload(fs: seq<Field>, p: Piece): Bytes
    requires p.Known? && RecOk(fs, p.r)
    decreases p, 0
  {
    var f := fs[p.r.i];
    if p.r.Packed? then PutLengthPrefixed(EncItems(f, p.r.items))
    else if f.d.ltype == SUBMESSAGE then PutLengthPrefixed(StreamOf(f.sub, p.inner))
    else EncValue(f, p.r.v)
  }

  function PieceBytes(fs: seq<Field>, p: Piece): Bytes
    decreases p, 1
  {
    match p
    case Known(r, _) => if RecOk(fs, r) then EncTag(RecType(fs, r), fs[r.i].d.tag) + Payload(fs, p) else []
    case Unknown(u) => EncUnknown(u)
  }

  function StreamOf(fs: seq<Field>, ps: seq<Piece>): Bytes
    decreases ps
  {
    if ps == [] then [] else PieceBytes(fs, ps[0]) + StreamOf(fs, ps[1..])
  }

  // Every record can be applied where it comes, and together they lead to after.
  ghost predicate Folds(fs: seq<Field>, slots: seq<Slot>, rs: seq<Rec>, after: seq<Slot>)
    requires |slots| == |fs|
    decreases |rs|
  {
    if rs == [] then slots == after
    else RecOk(fs, rs[0]) && Applicable(fs, slots, rs[0]) && Folds(fs, Effect(fs, slots, rs[0]), rs[1..], after)
  }

  ghost function FoldSeen(fs: seq<Field>, seen: set<nat>, rs: seq<Rec>): set<nat>
    decreases |rs|
  {
    if rs == [] then seen else FoldSeen(fs, if rs[0].i < |fs| then Mark(fs, seen, rs[0].i) else seen, rs[1..])
  }

  // The stream of a submessage has its records, in order, with unknown fields of its own in between.
  predicate PieceOk(fs: seq<Field>, p: Piece)
    decreases p
  {
    match p
    case Unknown(u) => UnknownOk(fs, u)
    case Known(r, inner) =>
      RecOk(fs, r) &&
      if r.Packed? then |EncItems(fs[r.i], r.items)| < TWO_32
      else fs[r.i].d.ltype == SUBMESSAGE ==> NoisyOf(fs[r.i].sub, r.v.slots, inner)
  }

  predicate NoisyOf(fs: seq<Field>, m: seq<Slot>, ps: seq<Piece>)
    decreases ps, 1
  {
    |m| == |fs| && PiecesOk(fs, ps) && Knowns(ps) == Recs(fs, m, 0) && |StreamOf(fs, ps)| < TWO_32
  }

  predicate PiecesOk(fs: seq<Field>, ps: seq<Piece>)
    decreases ps, 0
  {
    ps == [] || (PieceOk(fs, ps[0]) && PiecesOk(fs, ps[1..]))
  }

  ghost predicate PieceDecodes(fs: seq<Field>, p: Piece)
    requires p.Known? && RecOk(fs, p.r)
  {
    p.r.Single? ==>
      forall rest: Bytes {:trigger Payload(fs, p) + rest} ::
        DecValue(fs[p.r.i], Default(fs[p.r.i]), Payload(fs, p) + rest) == Got(RestoredValue(fs[p.r.i], p.r.v), rest)
  }

  lemma {:induction false} PieceRoundTrip(fs: seq<Field>, p: Piece)
    requires DescOk(fs) && p.Known? && PieceOk(fs, p)
    ensures PieceDecodes(fs, p)
    decreases p
  {
    if p.r.Single? {
      var f, v := fs[p.r.i], p.r.v;
      assert FieldOk(f);
      if f.d.ltype == SUBMESSAGE { NoisyRoundTrip(f.sub, v.slots, p.inner); }
      forall rest: Bytes ensures DecValue(f, Default(f), Payload(fs, p) + rest) == Got(RestoredValue(f, v), rest) {
        if f.d.ltype == SUBMESSAGE {
          SubmessageRoundTrip(f, v.slots, StreamOf(f.sub, p.inner), rest);
        } else {
          PlainRoundTrip(f, v, rest);
        }
      }
    }
  }

  lemma SubmessageRoundTrip(f: Field, m: seq<Slot>, body: Bytes, rest: Bytes)
    requires f.d.ltype == SUBMESSAGE && |m| == |f.sub| && |body| < TWO_32 && DecMsg(f.sub, Defaults(f.sub), body) == Some(RestoredSlots(f.sub, m))
    ensures DecValue(f, Default(f), PutLengthPrefixed(body) + rest) == Got(RestoredValue(f, Msg(m)), rest)
  {
    PrefixedRoundTrip(body, rest);
  }

  lemma PlainRoundTrip(f: Field, v: Value, rest: Bytes)
    requires FieldOk(f) && f.d.ltype != SUBMESSAGE && ValueOk(f, v)
    ensures DecValue(f, Default(f), EncValue(f, v) + rest) == Got(RestoredValue(f, v), rest)
  {
    if Packable(f) { IntRoundTrip(f, v, rest); } else { DataRoundTrip(f, v, rest); }
  }

  lemma {:induction false} PiecesDecode(fs: seq<Field>, slots: seq<Slot>, seen: set<nat>, ps: seq<Piece>, after: seq<Slot>)
    requires DescOk(fs) && |slots| == |fs| && PiecesOk(fs, ps) && Folds(fs, slots, Knowns(ps), after)
    ensures DecLoop(fs, slots, seen, StreamOf(fs, ps)) == Decoded(after, FoldSeen(fs, seen, Knowns(ps)))
    decreases ps, 0
  {
    if ps != [] {
      var rest := StreamOf(fs, ps[1..]);
      if ps[0].Known? {
        var r := ps[0].r;
        assert Knowns(ps) == [r] + Knowns(ps[1..]);
        assert Knowns(ps)[1..] == Knowns(ps[1..]);
        PieceRoundTrip(fs, ps[0]);
        RecDecodes(fs, slots, seen, ps[0], rest);
        PiecesDecode(fs, Effect(fs, slots, r), Mark(fs, seen, r.i), ps[1..], after);
      } else {
        assert Knowns(ps) == Knowns(ps[1..]);
        UnknownIsSkipped(fs, slots, seen, ps[0].u, rest);
        PiecesDecode(fs, slots, seen, ps[1..], after);
      }
    }
  }

  // A stream of the records of a message, noisy at any depth, decodes to the message.
  lemma {:induction false} NoisyRoundTrip(fs: seq<Field>, m: seq<Slot>, ps: seq<Piece>)
    requires DescOk(fs) && SlotsOk(fs, m) && PiecesOk(fs, ps) && Knowns(ps) == Recs(fs, m, 0)
    ensures DecMsg(fs, Defaults(fs), StreamOf(fs, ps)) == Some(RestoredSlots(fs, m))
    decreases ps, 1
  {
    assert Progress(fs, m, 0) == Defaults(fs);
    assert Progress(fs, m, |fs|) == RestoredSlots(fs, m);
    MessageFold(fs, m);
    PiecesDecode(fs, Defaults(fs), {}, ps, RestoredSlots(fs, m));
    EverythingSeen(fs, m);
  }

  // ---------------------------------------------------------------- the records of a message

  function Singles(i: nat, vs: seq<Value>): (rs: seq<Rec>)
    ensures |rs| == |vs|
  {
    seq(|vs|, k requires 0 <= k < |vs| => Single(i, vs[k]))
  }

  function RecsOfSlot(f: Field, i: nat, s: Slot): seq<Rec> {
    var vs := Written(f, s);
    if f.d.htype == REPEATED && Packable(f) then (if vs == [] then [] else [Packed(i, vs)]) else Singles(i, vs)
  }

  function Recs(fs: seq<Field>, m: seq<Slot>, i: nat): seq<Rec>
    requires |m| == |fs| && i <= |fs|
    decreases |fs| - i
  {
    if i == |fs| then [] else RecsOfSlot(fs[i], i, m[i]) + Recs(fs, m, i + 1)
  }

  // The first i fields restored, the others at their defaults.
  function Progress(fs: seq<Field>, m: seq<Slot>, i: nat): (r: seq<Slot>)
    requires |m| == |fs|
    ensures |r| == |fs|
  {
    seq(|fs|, j requires 0 <= j < |fs| => if j < i then RestoredSlot(fs[j], m[j]) else DefaultSlot(fs[j]))
  }

  lemma {:induction false} ItemsFold(fs: seq<Field>, slots: seq<Slot>, i: nat, items: seq<Value>, after: seq<Slot>)
    requires |slots| == |fs| && i < |fs| && fs[i].d.htype == REPEATED && !Packable(fs[i])
    requires slots[i].Many? && |slots[i].items| + |items| <= fs[i].d.arraySize
    requires AllOk(fs[i], items)
    requires after == slots[i := Many(slots[i].items + RestoredItems(fs[i], items))]
    ensures Folds(fs, slots, Singles(i, items), after)
    decreases |items|
  {
    var rs := Singles(i, items);
    if items == [] {
      assert slots[i].items + RestoredItems(fs[i], items) == slots[i].items;
    } else {
      var v := RestoredValue(fs[i], items[0]);
      var slots' := Effect(fs, slots, rs[0]);
      assert slots' == slots[i := Many(slots[i].items + [v])];
      assert slots[i].items + [v] + RestoredItems(fs[i], items[1..]) == slots[i].items + RestoredItems(fs[i], items);
      ItemsFold(fs, slots', i, items[1..], after);
      assert rs[1..] == Singles(i, items[1..]);
    }
  }

  lemma PackedItemsStay(f: Field, items: seq<Value>)
    requires Packable(f)
    ensures RestoredItems(f, items) == items
  {
  }

  // The records of one field take the struct from Progress(i) to Progress(i + 1).
  lemma FieldFold(fs: seq<Field>, m: seq<Slot>, i: nat)
    requires SlotsOk(fs, m) && i < |fs|
    ensures Folds(fs, Progress(fs, m, i), RecsOfSlot(fs[i], i, m[i]), Progress(fs, m, i + 1))
  {
    assert SlotOk(fs[i], m[i]);
    if fs[i].d.htype == REPEATED {
      RepeatedFold(fs, m, i);
    } else if Written(fs[i], m[i]) == [] {
      assert Progress(fs, m, i) == Progress(fs, m, i + 1);
    } else {
      SingleFold(fs, m, i);
    }
  }

  lemma RepeatedFold(fs: seq<Field>, m: seq<Slot>, i: nat)
    requires SlotsOk(fs, m) && i < |fs| && fs[i].d.htype == REPEATED
    ensures Folds(fs, Progress(fs, m, i), RecsOfSlot(fs[i], i, m[i]), Progress(fs, m, i + 1))
  {
    var f, before, vs := fs[i], Progress(fs, m, i), Written(fs[i], m[i]);
    assert SlotOk(f, m[i]);
    assert [] + RestoredItems(f, vs) == RestoredItems(f, vs);
    assert before[i := Many(RestoredItems(f, vs))] == Progress(fs, m, i + 1);
    if !Packable(f) {
      ItemsFold(fs, before, i, vs, Progress(fs, m, i + 1));
    } else {
      PackedItemsStay(f, vs);
      if vs == [] {
        assert before == Progress(fs, m, i + 1);
      } else {
        assert [] + vs == vs;
        assert Effect(fs, before, Packed(i, vs)) == Progress(fs, m, i + 1);
        OneFold(fs, before, Packed(i, vs));
      }
    }
  }

  lemma SingleFold(fs: seq<Field>, m: seq<Slot>, i: nat)
    requires SlotsOk(fs, m) && i < |fs| && fs[i].d.htype != REPEATED && Written(fs[i], m[i]) != []
    ensures Folds(fs, Progress(fs, m, i), RecsOfSlot(fs[i], i, m[i]), Progress(fs, m, i + 1))
  {
    var r := Single(i, Written(fs[i], m[i])[0]);
    assert SlotOk(fs[i], m[i]);
    assert RecsOfSlot(fs[i], i, m[i]) == [r];
    OneFold(fs, Progress(fs, m, i), r);
    forall j | 0 <= j < i && SameOneof(fs[i], fs[j]) ensures m[j] == Choice(None) {
      assert SameOneof(fs[j], fs[i]);
    }
    assert Effect(fs, Progress(fs, m, i), r) == Progress(fs, m, i + 1);
  }

  lemma OneFold(fs: seq<Field>, slots: seq<Slot>, r: Rec)
    requires |slots| == |fs| && RecOk(fs, r) && Applicable(fs, slots, r)
    ensures Folds(fs, slots, [r], Effect(fs, slots, r))
  {
    assert [r][1..] == [];
  }

  lemma {:induction false} FoldsConcat(fs: seq<Field>, slots: seq<Slot>, a: seq<Rec>, between: seq<Slot>, b: seq<Rec>, after: seq<Slot>)
    requires |slots| == |fs| == |between| && Folds(fs, slots, a, between) && Folds(fs, between, b, after)
    ensures Folds(fs, slots, a + b, after)
    decreases |a|
  {
    if a == [] {
      assert a + b == b;
    } else {
      FoldsConcat(fs, Effect(fs, slots, a[0]), a[1..], between, b, after);
      TailOfConcat(a, b);
    }
  }

  function Flatten<R>(parts: seq<seq<R>>, i: nat): seq<R>
    requires i <= |parts|
    decreases |parts| - i
  {
    if i == |parts| then [] else parts[i] + Flatten(parts, i + 1)
  }

  // Stretches that lead from each state to the next lead from the first to the last.
  lemma {:induction false} Compose<S(!new), R(!new)>(leads: (S, seq<R>, S) -> bool, states: seq<S>, parts: seq<seq<R>>, i: nat)
    requires |states| == |parts| + 1 && i <= |parts| && leads(states[|parts|], [], states[|parts|])
    requires forall s, a, t, b, u :: leads(s, a, t) && leads(t, b, u) ==> leads(s, a + b, u)
    requires forall j :: 0 <= j < |parts| ==> leads(states[j], parts[j], states[j + 1])
    ensures leads(states[i], Flatten(parts, i), states[|parts|])
    decreases |parts| - i
  {
    if i < |parts| { Compose(leads, states, parts, i + 1); }
  }

  lemma {:induction false} RecsAreFlat(fs: seq<Field>, m: seq<Slot>, parts: seq<seq<Rec>>, i: nat)
    requires |m| == |fs| == |parts| && i <= |fs| && forall j :: 0 <= j < |fs| ==> parts[j] == RecsOfSlot(fs[j], j, m[j])
    ensures Flatten(parts, i) == Recs(fs, m, i)
    decreases |fs| - i
  {
    if i < |fs| {
      assert parts[i] == RecsOfSlot(fs[i], i, m[i]);
      RecsAreFlat(fs, m, parts, i + 1);
    }
  }

  lemma MessageFold(fs: seq<Field>, m: seq<Slot>)
    requires SlotsOk(fs, m)
    ensures Folds(fs, Progress(fs, m, 0), Recs(fs, m, 0), Progress(fs, m, |fs|))
  {
    var leads := (s: seq<Slot>, rs: seq<Rec>, t: seq<Slot>) => |s| == |fs| == |t| && Folds(fs, s, rs, t);
    var states := seq(|fs| + 1, j requires 0 <= j <= |fs| => Progress(fs, m, j));
    var parts := seq(|fs|, j requires 0 <= j < |fs| => RecsOfSlot(fs[j], j, m[j]));
    forall j | 0 <= j < |fs| ensures leads(states[j], parts[j], states[j + 1]) { FieldFold(fs, m, j); }
    forall s, a, t, b, u | leads(s, a, t) && leads(t, b, u) ensures leads(s, a + b, u) { FoldsConcat(fs, s, a, t, b, u); }
    Compose(leads, states, parts, 0);
    RecsAreFlat(fs, m, parts, 0);
  }

  // ---------------------------------------------------------------- required fields

  lemma {:induction false} SeenStays(fs: seq<Field>, seen: set<nat>, rs: seq<Rec>)
    ensures seen <= FoldSeen(fs, seen, rs)
    ensures forall k :: 0 <= k < |rs| && rs[k].i < |fs| ==> Mark(fs, {}, rs[k].i) <= FoldSeen(fs, seen, rs)
    decreases |rs|
  {
    if rs != [] {
      SeenStays(fs, if rs[0].i < |fs| then Mark(fs, seen, rs[0].i) else seen, rs[1..]);
      forall k | 0 <= k < |rs| && rs[k].i < |fs| ensures Mark(fs, {}, rs[k].i) <= FoldSeen(fs, seen, rs) {
        if k > 0 { assert rs[k] == rs[1..][k - 1]; }
      }
    }
  }

  lemma {:induction false} RequiredIsWritten(fs: seq<Field>, m: seq<Slot>, i: nat, j: nat)
    requires SlotsOk(fs, m) && i <= j < |fs| && fs[j].d.htype == REQUIRED
    ensures exists k :: 0 <= k < |Recs(fs, m, i)| && Recs(fs, m, i)[k].i == j
    decreases |fs| - i
  {
    assert SlotOk(fs[j], m[j]);
    if i == j {
      assert RecsOfSlot(fs[j], j, m[j]) == [Single(j, m[j].v)];
      assert Recs(fs, m, i)[0].i == j;
    } else {
      RequiredIsWritten(fs, m, i + 1, j);
      var k :| 0 <= k < |Recs(fs, m, i + 1)| && Recs(fs, m, i + 1)[k].i == j;
      assert Recs(fs, m, i)[|RecsOfSlot(fs[i], i, m[i])| + k].i == j;
    }
  }

  lemma {:induction false} RequiredAt(ds: seq<FieldDesc>, n: nat, k: nat) returns (j: nat)
    requires n <= |ds| && k < RequiredIndex(ds, n)
    ensures j < n && ds[j].htype == REQUIRED && RequiredIndex(ds, j) == k
    decreases n
  {
    if k < RequiredIndex(ds, n - 1) { j := RequiredAt(ds, n - 1, k); } else { j := n - 1; }
  }

  lemma EverythingSeen(fs: seq<Field>, m: seq<Slot>)
    requires SlotsOk(fs, m)
    ensures AllSeen(fs, FoldSeen(fs, {}, Recs(fs, m, 0)))
  {
    var seen := FoldSeen(fs, {}, Recs(fs, m, 0));
    SeenStays(fs, {}, Recs(fs, m, 0));
    forall k | 0 <= k < PB_MAX_REQUIRED_FIELDS && k < RequiredIndex(Descs(fs), |fs|) ensures k in seen {
      var j := RequiredAt(Descs(fs), |fs|, k);
      RequiredIsWritten(fs, m, 0, j);
      assert k in Mark(fs, {}, j);
    }
  }

  // ---------------------------------------------------------------- main theorems

  lemma {:induction false} PiecesConcat(fs: seq<Field>, a: seq<Piece>, b: seq<Piece>)
    requires PiecesOk(fs, a) && PiecesOk(fs, b)
    ensures StreamOf(fs, a + b) == StreamOf(fs, a) + StreamOf(fs, b) && Knowns(a + b) == Knowns(a) + Knowns(b) && PiecesOk(fs, a + b)
    decreases |a|
  {
    if a == [] {
      assert a + b == b;
    } else {
      PiecesConcat(fs, a[1..], b);
      FirstPiece(fs, a, b);
      ConcatAssociates(PieceBytes(fs, a[0]), StreamOf(fs, a[1..]), StreamOf(fs, b));
      ConcatAssociates(KnownIn(a[0]), Knowns(a[1..]), Knowns(b));
    }
  }

  lemma FirstPiece(fs: seq<Field>, a: seq<Piece>, b: seq<Piece>)
    requires a != []
    ensures StreamOf(fs, a + b) == PieceBytes(fs, a[0]) + StreamOf(fs, a[1..] + b) && Knowns(a + b) == KnownIn(a[0]) + Knowns(a[1..] + b)
    ensures PiecesOk(fs, a + b) == (PieceOk(fs, a[0]) && PiecesOk(fs, a[1..] + b))
  {
    TailOfConcat(a, b);
  }

  // The records, without anything in between at any depth, make these bytes.
  ghost predicate Makes(fs: seq<Field>, rs: seq<Rec>, s: Bytes, ps: seq<Piece>) {
    PiecesOk(fs, ps) && Knowns(ps) == rs && StreamOf(fs, ps) == s
  }

  lemma MakesConcat(fs: seq<Field>, a: seq<Rec>, s: Bytes, p: seq<Piece>, b: seq<Rec>, t: Bytes, q: seq<Piece>)
    requires Makes(fs, a, s, p) && Makes(fs, b, t, q)
    ensures Makes(fs, a + b, s + t, p + q)
  {
    PiecesConcat(fs, p, q);
  }

  lemma OnePiece(fs: seq<Field>, p: Piece)
    requires p.Known? && PieceOk(fs, p) && PieceBytes(fs, p) == EncRec(fs, p.r)
    ensures Makes(fs, [p.r], EncRec(fs, p.r), [p])
  {
    assert [p][1..] == [];
    assert [p.r] + [] == [p.r] && EncRec(fs, p.r) + [] == EncRec(fs, p.r);
  }

  lemma {:induction false} SingleMakes(fs: seq<Field>, i: nat, v: Value) returns (ps: seq<Piece>)
    requires RecOk(fs, Single(i, v)) && |EncValue(fs[i], v)| < TWO_32
    ensures Makes(fs, [Single(i, v)], EncRec(fs, Single(i, v)), ps)
    decreases v
  {
    var inner := [];
    if fs[i].d.ltype == SUBMESSAGE { inner := FieldsMake(fs[i].sub, v.slots, 0); }
    ps := [Known(Single(i, v), inner)];
    OnePiece(fs, ps[0]);
  }

  lemma {:induction false} SinglesMake(fs: seq<Field>, i: nat, vs: seq<Value>) returns (ps: seq<Piece>)
    requires i < |fs| && AllOk(fs[i], vs) && !(fs[i].d.htype == REPEATED && Packable(fs[i])) && |EncTagged(fs[i], vs)| < TWO_32
    ensures Makes(fs, Singles(i, vs), EncTagged(fs[i], vs), ps)
    decreases vs
  {
    if vs == [] {
      ps := [];
    } else {
      var r := Single(i, vs[0]);
      var rest := SinglesMake(fs, i, vs[1..]);
      var first := SingleMakes(fs, i, vs[0]);
      assert Singles(i, vs) == [r] + Singles(i, vs[1..]);
      MakesConcat(fs, [r], EncRec(fs, r), first, Singles(i, vs[1..]), EncTagged(fs[i], vs[1..]), rest);
      ps := first + rest;
    }
  }

  lemma PackedMakes(fs: seq<Field>, i: nat, vs: seq<Value>) returns (ps: seq<Piece>)
    requires RecOk(fs, Packed(i, vs)) && |EncItems(fs[i], vs)| < TWO_32
    ensures Makes(fs, [Packed(i, vs)], EncRec(fs, Packed(i, vs)), ps)
  {
    ps := [Known(Packed(i, vs), [])];
    OnePiece(fs, ps[0]);
  }

  // What is written for a slot is the bytes of its records.
  lemma {:induction false} SlotMakes(fs: seq<Field>, i: nat, s: Slot) returns (ps: seq<Piece>)
    requires i < |fs| && SlotOk(fs[i], s) && |EncSlot(fs[i], s)| < TWO_32
    ensures Makes(fs, RecsOfSlot(fs[i], i, s), EncSlot(fs[i], s), ps)
    decreases s
  {
    var f, vs := fs[i], Written(fs[i], s);
    if s.Many? {
      if !Packable(f) { ps := SinglesMake(fs, i, s.items); }
      else if vs == [] { ps := []; }
      else { ps := PackedMakes(fs, i, vs); }
    } else if vs == [] {
      ps := [];
    } else {
      assert Singles(i, vs) == [Single(i, vs[0])];
      if s.Choice? { ps := SingleMakes(fs, i, s.chosen.value); } else { ps := SingleMakes(fs, i, s.v); }
    }
  }

  lemma {:induction false} FieldsMake(fs: seq<Field>, m: seq<Slot>, i: nat) returns (ps: seq<Piece>)
    requires SlotsOk(fs, m) && i <= |fs| && |EncFields(fs, m, i)| < TWO_32
    ensures Makes(fs, Recs(fs, m, i), EncFields(fs, m, i), ps)
    decreases m, |fs| - i
  {
    if i == |fs| {
      ps := [];
    } else {
      assert SlotOk(fs[i], m[i]);
      var first := SlotMakes(fs, i, m[i]);
      var rest := FieldsMake(fs, m, i + 1);
      MakesConcat(fs, RecsOfSlot(fs[i], i, m[i]), EncSlot(fs[i], m[i]), first, Recs(fs, m, i + 1), EncFields(fs, m, i + 1), rest);
      ps := first + rest;
    }
  }

  // ---------------------------------------------------------------- main theorems

  // pb_decode of pb_encode: the message, up to fields that were not written.
  lemma MessageRoundTrip(fs: seq<Field>, m: seq<Slot>)
    requires DescOk(fs) && SlotsOk(fs, m) && |EncFields(fs, m, 0)| < TWO_32
    ensures DecMsg(fs, Defaults(fs), EncFields(fs, m, 0)) == Some(RestoredSlots(fs, m))
  {
    var ps := FieldsMake(fs, m, 0);
    NoisyRoundTrip(fs, m, ps);
  }

  // Well-formed unknown fields, inserted anywhere between the records of a message and of its submessages
  // at every depth, change nothing.
  lemma UnknownFieldsChangeNothing(fs: seq<Field>, m: seq<Slot>, ps: seq<Piece>)
    requires DescOk(fs) && SlotsOk(fs, m) && |EncFields(fs, m, 0)| < TWO_32
    requires PiecesOk(fs, ps) && Knowns(ps) == Recs(fs, m, 0)
    ensures DecMsg(fs, Defaults(fs), StreamOf(fs, ps)) == DecMsg(fs, Defaults(fs), EncFields(fs, m, 0)) == Some(RestoredSlots(fs, m))
  {
    MessageRoundTrip(fs, m);
    NoisyRoundTrip(fs, m, ps);
  }

  // ---------------------------------------------------------------- what is lost

  // Nothing is masked: an absent field holds its default, and so does a proto3 field whose value is
  // zero.
  predicate SettledSlot(f: Field, s: Slot)
    decreases s
  {
    match s
    case Plain(v) => if f.d.htype != REQUIRED && ZeroValue(f, v) then v == Default(f) else SettledValue(f, v)
    case Maybe(has, v) => if has then SettledValue(f, v) else v == Default(f)
    case Many(items) => SettledItems(f, items)
    case Choice(chosen) => chosen.Some? ==> SettledValue(f, chosen.value)
  }

  predicate SettledItems(f: Field, vs: seq<Value>)
    decreases vs
  {
    vs == [] || (SettledValue(f, vs[0]) && SettledItems(f, vs[1..]))
  }

  predicate SettledValue(f: Field, v: Value)
    decreases v
  {
    f.d.ltype == SUBMESSAGE && v.Msg? && |v.slots| == |f.sub| ==> Settled(f.sub, v.slots)
  }

  predicate Settled(fs: seq<Field>, slots: seq<Slot>)
    requires |slots| == |fs|
    decreases slots
  {
    forall i {:trigger SettledSlot(fs[i], slots[i])} :: 0 <= i < |fs| ==> SettledSlot(fs[i], slots[i])
  }

  // A message comes back exactly if and only if nothing in it is masked.
  lemma {:induction false} RestoredExactly(fs: seq<Field>, m: seq<Slot>)
    requires |m| == |fs|
    ensures RestoredSlots(fs, m) == m <==> Settled(fs, m)
    decreases m
  {
    forall i | 0 <= i < |fs| ensures RestoredSlots(fs, m)[i] == m[i] <==> SettledSlot(fs[i], m[i]) {
      SlotRestored(fs[i], m[i]);
    }
    if RestoredSlots(fs, m) == m {
      forall i | 0 <= i < |fs| ensures SettledSlot(fs[i], m[i]) {
        assert RestoredSlots(fs, m)[i] == m[i];
      }
    }
  }

  lemma {:induction false} SlotRestored(f: Field, s: Slot)
    ensures RestoredSlot(f, s) == s <==> SettledSlot(f, s)
    decreases s
  {
    match s
    case Plain(v) => ValueRestored(f, v);
    case Maybe(has, v) => ValueRestored(f, v);
    case Many(items) => ItemsRestored(f, items);
    case Choice(chosen) => if chosen.Some? { ValueRestored(f, chosen.value); }
  }

  lemma {:induction false} ItemsRestored(f: Field, vs: seq<Value>)
    ensures RestoredItems(f, vs) == vs <==> SettledItems(f, vs)
    decreases vs
  {
    if vs != [] {
      ValueRestored(f, vs[0]);
      ItemsRestored(f, vs[1..]);
      RestoredTail(f, vs);
      assert vs == [vs[0]] + vs[1..];
    }
  }

  lemma RestoredTail(f: Field, vs: seq<Value>)
    requires vs != []
    ensures RestoredItems(f, vs) == [RestoredValue(f, vs[0])] + RestoredItems(f, vs[1..])
  {
    var r, t := RestoredItems(f, vs), [RestoredValue(f, vs[0])] + RestoredItems(f, vs[1..]);
    assert |r| == |t| == |vs|;
    forall k | 0 <= k < |vs| ensures r[k] == t[k] {
      if k > 0 { assert t[k] == RestoredItems(f, vs[1..])[k - 1] == RestoredValue(f, vs[1..][k - 1]); }
    }
  }

  lemma {:induction false} ValueRestored(f: Field, v: Value)
    ensures RestoredValue(f, v) == v <==> SettledValue(f, v)
    decreases v
  {
    if f.d.ltype == SUBMESSAGE && v.Msg? && |v.slots| == |f.sub| { RestoredExactly(f.sub, v.slots); }
  }
}
