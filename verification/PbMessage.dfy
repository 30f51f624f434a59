/**
 Messages as nanopb sees them: a descriptor tree and the values it describes, what pb_encode writes
 for them and what pb_decode makes of any bytes.  Fields are static; callbacks, extensions, pointers
 and repeated fields of fixed count are not described here.
 */
module PbMessage {
  import opened Coding
  import opened Options
  import opened PbFields
  import opened PbVarint

  // A descriptor entry with what its ptr leads to, a submessage descriptor or the default value
  // (zero when there is none), and the oneof it belongs to.
  datatype Field = Field(d: FieldDesc, sub: seq<Field>, init: Value, group: nat)

  datatype Value = Int(i: int) | Data(b: Bytes) | Msg(slots: seq<Slot>)

  // A field in the struct: alone, with its has_ flag, with its count, or in a union.
  datatype Slot = Plain(v: Value) | Maybe(has: bool, v: Value) | Many(items: seq<Value>) | Choice(chosen: Option<Value>)

  function Descs(fs: seq<Field>): (ds: seq<FieldDesc>)
    ensures |ds| == |fs| && forall i :: 0 <= i < |ds| ==> ds[i] == fs[i].d
  {
    seq(|fs|, i requires 0 <= i < |fs| => fs[i].d)
  }

  predicate HasFlag(f: Field) { f.d.htype == OPTIONAL && f.d.sizeOffset != 0 }

  predicate Packable(f: Field) { f.d.ltype in {VARINT, UVARINT, SVARINT, FIXED32, FIXED64} }

  // ---------------------------------------------------------------- defaults

  function Default(f: Field): Value
    decreases f, 0
  {
    if f.d.ltype == SUBMESSAGE then Msg(Defaults(f.sub)) else f.init
  }

  function DefaultSlot(f: Field): Slot
    decreases f, 1
  {
    match f.d.htype
    case REQUIRED => Plain(Default(f))
    case OPTIONAL => if HasFlag(f) then Maybe(false, Default(f)) else Plain(Default(f))
    case REPEATED => Many([])
    case ONEOF => Choice(None)
  }

  // pb_message_set_to_defaults
  function Defaults(fs: seq<Field>): (slots: seq<Slot>)
    ensures |slots| == |fs| && forall i :: 0 <= i < |fs| ==> slots[i] == DefaultSlot(fs[i])
    decreases fs
  {
    seq(|fs|, i requires 0 <= i < |fs| => DefaultSlot(fs[i]))
  }

  // ---------------------------------------------------------------- zero values

  // pb_check_proto3_default_value
  predicate ZeroSlot(f: Field, s: Slot)
    decreases s
  {
    match s
    case Many(items) => items == []
    case Choice(chosen) => chosen == None
    case Maybe(has, _) => !has
    case Plain(v) => f.d.htype != REQUIRED && ZeroValue(f, v)
  }

  predicate ZeroValue(f: Field, v: Value)
    decreases v
  {
    match f.d.ltype
    case BYTES => v == Data([])
    case STRING => v.Data? && (v.b == [] || v.b[0] == 0)
    case FIXED_LENGTH_BYTES => f.d.dataSize == 0
    case SUBMESSAGE => v.Msg? && |v.slots| == |f.sub| && forall i {:trigger ZeroSlot(f.sub[i], v.slots[i])} :: 0 <= i < |f.sub| ==> ZeroSlot(f.sub[i], v.slots[i])
    case _ => v == Int(0)
  }

  // ---------------------------------------------------------------- encoding

  const PB_WT_VARINT := 0
  const PB_WT_64BIT := 1
  const PB_WT_STRING := 2
  const PB_WT_32BIT := 5

  function WireType(f: Field): nat {
    match f.d.ltype
    case VARINT => PB_WT_VARINT
    case UVARINT => PB_WT_VARINT
    case SVARINT => PB_WT_VARINT
    case FIXED32 => PB_WT_32BIT
    case FIXED64 => PB_WT_64BIT
    case _ => PB_WT_STRING
  }

  function EncTag(wireType: nat, tag: nat): Bytes { EncodeVarint(tag * 8 + wireType) }

  // (pb_uint64_t)value
  function ToU64(v: int): nat
    requires -TWO_63 <= v < TWO_64
  {
    if v < 0 then v + TWO_64 else v
  }

  // The characters before the terminator, of at most size.
  function TillNul(b: Bytes, size: nat): (s: Bytes)
    ensures |s| <= |b|
  {
    if b == [] || size == 0 || b[0] == 0 then [] else [b[0]] + TillNul(b[1..], size - 1)
  }

  // What the encoder for the type writes after the tag.
  function EncValue(f: Field, v: Value): Bytes
    requires ValueOk(f, v)
    decreases v
  {
    match f.d.ltype
    case VARINT => EncodeVarint(ToU64(v.i))
    case UVARINT => EncodeVarint(v.i)
    case SVARINT => EncodeVarint(ZigZag(v.i))
    case FIXED32 => EncodeFixed(4, v.i)
    case FIXED64 => EncodeFixed(8, v.i)
    case STRING => PutLengthPrefixed(TillNul(v.b, f.d.dataSize))
    case SUBMESSAGE => PutLengthPrefixed(EncFields(f.sub, v.slots, 0))
    case _ => PutLengthPrefixed(v.b)
  }

  function EncItems(f: Field, items: seq<Value>): Bytes
    requires AllOk(f, items)
    decreases items
  {
    if items == [] then [] else EncValue(f, items[0]) + EncItems(f, items[1..])
  }

  function EncTagged(f: Field, items: seq<Value>): Bytes
    requires AllOk(f, items)
    decreases items
  {
    if items == [] then []
    else EncTag(WireType(f), f.d.tag) + EncValue(f, items[0]) + EncTagged(f, items[1..])
  }

  // The values of a slot that are written.
  function Written(f: Field, s: Slot): seq<Value> {
    match s
    case Plain(v) => if f.d.htype != REQUIRED && ZeroValue(f, v) then [] else [v]
    case Maybe(has, v) => if has then [v] else []
    case Many(items) => items
    case Choice(chosen) => if chosen.Some? then [chosen.value] else []
  }

  function EncSlot(f: Field, s: Slot): Bytes
    requires SlotOk(f, s)
    decreases s
  {
    match s
    case Plain(v) => if f.d.htype != REQUIRED && ZeroValue(f, v) then [] else EncTag(WireType(f), f.d.tag) + EncValue(f, v)
    case Maybe(has, v) => if has then EncTag(WireType(f), f.d.tag) + EncValue(f, v) else []
    case Many(items) =>
      if items == [] then []
      else if Packable(f) then EncTag(PB_WT_STRING, f.d.tag) + PutLengthPrefixed(EncItems(f, items))
      else EncTagged(f, items)
    case Choice(chosen) => if chosen.Some? then EncTag(WireType(f), f.d.tag) + EncValue(f, chosen.value) else []
  }

  // The fields from i on, in descriptor order.
  function EncFields(fs: seq<Field>, slots: seq<Slot>, i: nat): Bytes
    requires SlotsOk(fs, slots) && i <= |fs|
    decreases slots, |fs| - i
  {
    if i == |fs| then [] else EncSlot(fs[i], slots[i]) + EncFields(fs, slots, i + 1)
  }

  // ---------------------------------------------------------------- what is in range

  predicate SignedRange(v: int, size: nat) {
    match size
    case 1 => -0x80 <= v < 0x80
    case 2 => -0x8000 <= v < 0x8000
    case 4 => -TWO_31 <= v < TWO_31
    case 8 => -TWO_63 <= v < TWO_63
    case _ => false
  }

  predicate UnsignedRange(v: int, size: nat) {
    match size
    case 1 => 0 <= v < 0x100
    case 2 => 0 <= v < 0x1_0000
    case 4 => 0 <= v < TWO_32
    case 8 => 0 <= v < TWO_64
    case _ => false
  }

  const BYTES_OVERHEAD := 4    // offsetof(pb_bytes_array_t, bytes)

  predicate ValueOk(f: Field, v: Value)
    decreases v
  {
    match f.d.ltype
    case VARINT => v.Int? && SignedRange(v.i, f.d.dataSize)
    case UVARINT => v.Int? && UnsignedRange(v.i, f.d.dataSize)
    case SVARINT => v.Int? && SignedRange(v.i, f.d.dataSize)
    case FIXED32 => v.Int? && 0 <= v.i < TWO_32
    case FIXED64 => v.Int? && 0 <= v.i < TWO_64
    case BYTES => v.Data? && |v.b| + BYTES_OVERHEAD <= f.d.dataSize
    case STRING => v.Data? && |v.b| + 1 <= f.d.dataSize && forall k :: 0 <= k < |v.b| ==> v.b[k] != 0
    case FIXED_LENGTH_BYTES => v.Data? && |v.b| == f.d.dataSize
    case SUBMESSAGE => v.Msg? && SlotsOk(f.sub, v.slots)
    case EXTENSION => false
  }

  predicate AllOk(f: Field, vs: seq<Value>)
    decreases vs
  {
    vs == [] || (ValueOk(f, vs[0]) && AllOk(f, vs[1..]))
  }

  predicate SlotOk(f: Field, s: Slot)
    decreases s
  {
    match f.d.htype
    case REQUIRED => s.Plain? && ValueOk(f, s.v)
    case OPTIONAL => if HasFlag(f) then s.Maybe? && (s.has ==> ValueOk(f, s.v)) else s.Plain? && ValueOk(f, s.v)
    case REPEATED => s.Many? && |s.items| <= f.d.arraySize && AllOk(f, s.items)
    case ONEOF => s.Choice? && (s.chosen.Some? ==> ValueOk(f, s.chosen.value))
  }

  // At most one member of a oneof is chosen.
  predicate Exclusive(fs: seq<Field>, slots: seq<Slot>)
    requires |slots| == |fs|
  {
    forall i, j {:trigger SameOneof(fs[i], fs[j])} :: 0 <= i < j < |fs| && SameOneof(fs[i], fs[j]) ==>
      slots[i] == Choice(None) || slots[j] == Choice(None)
  }

  predicate SameOneof(f: Field, g: Field) { f.d.htype == ONEOF && g.d.htype == ONEOF && f.group == g.group }

  predicate SlotsOk(fs: seq<Field>, slots: seq<Slot>)
    decreases slots
  {
    |slots| == |fs| && Exclusive(fs, slots) && forall i {:trigger SlotOk(fs[i], slots[i])} :: 0 <= i < |fs| ==> SlotOk(fs[i], slots[i])
  }

  // ---------------------------------------------------------------- descriptors

  const MAX_TAG := 0x2000_0000

  predicate FieldOk(f: Field)
    decreases f
  {
    f.d.atype == STATIC && f.d.ltype != EXTENSION && 0 < f.d.tag < MAX_TAG && f.d.dataSize <= PB_SIZE_MAX &&
    (f.d.htype == REPEATED ==> f.d.sizeOffset != 0) &&
    (f.d.ltype == SUBMESSAGE ==> DescOk(f.sub))
  }

  // Tags are unique and not zero, all the way down.
  predicate DescOk(fs: seq<Field>)
    decreases fs
  {
    (forall i {:trigger FieldOk(fs[i])} :: 0 <= i < |fs| ==> FieldOk(fs[i])) &&
    (forall i, j :: 0 <= i < j < |fs| ==> fs[i].d.tag != fs[j].d.tag)
  }

  lemma TagsAreOk(fs: seq<Field>)
    requires DescOk(fs)
    ensures TagsOk(Descs(fs))
  {
    forall i | 0 <= i < |fs| ensures Descs(fs)[i].tag != 0 {
      assert FieldOk(fs[i]);
    }
  }

  // ---------------------------------------------------------------- decoding

  datatype Got<T> = Got(value: T, rest: Bytes) | Fail

  datatype Tag = Tag(tag: nat, wireType: nat, rest: Bytes) | EndMark | BadTag

  // pb_decode_tag; a zero ends the message.
  function DecTag(s: Bytes): (r: Tag)
    ensures r.Tag? ==> |r.rest| < |s| && r.wireType < 8
  {
    match Decode32(s)
    case Varint(value, n) => if value == 0 then EndMark else Tag(value / 8, value % 8, s[n..])
    case BadVarint => BadTag
  }

  function DecLength(s: Bytes): (r: Got<nat>)
    ensures r.Got? ==> |r.rest| < |s|
  {
    match Decode32(s)
    case Varint(value, n) => Got(value, s[n..])
    case BadVarint => Fail
  }

  // pb_make_string_substream: the contents of the substream, and what comes after it.
  function DecSubstream(s: Bytes): (r: Got<Bytes>)
    ensures r.Got? ==> |r.rest| + |r.value| < |s|
  {
    match DecLength(s)
    case Got(size, rest) => if size <= |rest| then Got(rest[..size], rest[size..]) else Fail
    case Fail => Fail
  }

  // (int32_t)value or (int64_t)value
  function Signed(value: nat, half: nat): int
    requires half > 0
  {
    var low := value % (2 * half);
    if low < half then low else low - 2 * half
  }

  function DecVarint(f: Field, s: Bytes): (r: Got<int>)
    ensures r.Got? ==> |r.rest| < |s|
  {
    match Decode64(s)
    case Varint(value, n) =>
      var v := if f.d.dataSize == 8 then Signed(value, TWO_63) else Signed(value, TWO_31);
      if SignedRange(v, f.d.dataSize) then Got(v, s[n..]) else Fail
    case BadVarint => Fail
  }

  function DecUvarint(f: Field, s: Bytes): (r: Got<int>)
    ensures r.Got? ==> |r.rest| < |s|
  {
    match Decode64(s)
    case Varint(value, n) => if UnsignedRange(value, f.d.dataSize) then Got(value, s[n..]) else Fail
    case BadVarint => Fail
  }

  function DecSvarint(f: Field, s: Bytes): (r: Got<int>)
    ensures r.Got? ==> |r.rest| < |s|
  {
    match Decode64(s)
    case Varint(value, n) => if SignedRange(UnZigZag(value), f.d.dataSize) then Got(UnZigZag(value), s[n..]) else Fail
    case BadVarint => Fail
  }

  function DecFixed(width: nat, s: Bytes): (r: Got<int>)
    ensures r.Got? ==> |r.rest| <= |s|
  {
    if |s| < width then Fail else Got(DecodeFixed(s[..width]), s[width..])
  }

  function DecInt(f: Field, s: Bytes): (r: Got<int>)
    requires Packable(f)
    ensures r.Got? ==> |r.rest| < |s|
  {
    match f.d.ltype
    case VARINT => DecVarint(f, s)
    case UVARINT => DecUvarint(f, s)
    case SVARINT => DecSvarint(f, s)
    case FIXED32 => DecFixed(4, s)
    case FIXED64 => DecFixed(8, s)
  }

  // A counted run of bytes that needs room for overhead more.
  function DecRun(s: Bytes, room: nat, overhead: nat): (r: Got<Bytes>)
    ensures r.Got? ==> |r.rest| < |s| && |r.value| + overhead <= room
  {
    match DecLength(s)
    case Got(size, rest) => if size + overhead > room || size > |rest| then Fail else Got(rest[..size], rest[size..])
    case Fail => Fail
  }

  function ZeroBytes(n: nat): (s: Bytes)
    ensures |s| == n
  {
    seq(n, i => 0)
  }

  function DecData(f: Field, s: Bytes): (r: Got<Bytes>)
    ensures r.Got? ==> |r.rest| < |s|
  {
    match f.d.ltype
    case BYTES => DecRun(s, f.d.dataSize, BYTES_OVERHEAD)
    case STRING => DecRun(s, f.d.dataSize, 1)
    case _ =>
      match DecLength(s)
      case Got(size, rest) =>
        // An empty string stands for all zeros.
        if size == 0 then Got(ZeroBytes(f.d.dataSize), rest)
        else if size != f.d.dataSize || size > |rest| then Fail
        else Got(rest[..size], rest[size..])
      case Fail => Fail
  }

  // pb_skip_varint, then pb_skip_field
  function SkipVarint(s: Bytes): (r: Got<()>)
    ensures r.Got? ==> |r.rest| < |s|
  {
    if s == [] then Fail else if s[0] < 128 then Got((), s[1..]) else SkipVarint(s[1..])
  }

  function SkipField(wireType: nat, s: Bytes): (r: Got<()>)
    ensures r.Got? ==> |r.rest| <= |s|
  {
    if wireType == PB_WT_VARINT then SkipVarint(s)
    else if wireType == PB_WT_64BIT then (if |s| < 8 then Fail else Got((), s[8..]))
    else if wireType == PB_WT_STRING then (match DecSubstream(s) case Got(_, rest) => Got((), rest) case Fail => Fail)
    else if wireType == PB_WT_32BIT then (if |s| < 4 then Fail else Got((), s[4..]))
    else Fail
  }

  // The field with a tag, |fs| if there is none.
  function FindTag(fs: seq<Field>, tag: nat, from: nat := 0): (i: nat)
    requires from <= |fs|
    ensures from <= i <= |fs| && (i < |fs| ==> fs[i].d.tag == tag && fs[i].d.ltype != EXTENSION)
    decreases |fs| - from
  {
    if from == |fs| || (fs[from].d.tag == tag && fs[from].d.ltype != EXTENSION) then from else FindTag(fs, tag, from + 1)
  }

  // The struct after a field was stored; the members of a oneof share their place.
  function Store(fs: seq<Field>, slots: seq<Slot>, i: nat, s: Slot): (r: seq<Slot>)
    requires |slots| == |fs| && i < |fs|
    ensures |r| == |fs| && r[i] == s
    ensures forall j :: 0 <= j < |fs| && j != i ==> r[j] == if SameOneof(fs[i], fs[j]) then Choice(None) else slots[j]
  {
    seq(|fs|, j requires 0 <= j < |fs| => if j == i then s else if SameOneof(fs[i], fs[j]) then Choice(None) else slots[j])
  }

  // Required fields seen, of those that are kept track of.
  function Mark(fs: seq<Field>, seen: set<nat>, i: nat): set<nat>
    requires i < |fs|
  {
    var k := RequiredIndex(Descs(fs), i);
    if fs[i].d.htype == REQUIRED && k < PB_MAX_REQUIRED_FIELDS then seen + {k} else seen
  }

  predicate AllSeen(fs: seq<Field>, seen: set<nat>) {
    forall k :: 0 <= k < PB_MAX_REQUIRED_FIELDS && k < RequiredIndex(Descs(fs), |fs|) ==> k in seen
  }

  datatype Decoded = Decoded(slots: seq<Slot>, seen: set<nat>) | Bad

  // pb_decode_noinit: what it makes of a struct, if it succeeds.
  function DecMsg(fs: seq<Field>, slots: seq<Slot>, s: Bytes): (r: Option<seq<Slot>>)
    requires |slots| == |fs|
    ensures r.Some? ==> |r.value| == |fs|
    decreases |s|, 4
  {
    match DecLoop(fs, slots, {}, s)
    case Decoded(slots', seen) => if AllSeen(fs, seen) then Some(slots') else None
    case Bad => None
  }

  function DecLoop(fs: seq<Field>, slots: seq<Slot>, seen: set<nat>, s: Bytes): (r: Decoded)
    requires |slots| == |fs|
    ensures r.Decoded? ==> |r.slots| == |fs|
    decreases |s|, 3
  {
    if s == [] then Decoded(slots, seen)
    else match DecTag(s)
      case EndMark => Decoded(slots, seen)
      case BadTag => Bad
      case Tag(tag, wireType, rest) =>
        var i := FindTag(fs, tag);
        if i == |fs| then
          // An empty descriptor finds its terminator, which no decoder accepts.
          if fs == [] && tag == 0 then Bad
          else match SkipField(wireType, rest)
            case Got(_, more) => DecLoop(fs, slots, seen, more)
            case Fail => Bad
        else match DecField(fs[i], slots[i], wireType, rest)
          case Got(slot, more) => DecLoop(fs, Store(fs, slots, i, slot), Mark(fs, seen, i), more)
          case Fail => Bad
  }

  // decode_static_field
  function DecField(f: Field, slot: Slot, wireType: nat, s: Bytes): (r: Got<Slot>)
    ensures r.Got? ==> |r.rest| <= |s|
    decreases |s|, 2
  {
    match f.d.htype
    case REQUIRED => DecPlain(f, slot, s)
    case OPTIONAL =>
      if HasFlag(f) then
        (match DecValue(f, if slot.Maybe? then slot.v else Default(f), s)
         case Got(v, rest) => Got(Maybe(true, v), rest)
         case Fail => Fail)
      else DecPlain(f, slot, s)
    case REPEATED =>
      var items := if slot.Many? then slot.items else [];
      if wireType == PB_WT_STRING && Packable(f) then DecPackedField(f, items, s)
      else if |items| >= f.d.arraySize then Fail    // no room for one more
      else
        (match DecValue(f, Default(f), s)
         case Got(v, rest) => Got(Many(items + [v]), rest)
         case Fail => Fail)
    case ONEOF =>
      match DecValue(f, Default(f), s)
      case Got(v, rest) => Got(Choice(Some(v)), rest)
      case Fail => Fail
  }

  function DecPlain(f: Field, slot: Slot, s: Bytes): (r: Got<Slot>)
    ensures r.Got? ==> |r.rest| <= |s|
    decreases |s|, 1
  {
    match DecValue(f, if slot.Plain? then slot.v else Default(f), s)
    case Got(v, rest) => Got(Plain(v), rest)
    case Fail => Fail
  }

  function DecPackedField(f: Field, items: seq<Value>, s: Bytes): (r: Got<Slot>)
    requires Packable(f)
    ensures r.Got? ==> |r.rest| <= |s|
  {
    match DecSubstream(s)
    case Got(sub, rest) =>
      (match DecPacked(f, items, sub)
       case Some(items') => Got(Many(items'), rest)
       case None => Fail)
    case Fail => Fail
  }

  // The items of a packed array; bytes left over when the array is full are an error.
  function DecPacked(f: Field, items: seq<Value>, s: Bytes): Option<seq<Value>>
    requires Packable(f)
    decreases |s|
  {
    if s == [] then Some(items)
    else if |items| >= f.d.arraySize then None
    else
      match DecInt(f, s)
      case Got(v, rest) => DecPacked(f, items + [Int(v)], rest)
      case Fail => None
  }

  // The decoder for the type; a submessage is decoded on top of what is there.
  function DecValue(f: Field, current: Value, s: Bytes): (r: Got<Value>)
    ensures r.Got? ==> |r.rest| <= |s|
    decreases |s|, 0
  {
    if Packable(f) then
      match DecInt(f, s)
      case Got(v, rest) => Got(Int(v), rest)
      case Fail => Fail
    else if f.d.ltype == SUBMESSAGE then
      match DecSubstream(s)
      case Got(sub, rest) =>
        (match DecMsg(f.sub, if current.Msg? && |current.slots| == |f.sub| then current.slots else Defaults(f.sub), sub)
         case Some(slots) => Got(Msg(slots), rest)
         case None => Fail)
      case Fail => Fail
    else if f.d.ltype == EXTENSION then Fail
    else
      match DecData(f, s)
      case Got(b, rest) => Got(Data(b), rest)
      case Fail => Fail
  }
}
