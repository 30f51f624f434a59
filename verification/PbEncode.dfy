/**
 The encoder (pb_encode.c): an output stream that writes or only counts, and the functions that put
 a message into it.  Submessages and packed arrays are gone through twice, first for their size.
 */
module PbEncode {
  import opened Coding
  import opened Options
  import opened PbFields
  import opened PbVarint
  import opened PbMessage

  // A pb_ostream_t: without a callback it only counts.
  datatype StreamState = StreamState(writing: bool, maxSize: nat, written: nat, out: Bytes)

  // The stream took s, if there was room for it; otherwise it took no more than fits.
  predicate Wrote(a: StreamState, b: StreamState, s: Bytes, ok: bool) {
    b.writing == a.writing && b.maxSize == a.maxSize &&
    if !a.writing then ok && b.out == a.out && b.written == a.written + |s|
    else if a.written + |s| <= a.maxSize then ok && b.out == a.out + s && b.written == a.written + |s|
    else !ok && a.written <= b.written <= a.maxSize && a.out <= b.out <= a.out + s && |b.out| - |a.out| == b.written - a.written
  }

  lemma WroteMore(a: StreamState, b: StreamState, c: StreamState, s: Bytes, t: Bytes, ok: bool)
    requires Wrote(a, b, s, true) && Wrote(b, c, t, ok)
    ensures Wrote(a, c, s + t, ok)
  {
    ConcatAssociates(a.out, s, t);
    PrefixChain(a.out, b.out, c.out);
  }

  lemma PrefixChain(a: Bytes, b: Bytes, c: Bytes)
    ensures a <= b && b <= c ==> a <= c
  {
  }

  lemma WroteLess(a: StreamState, b: StreamState, s: Bytes, t: Bytes)
    requires Wrote(a, b, s, false)
    ensures Wrote(a, b, s + t, false)
  {
    ConcatAssociates(a.out, s, t);
  }

  class OStream {
    var writing: bool          // callback != NULL
    var maxSize: nat
    var bytesWritten: nat
    var state: Bytes           // what has been put where state points

    function Now(): StreamState reads this { StreamState(writing, maxSize, bytesWritten, state) }

    // pb_ostream_from_buffer, PB_OSTREAM_SIZING, and the substreams of pb_encode_submessage
    constructor (writing: bool, state: Bytes, maxSize: nat)
      ensures Now() == StreamState(writing, maxSize, 0, state)
    {
      this.writing, this.state, this.maxSize, bytesWritten := writing, state, maxSize, 0;
    }

    // pb_write
    method Write(buf: Bytes) returns (ok: bool)
      requires writing ==> bytesWritten <= maxSize
      modifies this
      ensures Wrote(old(Now()), Now(), buf, ok)
    {
      if writing {
        if bytesWritten + |buf| > maxSize {
          return false;
        }
        state := state + buf;
      }
      bytesWritten := bytesWritten + |buf|;
      return true;
    }

    // pb_write of size bytes that are not there
    method Count(size: nat)
      requires !writing
      modifies this
      ensures Now() == old(Now()).(written := old(bytesWritten) + size)
    {
      bytesWritten := bytesWritten + size;
    }

    method EncodeVarint(value: nat) returns (ok: bool)
      requires U64(value) && (writing ==> bytesWritten <= maxSize)
      modifies this
      ensures Wrote(old(Now()), Now(), Coding.EncodeVarint(value), ok)
    {
      var buffer := EncodeVarintLoop(value);
      ok := Write(buffer);
    }

    method EncodeTag(wireType: nat, tag: nat) returns (ok: bool)
      requires wireType < 8 && tag < MAX_TAG && (writing ==> bytesWritten <= maxSize)
      modifies this
      ensures Wrote(old(Now()), Now(), EncTag(wireType, tag), ok)
    {
      ok := EncodeVarint(tag * 8 + wireType);
    }

    // pb_encode_string
    method EncodeString(buffer: Bytes) returns (ok: bool)
      requires |buffer| < TWO_32 && (writing ==> bytesWritten <= maxSize)
      modifies this
      ensures Wrote(old(Now()), Now(), PutLengthPrefixed(buffer), ok)
    {
      ghost var a := Now();
      ok := EncodeVarint(|buffer|);
      ghost var b, head := Now(), Coding.EncodeVarint(|buffer|);
      if !ok {
        WroteLess(a, b, head, buffer);
        return;
      }
      ok := Write(buffer);
      WroteMore(a, b, Now(), head, buffer, ok);
    }
  }

  // ---------------------------------------------------------------- values

  // pb_enc_varint to pb_enc_fixed64
  method EncodeInt(stream: OStream, f: Field, v: Value) returns (ok: bool)
    requires Packable(f) && ValueOk(f, v) && (stream.writing ==> stream.bytesWritten <= stream.maxSize)
    modifies stream
    ensures Wrote(old(stream.Now()), stream.Now(), EncValue(f, v), ok)
  {
    match f.d.ltype
    case VARINT => ok := stream.EncodeVarint(ToU64(v.i));
    case UVARINT => ok := stream.EncodeVarint(v.i);
    case SVARINT => ok := stream.EncodeVarint(ZigZag(v.i));
    case FIXED32 => ok := stream.Write(EncodeFixed(4, v.i));
    case FIXED64 => ok := stream.Write(EncodeFixed(8, v.i));
  }

  lemma {:induction false} FixedItems(f: Field, items: seq<Value>)
    requires AllOk(f, items)
    ensures f.d.ltype == FIXED32 ==> |EncItems(f, items)| == 4 * |items|
    ensures f.d.ltype == FIXED64 ==> |EncItems(f, items)| == 8 * |items|
  {
    if items != [] { FixedItems(f, items[1..]); }
  }

  // The loops over the items of a packed array, for its size and for its contents.
  method EncodeItems(stream: OStream, f: Field, items: seq<Value>) returns (ok: bool)
    requires Packable(f) && AllOk(f, items) && (stream.writing ==> stream.bytesWritten <= stream.maxSize)
    modifies stream
    ensures Wrote(old(stream.Now()), stream.Now(), EncItems(f, items), ok)
  {
    ghost var a, done := stream.Now(), [];
    var rest := items;
    assert [] + EncItems(f, items) == EncItems(f, items);
    while rest != []
      invariant AllOk(f, rest) && done + EncItems(f, rest) == EncItems(f, items)
      invariant Wrote(a, stream.Now(), done, true)
      decreases |rest|
    {
      ghost var b, one, more := stream.Now(), EncValue(f, rest[0]), EncItems(f, rest[1..]);
      ConcatAssociates(done, one, more);
      ok := EncodeInt(stream, f, rest[0]);
      WroteMore(a, b, stream.Now(), done, one, ok);
      if !ok {
        WroteLess(a, stream.Now(), done + one, more);
        return;
      }
      done := done + one;
      rest := rest[1..];
    }
    assert done + [] == done;
    return true;
  }

  // The length of a packed array: counted for fixed widths, or else written to a stream that only sizes.
  method PackedSize(f: Field, items: seq<Value>) returns (size: nat)
    requires FieldOk(f) && Packable(f) && AllOk(f, items) && |EncItems(f, items)| < TWO_64
    ensures size == |EncItems(f, items)|
  {
    FixedItems(f, items);
    if f.d.ltype == FIXED32 {
      size := 4 * |items|;
    } else if f.d.ltype == FIXED64 {
      size := 8 * |items|;
    } else {
      var sizestream := new OStream(false, [], 0);
      var _ := EncodeItems(sizestream, f, items);
      size := sizestream.bytesWritten;
    }
  }

  // The packed branch of encode_array
  method EncodePacked(stream: OStream, f: Field, items: seq<Value>) returns (ok: bool)
    requires FieldOk(f) && Packable(f) && AllOk(f, items) && |EncItems(f, items)| < TWO_64
    requires stream.writing ==> stream.bytesWritten <= stream.maxSize
    modifies stream
    ensures Wrote(old(stream.Now()), stream.Now(), EncTag(PB_WT_STRING, f.d.tag) + PutLengthPrefixed(EncItems(f, items)), ok)
  {
    ghost var a, tag, length, body := stream.Now(), EncTag(PB_WT_STRING, f.d.tag), Coding.EncodeVarint(|EncItems(f, items)|), EncItems(f, items);
    ConcatAssociates(tag, length, body);
    ok := stream.EncodeTag(PB_WT_STRING, f.d.tag);
    ghost var b := stream.Now();
    if !ok {
      WroteLess(a, b, tag, PutLengthPrefixed(body));
      return;
    }
    var size := PackedSize(f, items);
    ok := stream.EncodeVarint(size);
    ghost var c := stream.Now();
    WroteMore(a, b, c, tag, length, ok);
    if !ok {
      WroteLess(a, c, tag + length, body);
      return;
    }
    if !stream.writing {
      stream.Count(size);
      ok := true;
    } else {
      ok := EncodeItems(stream, f, items);
    }
    WroteMore(a, c, stream.Now(), tag + length, body, ok);
  }

  // ---------------------------------------------------------------- messages

  lemma {:induction false} PartsFit(fs: seq<Field>, slots: seq<Slot>, i: nat, j: nat)
    requires SlotsOk(fs, slots) && i <= j <= |fs|
    ensures |EncFields(fs, slots, j)| <= |EncFields(fs, slots, i)|
    ensures j < |fs| ==> |EncSlot(fs[j], slots[j])| <= |EncFields(fs, slots, i)|
    decreases j - i
  {
    if i < j { PartsFit(fs, slots, i + 1, j); }
  }

  // pb_encode
  method EncodeMessage(stream: OStream, fs: seq<Field>, slots: seq<Slot>) returns (ok: bool)
    requires DescOk(fs) && SlotsOk(fs, slots) && |EncFields(fs, slots, 0)| < TWO_64
    requires stream.writing ==> stream.bytesWritten <= stream.maxSize
    modifies stream
    ensures Wrote(old(stream.Now()), stream.Now(), EncFields(fs, slots, 0), ok)
    decreases slots, 1
  {
    ghost var a, done := stream.Now(), [];
    if fs == [] {
      return true;    // nothing to write
    }
    TagsAreOk(fs);
    var iter := new FieldIter(Descs(fs), 0);
    var i, more := 0, true;
    assert [] + EncFields(fs, slots, 0) == EncFields(fs, slots, 0);
    while more
      invariant iter.Valid() && fresh(iter) && iter.fields == Descs(fs)
      invariant if more then i == iter.pos < |fs| else i == |fs|
      invariant done + EncFields(fs, slots, i) == EncFields(fs, slots, 0)
      invariant Wrote(a, stream.Now(), done, true)
      decreases |fs| - i
    {
      ghost var b, one, rest := stream.Now(), EncSlot(fs[i], slots[i]), EncFields(fs, slots, i + 1);
      ConcatAssociates(done, one, rest);
      PartsFit(fs, slots, 0, i);
      assert FieldOk(fs[iter.pos]);
      ok := EncodeField(stream, fs[iter.pos], slots[iter.pos]);
      WroteMore(a, b, stream.Now(), done, one, ok);
      if !ok {
        WroteLess(a, stream.Now(), done + one, rest);
        return;
      }
      done := done + one;
      more := iter.Next();
      i := i + 1;
    }
    assert done + [] == done;
    return true;
  }

  // encode_basic_field
  method EncodeField(stream: OStream, f: Field, s: Slot) returns (ok: bool)
    requires FieldOk(f) && SlotOk(f, s) && |EncSlot(f, s)| < TWO_64
    requires stream.writing ==> stream.bytesWritten <= stream.maxSize
    modifies stream
    ensures Wrote(old(stream.Now()), stream.Now(), EncSlot(f, s), ok)
    decreases s
  {
    match s
    case Plain(v) =>
      if f.d.htype != REQUIRED && ZeroValue(f, v) {
        return true;
      }
      ok := EncodeTagged(stream, f, v);
    case Maybe(has, v) =>
      if !has {
        return true;
      }
      ok := EncodeTagged(stream, f, v);
    case Many(items) =>
      if items == [] {
        return true;
      }
      if Packable(f) {
        ok := EncodePacked(stream, f, items);
      } else {
        ok := EncodeUnpacked(stream, f, items);
      }
    case Choice(chosen) =>
      if chosen == None {
        return true;
      }
      ok := EncodeTagged(stream, f, chosen.value);
  }

  method EncodeTagged(stream: OStream, f: Field, v: Value) returns (ok: bool)
    requires FieldOk(f) && ValueOk(f, v) && |EncValue(f, v)| < TWO_64
    requires stream.writing ==> stream.bytesWritten <= stream.maxSize
    modifies stream
    ensures Wrote(old(stream.Now()), stream.Now(), EncTag(WireType(f), f.d.tag) + EncValue(f, v), ok)
    decreases v, 2
  {
    ghost var a, tag := stream.Now(), EncTag(WireType(f), f.d.tag);
    ok := stream.EncodeTag(WireType(f), f.d.tag);
    ghost var b := stream.Now();
    if !ok {
      WroteLess(a, b, tag, EncValue(f, v));
      return;
    }
    ok := EncodeItem(stream, f, v);
    WroteMore(a, b, stream.Now(), tag, EncValue(f, v), ok);
  }

  // The unpacked branch of encode_array
  method EncodeUnpacked(stream: OStream, f: Field, items: seq<Value>) returns (ok: bool)
    requires FieldOk(f) && AllOk(f, items) && |EncTagged(f, items)| < TWO_64
    requires stream.writing ==> stream.bytesWritten <= stream.maxSize
    modifies stream
    ensures Wrote(old(stream.Now()), stream.Now(), EncTagged(f, items), ok)
    decreases items
  {
    ghost var a, done := stream.Now(), [];
    var i := 0;
    assert items[0..] == items && [] + EncTagged(f, items) == EncTagged(f, items);
    while i < |items|
      invariant 0 <= i <= |items| && AllOk(f, items[i..]) && done + EncTagged(f, items[i..]) == EncTagged(f, items)
      invariant Wrote(a, stream.Now(), done, true)
    {
      assert items[i..][0] == items[i] && items[i..][1..] == items[i + 1..];
      ghost var b, one, rest := stream.Now(), EncTag(WireType(f), f.d.tag) + EncValue(f, items[i]), EncTagged(f, items[i + 1..]);
      ConcatAssociates(done, one, rest);
      ok := EncodeTagged(stream, f, items[i]);
      WroteMore(a, b, stream.Now(), done, one, ok);
      if !ok {
        WroteLess(a, stream.Now(), done + one, rest);
        return;
      }
      done := done + one;
      i := i + 1;
    }
    assert items[i..] == [] && done + [] == done;
    return true;
  }

  // The encoder for the type.
  method EncodeItem(stream: OStream, f: Field, v: Value) returns (ok: bool)
    requires FieldOk(f) && ValueOk(f, v) && |EncValue(f, v)| < TWO_64
    requires stream.writing ==> stream.bytesWritten <= stream.maxSize
    modifies stream
    ensures Wrote(old(stream.Now()), stream.Now(), EncValue(f, v), ok)
    decreases v, 1
  {
    if Packable(f) {
      ok := EncodeInt(stream, f, v);
    } else if f.d.ltype == SUBMESSAGE {
      var sizeChanged;
      ok, sizeChanged := EncodeSubmessage(stream, f.sub, v.slots);
    } else if f.d.ltype == STRING {
      ok := stream.EncodeString(TillNul(v.b, f.d.dataSize));
    } else {
      ok := stream.EncodeString(v.b);
    }
  }

  // pb_encode_submessage.  The second pass writes exactly what the first one counted.
  method EncodeSubmessage(stream: OStream, fs: seq<Field>, slots: seq<Slot>) returns (ok: bool, sizeChanged: bool)
    requires DescOk(fs) && SlotsOk(fs, slots) && |EncFields(fs, slots, 0)| < TWO_64
    requires stream.writing ==> stream.bytesWritten <= stream.maxSize
    modifies stream
    ensures !sizeChanged
    ensures Wrote(old(stream.Now()), stream.Now(), PutLengthPrefixed(EncFields(fs, slots, 0)), ok)
    decreases slots, 2
  {
    ghost var a, body := stream.Now(), EncFields(fs, slots, 0);
    ghost var length := Coding.EncodeVarint(|body|);
    // The length comes before the contents, so the contents are counted in a first pass.
    var substream := new OStream(false, [], 0);
    var counted := EncodeMessage(substream, fs, slots);
    var size := substream.bytesWritten;
    ok := stream.EncodeVarint(size);
    ghost var b := stream.Now();
    if !ok {
      WroteLess(a, b, length, body);
      return false, false;
    }
    if !stream.writing {
      stream.Count(size);    // Just sizing
      WroteMore(a, b, stream.Now(), length, body, true);
      return true, false;
    }
    if stream.bytesWritten + size > stream.maxSize {
      WroteMore(a, b, b, length, body, false);
      return false, false;    // the contents do not fit
    }
    substream := new OStream(true, stream.state, size);
    var status := EncodeMessage(substream, fs, slots);
    stream.bytesWritten := stream.bytesWritten + substream.bytesWritten;
    stream.state := substream.state;
    sizeChanged := substream.bytesWritten != size;
    ok := status && !sizeChanged;
    WroteMore(a, b, stream.Now(), length, body, ok);
  }

  // pb_get_encoded_size, then pb_encode into a buffer of that size: it fits exactly.
  method EncodeToBuffer(fs: seq<Field>, slots: seq<Slot>) returns (ok: bool, buffer: Bytes)
    requires DescOk(fs) && SlotsOk(fs, slots) && |EncFields(fs, slots, 0)| < TWO_64
    ensures ok && buffer == EncFields(fs, slots, 0)
  {
    var sizing := new OStream(false, [], 0);
    ok := EncodeMessage(sizing, fs, slots);
    var stream := new OStream(true, [], sizing.bytesWritten);
    ok := EncodeMessage(stream, fs, slots);
    buffer := stream.state;
  }
}
