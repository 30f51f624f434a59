/**
 The decoder (pb_decode.c): an input stream with a limited number of bytes left, its substreams, and
 the functions that take a message from it.
 */
module PbDecode {
  import opened Coding
  import opened Options
  import opened PbFields
  import opened PbVarint
  import opened PbMessage

  // The outcome of a step that spends a stream.
  predicate Took<T(==)>(r: Got<T>, ok: bool, value: T, rest: Bytes) {
    if ok then r == Got(value, rest) else r == Fail
  }

  // What pb_decode_varint32_eof has still to read, with the groups so far in result.
  ghost function Pending32(s: Bytes, bitpos: nat, weight: nat, result: nat): Varint
    requires bitpos % 7 == 0
  {
    if bitpos <= 35 then Decode32From(s, bitpos, weight, result)
    else
      var n := Upper32(s, bitpos, result >= TWO_31);
      if n == 0 then BadVarint else Varint(result, n)
  }

  ghost function Further(v: Varint, n: nat): Varint {
    match v
    case Varint(value, m) => Varint(value, m + n)
    case BadVarint => BadVarint
  }

  // A pb_istream_t over a buffer.
  class IStream {
    const buf: Bytes
    const end: nat            // what bytes_left counts down to
    var state: nat            // where it points into the buffer
    var bytesLeft: nat

    ghost predicate Valid() reads this { state + bytesLeft == end <= |buf| }

    ghost function Rest(): Bytes
      requires Valid()
      reads this
    {
      buf[state..end]
    }

    // pb_istream_from_buffer, and the copies that substreams start from
    constructor (buf: Bytes, state: nat, bytesLeft: nat)
      requires state + bytesLeft <= |buf|
      ensures Valid() && this.buf == buf && this.state == state && this.bytesLeft == bytesLeft && end == state + bytesLeft
    {
      this.buf, this.state, this.bytesLeft, end := buf, state, bytesLeft, state + bytesLeft;
    }

    // pb_read
    method Read(count: nat) returns (ok: bool, data: Bytes)
      requires Valid()
      modifies this
      ensures Valid() && ok == (count <= |old(Rest())|)
      ensures if ok then data == old(Rest())[..count] && Rest() == old(Rest())[count..] else Rest() == old(Rest())
    {
      if bytesLeft < count {
        return false, [];
      }
      data := buf[state..state + count];
      state, bytesLeft := state + count, bytesLeft - count;
      return true, data;
    }

    method ReadByte() returns (ok: bool, byte: Byte)
      requires Valid()
      modifies this
      ensures Valid() && ok == (old(Rest()) != [])
      ensures ok ==> byte == old(Rest())[0] && Rest() == old(Rest())[1..]
      ensures !ok ==> Rest() == []
    {
      if bytesLeft == 0 {
        return false, 0;
      }
      byte := buf[state];
      state, bytesLeft := state + 1, bytesLeft - 1;
      return true, byte;
    }

    // pb_decode_varint
    method DecodeVarint() returns (ok: bool, value: nat)
      requires Valid()
      modifies this
      ensures Valid() && Took(Taken(Decode64(old(Rest())), old(Rest())), ok, value, Rest())
    {
      ghost var s, n: nat := Rest(), 0;
      var bitpos: nat, weight: nat := 0, 1;
      value := 0;
      var more := true;
      assert s[0..] == s;
      ScaledStart(s);
      while more
        invariant Valid() && n <= |s| && Rest() == s[n..]
        invariant Decode64(s) == if more then Scaled(Decode64From(Rest(), bitpos), value, weight, n) else Varint(value, n)
        decreases more, |Rest()|
      {
        if bitpos >= 64 {
          return false, 0;    // more groups than 64 bits have
        }
        ok, more, value := TakeGroup(bitpos, weight, value, n);
        if !ok {
          return false, 0;
        }
        assert s[n..][1..] == s[n + 1..];
        bitpos, weight := bitpos + 7, weight * 128;
        n := n + 1;
      }
      return true, value;
    }

    // pb_decode_varint32_eof
    method DecodeVarint32() returns (ok: bool, value: nat, eof: bool)
      requires Valid()
      modifies this
      ensures Valid() && Took(Taken(Decode32(old(Rest())), old(Rest())), ok, value, Rest())
      ensures eof == (old(Rest()) == [])
    {
      ghost var s, n: nat := Rest(), 1;
      var more, last;
      ok, more, value, last := TakeGroup32(0, 1, 0, 0);
      if !ok {
        return false, 0, bytesLeft == 0;
      }
      eof := false;
      // Quick case is one byte; the others follow.
      var bitpos: nat, weight: nat := 7, 128;
      while more
        invariant Valid() && n <= |s| && Rest() == s[n..] && bitpos % 7 == 0 && bitpos >= 7
        invariant Decode32(s) == if more then Further(Pending32(Rest(), bitpos, weight, value), n)
                                 else if bitpos == 35 && last >= 16 then BadVarint else Varint(value, n)
        decreases more, |Rest()|
      {
        ok, more, value, last := TakeGroup32(bitpos, weight, value, n);
        if !ok {
          return false, 0, false;
        }
        assert s[n..][1..] == s[n + 1..];
        bitpos, weight := bitpos + 7, weight * 128;
        n := n + 1;
      }
      if bitpos == 35 && last >= 16 {
        return false, 0, false;    // a fifth byte has room for four bits
      }
      return true, value, false;
    }

    // One byte of it, after n others.
    method TakeGroup32(bitpos: nat, weight: nat, result: nat, ghost n: nat) returns (ok: bool, more: bool, result': nat, last: Byte)
      requires Valid() && bitpos % 7 == 0
      modifies this
      ensures Valid() && (ok ==> old(Rest()) != [] && Rest() == old(Rest())[1..] && more == (last >= 128))
      ensures bitpos == 0 && !ok ==> old(Rest()) == [] == Rest()
      ensures Further(Pending32(old(Rest()), bitpos, weight, result), n) ==
              if !ok then BadVarint
              else if more then Further(Pending32(Rest(), bitpos + 7, weight * 128, result'), n + 1)
              else if bitpos == 28 && last >= 16 then BadVarint
              else Varint(result', n + 1)
    {
      ok, last := ReadByte();
      if !ok {
        return false, false, 0, 0;
      }
      more, result' := last >= 128, result;
      if bitpos >= 32 {
        // Beyond 32 bits only padding may follow: zeros, or ones to extend a sign.
        var signExtension := if bitpos < 63 then 0xFF else 0x01;
        if last % 128 != 0 && (result < TWO_31 || last != signExtension) {
          return false, false, 0, 0;    // more groups than 64 bits have
        }
      } else {
        result' := (result + last % 128 * weight) % TWO_32;
      }
    }

    // One byte of pb_decode_varint, after n others.
    method TakeGroup(bitpos: nat, weight: nat, result: nat, ghost n: nat) returns (ok: bool, more: bool, result': nat)
      requires Valid() && bitpos < 64
      modifies this
      ensures Valid() && ok == (old(Rest()) != []) && (ok ==> Rest() == old(Rest())[1..])
      ensures Scaled(Decode64From(old(Rest()), bitpos), result, weight, n) ==
              if !ok then BadVarint
              else if more then Scaled(Decode64From(Rest(), bitpos + 7), result', weight * 128, n + 1)
              else Varint(result', n + 1)
    {
      ghost var s := Rest();
      var byte;
      ok, byte := ReadByte();
      if !ok {
        return false, false, 0;
      }
      ScaleStep(s, bitpos, result, weight, n);
      var bits: nat := if bitpos == 63 then byte % 2 else byte % 128;
      return true, byte >= 128, result + bits * weight;
    }
  }

  // pb_decode_tag; eof also stands for a zero, which ends a message.
  method DecodeTag(stream: IStream) returns (ok: bool, wireType: nat, tag: nat, eof: bool)
    requires stream.Valid()
    modifies stream
    ensures stream.Valid()
    ensures old(stream.Rest()) != [] ==>
              match DecTag(old(stream.Rest()))
              case Tag(t, w, rest) => ok && tag == t && wireType == w && stream.Rest() == rest
              case EndMark => !ok && eof
              case BadTag => !ok && !eof
  {
    var temp;
    ok, temp, eof := stream.DecodeVarint32();
    if !ok {
      return false, 0, 0, eof;
    }
    if temp == 0 {
      return false, 0, 0, true;
    }
    return true, temp % 8, temp / 8, false;
  }

  // A length, then as many bytes.
  method DecodeLength(stream: IStream) returns (ok: bool, size: nat)
    requires stream.Valid()
    modifies stream
    ensures stream.Valid() && Took(DecLength(old(stream.Rest())), ok, size, stream.Rest())
  {
    var eof;
    ok, size, eof := stream.DecodeVarint32();
  }

  // The part of the buffer that a substream covers is no longer counted by its parent, whose state
  // pointer only moves on when the substream is closed.
  ghost predicate Lent(stream: IStream, sub: IStream)
    reads stream
  {
    sub.buf == stream.buf && sub.end <= stream.end <= |stream.buf| && stream.bytesLeft == stream.end - sub.end
  }

  method MakeSubstream(stream: IStream) returns (ok: bool, sub: IStream)
    requires stream.Valid()
    modifies stream
    ensures ok == DecSubstream(old(stream.Rest())).Got?
    ensures ok ==> fresh(sub) && sub.Valid() && Lent(stream, sub) &&
                   DecSubstream(old(stream.Rest())) == Got(sub.Rest(), stream.buf[sub.end..stream.end])
    ensures !ok ==> stream.Valid() && sub == stream
  {
    var size;
    ok, size := DecodeLength(stream);
    if !ok {
      return false, stream;
    }
    if stream.bytesLeft < size {
      return false, stream;    // longer than what is left
    }
    ghost var rest := stream.Rest();
    sub := new IStream(stream.buf, stream.state, size);
    stream.bytesLeft := stream.bytesLeft - size;
    assert rest[..size] == sub.Rest() && rest[size..] == stream.buf[sub.end..stream.end];
  }

  method CloseSubstream(stream: IStream, sub: IStream)
    requires sub.Valid() && Lent(stream, sub) && sub != stream
    modifies stream, sub
    ensures stream.Valid() && stream.Rest() == stream.buf[sub.end..stream.end]
  {
    if sub.bytesLeft != 0 {
      var ok, data := sub.Read(sub.bytesLeft);
    }
    stream.state := sub.state;
  }

  // ---------------------------------------------------------------- skipping

  method SkipVarintBytes(stream: IStream) returns (ok: bool)
    requires stream.Valid()
    modifies stream
    ensures stream.Valid() && Took(SkipVarint(old(stream.Rest())), ok, (), stream.Rest())
  {
    var more := true;
    while more
      invariant stream.Valid()
      invariant if more then SkipVarint(stream.Rest()) == SkipVarint(old(stream.Rest()))
                else SkipVarint(old(stream.Rest())) == Got((), stream.Rest())
      decreases more, |stream.Rest()|
    {
      var byte;
      ok, byte := stream.ReadByte();
      if !ok {
        return false;
      }
      more := byte >= 128;
    }
    return true;
  }

  // pb_skip_string goes past the bytes where a substream would end.
  method SkipString(stream: IStream) returns (ok: bool)
    requires stream.Valid()
    modifies stream
    ensures stream.Valid() && ok == DecSubstream(old(stream.Rest())).Got?
    ensures ok ==> stream.Rest() == DecSubstream(old(stream.Rest())).rest
  {
    var length, data;
    ok, length := DecodeLength(stream);
    if ok {
      ok, data := stream.Read(length);
    }
  }

  method SkipFieldBytes(stream: IStream, wireType: nat) returns (ok: bool)
    requires stream.Valid()
    modifies stream
    ensures stream.Valid() && Took(SkipField(wireType, old(stream.Rest())), ok, (), stream.Rest())
  {
    var data;
    if wireType == PB_WT_VARINT {
      ok := SkipVarintBytes(stream);
    } else if wireType == PB_WT_64BIT {
      ok, data := stream.Read(8);
    } else if wireType == PB_WT_STRING {
      ok := SkipString(stream);
    } else if wireType == PB_WT_32BIT {
      ok, data := stream.Read(4);
    } else {
      ok := false;    // no such wire type
    }
  }

  // ---------------------------------------------------------------- values

  // pb_dec_varint to pb_dec_fixed64
  method DecodeInt(stream: IStream, f: Field) returns (ok: bool, v: int)
    requires stream.Valid() && Packable(f)
    modifies stream
    ensures stream.Valid() && Took(DecInt(f, old(stream.Rest())), ok, v, stream.Rest())
  {
    if f.d.ltype == FIXED32 || f.d.ltype == FIXED64 {
      var data;
      ok, data := stream.Read(if f.d.ltype == FIXED32 then 4 else 8);
      return ok, if ok then DecodeFixed(data) else 0;
    }
    var value;
    ok, value := stream.DecodeVarint();
    if !ok {
      return false, 0;
    }
    if f.d.ltype == VARINT {
      // Smaller fields take their sign from bit 31.
      v := if f.d.dataSize == 8 then Signed(value, TWO_63) else Signed(value, TWO_31);
      ok := SignedRange(v, f.d.dataSize);
    } else if f.d.ltype == UVARINT {
      v := value;
      ok := UnsignedRange(v, f.d.dataSize);
    } else {
      v := UnZigZag(value);
      ok := SignedRange(v, f.d.dataSize);
    }
  }

  // pb_dec_bytes, pb_dec_string and pb_dec_fixed_length_bytes
  method DecodeData(stream: IStream, f: Field) returns (ok: bool, b: Bytes)
    requires stream.Valid()
    modifies stream
    ensures stream.Valid() && Took(DecData(f, old(stream.Rest())), ok, b, stream.Rest())
  {
    var size;
    ok, size := DecodeLength(stream);
    if !ok {
      return false, [];
    }
    if f.d.ltype == BYTES || f.d.ltype == STRING {
      var overhead := if f.d.ltype == BYTES then BYTES_OVERHEAD else 1;
      if size + overhead > f.d.dataSize {
        return false, [];    // no room for it
      }
    } else {
      if size == 0 {
        return true, ZeroBytes(f.d.dataSize);
      }
      if size != f.d.dataSize {
        return false, [];
      }
    }
    ok, b := stream.Read(size);
  }

  // The loop over a packed array.
  method DecodePacked(sub: IStream, f: Field, items: seq<Value>) returns (ok: bool, items': seq<Value>)
    requires sub.Valid() && Packable(f)
    modifies sub
    ensures sub.Valid() && DecPacked(f, items, old(sub.Rest())) == if ok then Some(items') else None
  {
    items' := items;
    while sub.bytesLeft > 0 && |items'| < f.d.arraySize
      invariant sub.Valid() && DecPacked(f, items, old(sub.Rest())) == DecPacked(f, items', sub.Rest())
      decreases sub.bytesLeft
    {
      var v;
      ok, v := DecodeInt(sub, f);
      if !ok {
        return false, [];
      }
      items' := items' + [Int(v)];
    }
    return sub.bytesLeft == 0, items';    // bytes left over do not fit the array
  }

  method DecodePackedField(stream: IStream, f: Field, items: seq<Value>) returns (ok: bool, slot: Slot)
    requires stream.Valid() && Packable(f)
    modifies stream
    ensures stream.Valid() && Took(DecPackedField(f, items, old(stream.Rest())), ok, slot, stream.Rest())
  {
    var sub, items';
    ok, sub := MakeSubstream(stream);
    if !ok {
      return false, Many([]);
    }
    ok, items' := DecodePacked(sub, f, items);
    CloseSubstream(stream, sub);
    return ok, Many(items');
  }

  // The decoder for the type.  A submessage is decoded on top of what is there.
  method DecodeValue(stream: IStream, f: Field, current: Value) returns (ok: bool, v: Value)
    requires stream.Valid() && FieldOk(f)
    modifies stream
    ensures stream.Valid() && Took(DecValue(f, current, old(stream.Rest())), ok, v, stream.Rest())
    decreases stream.bytesLeft, 0
  {
    if Packable(f) {
      var i;
      ok, i := DecodeInt(stream, f);
      return ok, Int(i);
    }
    if f.d.ltype != SUBMESSAGE {
      var b;
      ok, b := DecodeData(stream, f);
      return ok, Data(b);
    }
    var sub, slots;
    ok, sub := MakeSubstream(stream);
    if !ok {
      return false, Int(0);
    }
    slots := if current.Msg? && |current.slots| == |f.sub| then current.slots else Defaults(f.sub);
    ok, slots := DecodeNoinit(sub, f.sub, slots);
    CloseSubstream(stream, sub);
    return ok, Msg(slots);
  }

  // decode_static_field
  method DecodeField(stream: IStream, f: Field, slot: Slot, wireType: nat) returns (ok: bool, slot': Slot)
    requires stream.Valid() && FieldOk(f)
    modifies stream
    ensures stream.Valid() && Took(DecField(f, slot, wireType, old(stream.Rest())), ok, slot', stream.Rest())
    decreases stream.bytesLeft, 1
  {
    slot' := slot;
    var v;
    match f.d.htype
    case REQUIRED =>
      ok, v := DecodeValue(stream, f, if slot.Plain? then slot.v else Default(f));
      slot' := Plain(v);
    case OPTIONAL =>
      if HasFlag(f) {
        ok, v := DecodeValue(stream, f, if slot.Maybe? then slot.v else Default(f));
        slot' := Maybe(true, v);
      } else {
        ok, v := DecodeValue(stream, f, if slot.Plain? then slot.v else Default(f));
        slot' := Plain(v);
      }
    case REPEATED =>
      var items := if slot.Many? then slot.items else [];
      if wireType == PB_WT_STRING && Packable(f) {
        ok, slot' := DecodePackedField(stream, f, items);
      } else if |items| >= f.d.arraySize {
        ok := false;    // no room for one more
      } else {
        // A new array entry starts from the defaults.
        ok, v := DecodeValue(stream, f, Default(f));
        slot' := Many(items + [v]);
      }
    case ONEOF =>
      // So does a submessage in a union.
      ok, v := DecodeValue(stream, f, Default(f));
      slot' := Choice(Some(v));
  }

  // ---------------------------------------------------------------- messages

  lemma {:induction false} FoundIsFirst(fs: seq<Field>, tag: nat, i: nat, from: nat)
    requires DescOk(fs) && from <= i <= |fs|
    requires i < |fs| ==> HasTag(Descs(fs), tag, i)
    requires i == |fs| ==> forall j :: 0 <= j < |fs| ==> !HasTag(Descs(fs), tag, j)
    ensures FindTag(fs, tag, from) == i
    decreases |fs| - from
  {
    if from < i {
      assert i < |fs| ==> fs[from].d.tag != fs[i].d.tag;
      assert i == |fs| ==> !HasTag(Descs(fs), tag, from);
      FoundIsFirst(fs, tag, i, from + 1);
    }
  }

  // The bitmap holds the required fields seen.
  ghost predicate BitsAre(fs: seq<Field>, bits: seq<bool>, seen: set<nat>) {
    |bits| == PB_MAX_REQUIRED_FIELDS &&
    (forall k :: 0 <= k < |bits| ==> bits[k] == (k in seen)) &&
    (forall k :: k in seen ==> k < RequiredIndex(Descs(fs), |fs|))
  }

  lemma MarkSets(fs: seq<Field>, bits: seq<bool>, seen: set<nat>, i: nat)
    requires BitsAre(fs, bits, seen) && i < |fs|
    ensures var k := RequiredIndex(Descs(fs), i);
            BitsAre(fs, if fs[i].d.htype == REQUIRED && k < PB_MAX_REQUIRED_FIELDS then bits[k := true] else bits, Mark(fs, seen, i))
  {
    RequiredIndexGrows(Descs(fs), i, |fs|);
  }

  // pb_decode_noinit
  method DecodeNoinit(stream: IStream, fs: seq<Field>, slots: seq<Slot>) returns (ok: bool, slots': seq<Slot>)
    requires stream.Valid() && DescOk(fs) && |slots| == |fs|
    modifies stream
    ensures stream.Valid() && DecMsg(fs, slots, old(stream.Rest())) == if ok then Some(slots') else None
    decreases stream.bytesLeft, 3
  {
    slots' := slots;
    TagsAreOk(fs);
    var iter := new FieldIter(Descs(fs), 0);
    var words := [0, 0];
    ghost var seen: set<nat>, bits := {}, seq(PB_MAX_REQUIRED_FIELDS, k => false);
    NoBits(bits);
    var turn := More;
    while stream.bytesLeft > 0 && turn == More
      invariant stream.Valid() && iter.Valid() && fresh(iter) && iter.fields == Descs(fs) && |slots'| == |fs|
      invariant WordsHold(words, bits) && BitsAre(fs, bits, seen) && turn != Failed
      invariant DecLoop(fs, slots, {}, old(stream.Rest())) ==
                if turn == Finished then Decoded(slots', seen) else DecLoop(fs, slots', seen, stream.Rest())
      invariant turn == More ==> stream.bytesLeft <= old(stream.bytesLeft)
      decreases turn == More, stream.bytesLeft
    {
      turn, slots', words, seen, bits := DecodeOne(stream, iter, fs, slots', words, seen, bits);
      if turn == Failed {
        return false, slots';
      }
    }
    ok := AllRequiredSeen(iter, words, bits);
  }

  // How a turn of its loop ends.
  datatype Turn = More | Finished | Failed

  method DecodeOne(stream: IStream, iter: FieldIter, fs: seq<Field>, slots: seq<Slot>, words: seq<nat>, ghost seen: set<nat>, ghost bits: seq<bool>)
    returns (turn: Turn, slots': seq<Slot>, words': seq<nat>, ghost seen': set<nat>, ghost bits': seq<bool>)
    requires stream.Valid() && stream.bytesLeft > 0 && iter.Valid() && iter.fields == Descs(fs)
    requires DescOk(fs) && |slots| == |fs| && WordsHold(words, bits) && BitsAre(fs, bits, seen)
    modifies stream, iter
    ensures stream.Valid() && iter.Valid() && |slots'| == |fs| && WordsHold(words', bits') && BitsAre(fs, bits', seen')
    ensures turn == More ==> stream.bytesLeft < old(stream.bytesLeft)
    ensures DecLoop(fs, slots, seen, old(stream.Rest())) ==
            match turn
            case More => DecLoop(fs, slots', seen', stream.Rest())
            case Finished => Decoded(slots', seen')
            case Failed => Bad
    decreases stream.bytesLeft, 2
  {
    slots', words', seen', bits' := slots, words, seen, bits;
    var ok, wireType, tag, eof := DecodeTag(stream);
    if !ok {
      return if eof then Finished else Failed, slots', words', seen', bits';
    }
    var found := iter.Find(tag);
    if !found {
      FoundIsFirst(fs, tag, |fs|, 0);
      ok := SkipFieldBytes(stream, wireType);
      return if ok then More else Failed, slots', words', seen', bits';
    }
    if fs == [] {
      return Failed, slots', words', seen', bits';    // no decoder takes the terminator
    }
    FoundIsFirst(fs, tag, iter.pos, 0);
    words', bits' := MarkRequired(fs, iter, words, seen, bits);
    seen' := Mark(fs, seen, iter.pos);
    var f, slot := fs[iter.pos], slots[iter.pos];
    assert FieldOk(f);
    ok, slot := DecodeField(stream, f, slot, wireType);
    slots' := Store(fs, slots, iter.pos, slot);
    return if ok then More else Failed, slots', words', seen', bits';
  }

  method MarkRequired(fs: seq<Field>, iter: FieldIter, words: seq<nat>, ghost seen: set<nat>, ghost bits: seq<bool>)
    returns (words': seq<nat>, ghost bits': seq<bool>)
    requires iter.Valid() && iter.fields == Descs(fs) && iter.pos < |fs| && WordsHold(words, bits) && BitsAre(fs, bits, seen)
    ensures WordsHold(words', bits') && BitsAre(fs, bits', Mark(fs, seen, iter.pos))
  {
    MarkSets(fs, bits, seen, iter.pos);
    words', bits' := words, bits;
    if fs[iter.pos].d.htype == REQUIRED && iter.requiredFieldIndex < PB_MAX_REQUIRED_FIELDS {
      words' := MarkSeen(words, iter.requiredFieldIndex, bits);
      bits' := bits[iter.requiredFieldIndex := true];
    }
  }

  lemma NoBits(bits: seq<bool>)
    requires |bits| == PB_MAX_REQUIRED_FIELDS && forall k :: 0 <= k < |bits| ==> !bits[k]
    ensures WordsHold([0, 0], bits)
  {
    LowBits(bits[..32], 0);
    LowBits(bits[32..], 0);
  }

  // pb_decode
  method Decode(stream: IStream, fs: seq<Field>) returns (ok: bool, slots: seq<Slot>)
    requires stream.Valid() && DescOk(fs)
    modifies stream
    ensures stream.Valid() && DecMsg(fs, Defaults(fs), old(stream.Rest())) == if ok then Some(slots) else None
  {
    ok, slots := DecodeNoinit(stream, fs, Defaults(fs));
  }

  lemma ScaledStart(s: Bytes)
    ensures Scaled(Decode64From(s, 0), 0, 1, 0) == Decode64(s)
  {
  }

  function Taken(v: Varint, s: Bytes): Got<nat>
    requires v.Varint? ==> v.length <= |s|
  {
    match v
    case Varint(value, n) => Got(value, s[n..])
    case BadVarint => Fail
  }

  // A varint after n groups that add up to value.
  ghost function Scaled(v: Varint, value: nat, weight: nat, n: nat): Varint {
    match v
    case Varint(high, m) => Varint(value + weight * high, m + n)
    case BadVarint => BadVarint
  }

  lemma ScaleStep(s: Bytes, bitpos: nat, value: nat, weight: nat, n: nat)
    requires bitpos < 64 && s != []
    ensures var bits: nat := if bitpos == 63 then s[0] % 2 else s[0] % 128;
            Scaled(Decode64From(s, bitpos), value, weight, n) ==
            if s[0] < 128 then Varint(value + bits * weight, n + 1)
            else Scaled(Decode64From(s[1..], bitpos + 7), value + bits * weight, weight * 128, n + 1)
  {
    var bits: nat := if bitpos == 63 then s[0] % 2 else s[0] % 128;
    match Decode64From(s[1..], bitpos + 7)
    case Varint(high, m) => assert weight * (bits + 128 * high) == bits * weight + (weight * 128) * high;
    case BadVarint =>
  }
}
