/**
 Encoder and decoder together.
 */
module PbCodec {
  import opened PbMessage
  import opened PbVarint
  import opened PbEncode
  import opened PbDecode
  import opened PbRoundTrip
  import opened PbZero

  // Encoding into a buffer of the computed size and decoding from it gives the message back, up to
  // fields that were not written; exactly, if and only if nothing in it is masked, as when all defaults are
  // zero or empty.
  method EncodeThenDecode(fs: seq<Field>, m: seq<Slot>) returns (ok: bool, m': seq<Slot>)
    requires DescOk(fs) && SlotsOk(fs, m) && |EncFields(fs, m, 0)| < TWO_32
    ensures ok && m' == RestoredSlots(fs, m) && (m' == m <==> Settled(fs, m))
    ensures ZeroInits(fs) && AbsentDefaults(fs, m) ==> m' == m
  {
    var encoded, buffer := EncodeToBuffer(fs, m);
    var stream := new IStream(buffer, 0, |buffer|);
    assert stream.Rest() == buffer;
    MessageRoundTrip(fs, m);
    RestoredExactly(fs, m);
    if ZeroInits(fs) && AbsentDefaults(fs, m) { NothingMasked(fs, m); }
    ok, m' := Decode(stream, fs);
  }
}
