/**
 The log file format (log_format.h, log_writer.cc): records cut into fragments that never cross a
 block boundary, each behind a header of checksum, length and type.
 */
module LogFormat {
  import opened Coding

  const kBlockSize := 32768
  const kHeaderSize := 7

  const kZeroType := 0
  const kFullType := 1
  const kFirstType := 2
  const kMiddleType := 3
  const kLastType := 4
  // What ReadPhysicalRecord returns besides the types above.
  const kEof := 5
  const kBadRecord := 6

  // crc32c::Value, masked and stored in four bytes, which is not part of this model.
  type Stored = s: Bytes | |s| == 4 witness [0, 0, 0, 0]
  type Crc = Bytes -> Stored

  // The stored checksum of type and payload.
  function Checksum(crc: Crc, kind: Byte, data: Bytes): (s: Bytes)
    ensures |s| == 4
  {
    crc([kind] + data)
  }

  predicate FitsHeader(data: Bytes) { |data| <= kBlockSize - kHeaderSize }

  function Physical(crc: Crc, kind: Byte, data: Bytes): (s: Bytes)
    requires FitsHeader(data)
    ensures |s| == kHeaderSize + |data|
  {
    Checksum(crc, kind, data) + [|data| % 256, |data| / 256, kind] + data
  }

  // Bytes left in the block that holds pos; a whole block at a boundary.
  function Left(pos: nat): (n: nat)
    ensures 0 < n <= kBlockSize
  {
    kBlockSize - pos % kBlockSize
  }

  lemma LeftAfter(pos: nat, n: nat)
    requires n <= Left(pos)
    ensures n < Left(pos) ==> Left(pos + n) == Left(pos) - n
    ensures n == Left(pos) ==> Left(pos + n) == kBlockSize
    ensures (pos + Left(pos)) % kBlockSize == 0
  {
    var q, r := pos / kBlockSize, pos % kBlockSize;
    assert pos == q * kBlockSize + r;
    if n < Left(pos) {
      assert pos + n == q * kBlockSize + (r + n);
    }
    assert pos + Left(pos) == (q + 1) * kBlockSize;
  }

  // Where the header of a fragment written at pos goes: past a trailer too short for one.
  function HeaderAt(pos: nat): (at: nat)
    ensures pos <= at && Left(at) >= kHeaderSize
    ensures Left(pos) >= kHeaderSize ==> at == pos
    ensures Left(pos) < kHeaderSize ==> at == pos + Left(pos) && Left(at) == kBlockSize
  {
    if Left(pos) < kHeaderSize then LeftAfter(pos, Left(pos)); pos + Left(pos) else pos
  }

  function Kind(begin: bool, end: bool): Byte {
    if begin && end then kFullType else if begin then kFirstType else if end then kLastType else kMiddleType
  }

  // Payload bytes of the next fragment.
  function Take(pos: nat, data: Bytes): (n: nat)
    ensures n <= |data| && n <= Left(HeaderAt(pos)) - kHeaderSize
    ensures n < |data| ==> n == Left(HeaderAt(pos)) - kHeaderSize
  {
    var avail := Left(HeaderAt(pos)) - kHeaderSize;
    if |data| < avail then |data| else avail
  }

  function After(pos: nat, data: Bytes): nat {
    HeaderAt(pos) + kHeaderSize + Take(pos, data)
  }

  // A fragment that takes nothing can only be at the very end of a block.
  function Rank(pos: nat): nat {
    if Left(pos) == kHeaderSize then 1 else 0
  }

  lemma AfterRank(pos: nat, data: Bytes)
    ensures Take(pos, data) == 0 < |data| ==> Rank(pos) == 1 && Rank(After(pos, data)) == 0
  {
    LeftAfter(HeaderAt(pos), kHeaderSize);
  }

  function Zeros(n: nat): (s: Bytes)
    ensures |s| == n
  {
    if n == 0 then [] else Zeros(n - 1) + [0]
  }

  // One fragment, behind the trailer it may need.
  function FragmentBytes(crc: Crc, pos: nat, data: Bytes, begin: bool): (s: Bytes)
    ensures |s| == After(pos, data) - pos
  {
    var n := Take(pos, data);
    Zeros(HeaderAt(pos) - pos) + Physical(crc, Kind(begin, n == |data|), data[..n])
  }

  // The bytes AddRecord appends at pos for the rest of a record.
  function Layout(crc: Crc, pos: nat, data: Bytes, begin: bool): Bytes
    decreases |data|, Rank(pos)
  {
    var n := Take(pos, data);
    AfterRank(pos, data);
    FragmentBytes(crc, pos, data, begin) + if n == |data| then [] else Layout(crc, After(pos, data), data[n..], false)
  }

  function LayoutRest(crc: Crc, pos: nat, data: Bytes): Bytes {
    var n := Take(pos, data);
    if n == |data| then [] else Layout(crc, After(pos, data), data[n..], false)
  }

  lemma LayoutStep(crc: Crc, before: Bytes, pos: nat, data: Bytes, begin: bool)
    ensures before + Layout(crc, pos, data, begin) == (before + FragmentBytes(crc, pos, data, begin)) + LayoutRest(crc, pos, data)
  {
    ConcatAssociates(before, FragmentBytes(crc, pos, data, begin), LayoutRest(crc, pos, data));
  }

  // Where the record ends.
  function RecordEnd(pos: nat, data: Bytes): (e: nat)
    ensures e >= pos + kHeaderSize
    decreases |data|, Rank(pos)
  {
    var n := Take(pos, data);
    if n == |data| then After(pos, data)
    else
      AfterRank(pos, data);
      RecordEnd(After(pos, data), data[n..])
  }

  lemma {:induction false} LayoutLength(crc: Crc, pos: nat, data: Bytes, begin: bool)
    ensures pos + |Layout(crc, pos, data, begin)| == RecordEnd(pos, data)
    decreases |data|, Rank(pos)
  {
    var n := Take(pos, data);
    if n < |data| {
      AfterRank(pos, data);
      LayoutLength(crc, After(pos, data), data[n..], false);
    }
  }

  // A log file holding the records, from position pos on.
  function LogFrom(crc: Crc, pos: nat, records: seq<Bytes>): Bytes
    decreases |records|
  {
    if records == [] then []
    else Layout(crc, pos, records[0], true) + LogFrom(crc, RecordEnd(pos, records[0]), records[1..])
  }

  lemma LogStep(crc: Crc, before: Bytes, pos: nat, records: seq<Bytes>)
    requires records != []
    ensures before + LogFrom(crc, pos, records) ==
            (before + Layout(crc, pos, records[0], true)) + LogFrom(crc, RecordEnd(pos, records[0]), records[1..])
  {
    ConcatAssociates(before, Layout(crc, pos, records[0], true), LogFrom(crc, RecordEnd(pos, records[0]), records[1..]));
  }
}
