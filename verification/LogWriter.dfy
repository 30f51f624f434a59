/**
 log::Writer (log_writer.cc).
 */
module LogWriter {
  import opened Coding
  import opened LogFormat

  class Writer {
    const crc: Crc
    var dest: Bytes           // the file
    var blockOffset: nat      // block_offset_

    ghost predicate Valid() reads this {
      blockOffset <= kBlockSize && blockOffset % kBlockSize == |dest| % kBlockSize
    }

    // Also reopens a file that already has contents.
    constructor (crc: Crc, contents: Bytes)
      ensures Valid() && this.crc == crc && dest == contents
    {
      this.crc, dest, blockOffset := crc, contents, |contents| % kBlockSize;
    }

    method AddRecord(slice: Bytes)
      requires Valid()
      modifies this
      ensures Valid() && dest == old(dest) + Layout(crc, |old(dest)|, slice, true)
    {
      var ptr, begin, done := slice, true, false;
      ghost var whole := dest + Layout(crc, |dest|, slice, true);
      while !done
        invariant Valid()
        invariant whole == dest + if done then [] else Layout(crc, |dest|, ptr, begin)
        decreases !done, |ptr|, Rank(|dest|)
      {
        AfterRank(|dest|, ptr);
        LayoutStep(crc, dest, |dest|, ptr, begin);
        var n := AddFragment(ptr, begin);
        done := n == |ptr|;
        ptr := ptr[n..];
        begin := false;
      }
    }

    // One turn of the loop: switch blocks if needed, and emit as much as fits.
    method AddFragment(ptr: Bytes, begin: bool) returns (n: nat)
      requires Valid()
      modifies this
      ensures Valid() && n == Take(|old(dest)|, ptr) && |dest| == After(|old(dest)|, ptr)
      ensures dest == old(dest) + FragmentBytes(crc, |old(dest)|, ptr, begin)
    {
      SwitchBlock();
      var avail := kBlockSize - blockOffset - kHeaderSize;
      n := if |ptr| < avail then |ptr| else avail;
      var end := |ptr| == n;
      EmitPhysicalRecord(Kind(begin, end), ptr[..n]);
    }

    // Where no header fits, zeros take the position to the next block.
    method SwitchBlock()
      requires Valid()
      modifies this
      ensures Valid() && blockOffset + kHeaderSize <= kBlockSize && kBlockSize - blockOffset == Left(|dest|)
      ensures |dest| == HeaderAt(|old(dest)|) && dest == old(dest) + Zeros(|dest| - |old(dest)|)
    {
      var leftover := kBlockSize - blockOffset;
      TrailerThenHeader(|dest|, leftover);
      if leftover < kHeaderSize {
        LeftAfter(|dest|, leftover);
        dest := dest + Zeros(leftover);
        blockOffset := 0;
      }
    }

    // leftover counts a block that is exactly full as 0, Left as a new one.
    lemma TrailerThenHeader(pos: nat, leftover: nat)
      requires leftover <= kBlockSize && (kBlockSize - leftover) % kBlockSize == pos % kBlockSize
      ensures HeaderAt(pos) == if leftover < kHeaderSize then pos + leftover else pos
      ensures Left(HeaderAt(pos)) == if leftover < kHeaderSize then kBlockSize else leftover
    {
    }

    method EmitPhysicalRecord(kind: Byte, data: Bytes)
      requires Valid() && blockOffset + kHeaderSize + |data| <= kBlockSize
      modifies this
      ensures Valid() && dest == old(dest) + Physical(crc, kind, data)
    {
      // Format the header, then write it and the payload.
      var header := Checksum(crc, kind, data) + [|data| % 256, |data| / 256, kind];
      dest := dest + header;
      dest := dest + data;
      blockOffset := blockOffset + kHeaderSize + |data|;
      assert dest == old(dest) + Physical(crc, kind, data);
    }
  }

  lemma WriteStep(crc: Crc, dest: Bytes, records: seq<Bytes>, i: nat)
    requires i < |records|
    ensures var dest' := dest + Layout(crc, |dest|, records[i], true);
            dest + LogFrom(crc, |dest|, records[i..]) == dest' + LogFrom(crc, |dest'|, records[i + 1..])
  {
    LayoutLength(crc, |dest|, records[i], true);
    assert records[i..][0] == records[i] && records[i..][1..] == records[i + 1..];
    LogStep(crc, dest, |dest|, records[i..]);
  }

  // Records added one after the other, with the writer closed and reopened at the current length
  // after any of them, make the same file.
  method WriteAll(crc: Crc, records: seq<Bytes>, reopen: seq<bool>) returns (file: Bytes)
    requires |reopen| == |records|
    ensures file == LogFrom(crc, 0, records)
  {
    var w := new Writer(crc, []);
    var i := 0;
    while i < |records|
      invariant 0 <= i <= |records| && w.Valid() && w.crc == crc && fresh(w)
      invariant LogFrom(crc, 0, records) == w.dest + LogFrom(crc, |w.dest|, records[i..])
    {
      WriteStep(crc, w.dest, records, i);
      w.AddRecord(records[i]);
      if reopen[i] {
        w := new Writer(crc, w.dest);
      }
      i := i + 1;
    }
    file := w.dest;
  }
}
