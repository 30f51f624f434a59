/**
 log::Reader (log_reader.cc).  The functions say what the reader makes of a file in terms of
 positions; the class reads block by block into a buffer and is proved to do just that.
 */
module LogReader {
  import opened Coding
  import opened LogFormat
  import opened Options

  // What a reader is set up with.
  datatype Source = Source(crc: Crc, checksum: bool, file: Bytes, initialOffset: nat)

  // One physical record: its type or kEof or kBadRecord, the payload, where reading goes on, and
  // the number of bytes given to ReportCorruption, if any.
  datatype Phys = Phys(kind: int, data: Bytes, next: nat, dropped: Option<nat>)

  function BlockEnd(p: nat): nat { p + Left(p) }

  predicate BlockComplete(file: Bytes, p: nat) { BlockEnd(p) <= |file| }

  // What can be read of the block holding p, from p on.
  function Window(file: Bytes, p: nat): (s: Bytes)
    ensures p < |file| ==> |s| == if BlockComplete(file, p) then Left(p) else |file| - p
  {
    if |file| <= p then [] else if BlockComplete(file, p) then file[p..BlockEnd(p)] else file[p..]
  }

  lemma WindowTail(file: Bytes, p: nat, k: nat)
    requires k < |Window(file, p)|
    ensures Window(file, p)[k..] == Window(file, p + k) && BlockComplete(file, p + k) == BlockComplete(file, p)
  {
    LeftAfter(p, k);
  }

  // What a Read of a block at a block boundary gives.
  lemma BlockWindow(file: Bytes, p: nat, n: nat)
    requires p % kBlockSize == 0
    requires n == if |file| <= p then 0 else if |file| - p < kBlockSize then |file| - p else kBlockSize
    ensures Window(file, p) == (if n == 0 then [] else file[p..p + n]) && BlockComplete(file, p) == (n == kBlockSize)
  {
  }

  function Remaining(file: Bytes, p: nat): nat {
    if p <= |file| then |file| - p else 0
  }

  function ReadPhys(src: Source, p: nat): (r: Phys)
    ensures r.kind == kEof || p < r.next <= |src.file|
    ensures r.kind == kEof || r.kind == kBadRecord || r.next >= src.initialOffset + kHeaderSize + |r.data|
    decreases Remaining(src.file, p)
  {
    var buffer := Window(src.file, p);
    if |buffer| < kHeaderSize then
      if BlockComplete(src.file, p) then ReadPhys(src, BlockEnd(p)) else Phys(kEof, [], p + |buffer|, None)
    else
      ParseBuffer(src, p, buffer, BlockComplete(src.file, p))
  }

  // The header and payload at position p, with the rest of its block in the buffer.
  function ParseBuffer(src: Source, p: nat, buffer: Bytes, complete: bool): (r: Phys)
    requires |buffer| >= kHeaderSize
    ensures r.kind == kEof || p < r.next <= p + |buffer|
    ensures r.kind == kEof || r.kind == kBadRecord || r.next >= src.initialOffset + kHeaderSize + |r.data|
  {
    var stop := p + |buffer|;
    var length, kind := Length(buffer), buffer[6];
    if kHeaderSize + length > |buffer| then
      if complete then Phys(kBadRecord, [], stop, Some(|buffer|)) else Phys(kEof, [], stop, None)
    else if kind == kZeroType && length == 0 then
      // Zeros, where a file was allocated but not written.
      Phys(kBadRecord, [], stop, None)
    else
      var data := buffer[kHeaderSize..kHeaderSize + length];
      if src.checksum && buffer[..4] != Checksum(src.crc, kind, data) then
        Phys(kBadRecord, [], stop, Some(|buffer|))
      else if p < src.initialOffset then
        Phys(kBadRecord, [], p + kHeaderSize + length, None)
      else
        Phys(kind, data, p + kHeaderSize + length, None)
  }

  function Length(header: Bytes): nat
    requires |header| >= kHeaderSize
  {
    var low: int, high: int := header[4], header[5];
    low + high * 256
  }

  // ReportDrop passes on drops that lie at or after the initial offset (in 64-bit arithmetic).
  function Report(src: Source, pos: nat, bytes: nat): seq<nat> {
    if pos < bytes || pos - bytes >= src.initialOffset then [bytes] else []
  }

  function PhysReport(src: Source, ph: Phys): seq<nat> {
    if ph.dropped.Some? then Report(src, ph.next, ph.dropped.value) else []
  }

  datatype Result = Result(found: bool, record: Bytes, offset: nat, next: nat, reports: seq<nat>)

  function AddReports(reports: seq<nat>, r: Result): Result {
    r.(reports := reports + r.reports)
  }

  // What one fragment does to a ReadRecord under way.
  datatype Turn =
    | Done(found: bool, record: Bytes, offset: nat, said: seq<nat>)
    | More(resyncing: bool, inFragmented: bool, scratch: Bytes, offset: nat, said: seq<nat>)

  function Dispatch(src: Source, kind: int, data: Bytes, next: nat,
                    resyncing: bool, inFragmented: bool, scratch: Bytes, offset: nat): (t: Turn)
    requires kind == kEof || kind == kBadRecord || next >= src.initialOffset + kHeaderSize + |data|
    requires inFragmented ==> offset >= src.initialOffset
    ensures (t.More? && t.inFragmented) || (t.Done? && t.found) ==> t.offset >= src.initialOffset
    ensures kind == kEof <==> t == Done(false, [], 0, [])
  {
    if resyncing && kind == kMiddleType then More(true, inFragmented, scratch, offset, [])
    else if resyncing && kind == kLastType then More(false, inFragmented, scratch, offset, [])
    else if kind == kEof then Done(false, [], 0, [])
    else if kind == kBadRecord then
      if inFragmented then More(false, false, [], offset, Report(src, next, |scratch|)) else More(false, false, scratch, offset, [])
    else
      var at := next - kHeaderSize - |data|;
      var partial := if inFragmented && scratch != [] then Report(src, next, |scratch|) else [];
      if kind == kFullType then Done(true, data, at, partial)
      else if kind == kFirstType then More(false, true, data, at, partial)
      else if kind == kMiddleType then
        if inFragmented then More(false, true, scratch + data, offset, [])
        else More(false, false, scratch, offset, Report(src, next, |data|))
      else if kind == kLastType then
        if inFragmented then Done(true, scratch + data, offset, [])
        else More(false, false, scratch, offset, Report(src, next, |data|))
      else
        // A type that no writer uses.
        More(false, false, [], offset, Report(src, next, |data| + if inFragmented then |scratch| else 0))
  }

  // ReadRecord from position p, with what the loop carries from turn to turn.
  function ReadRec(src: Source, p: nat, resyncing: bool, inFragmented: bool, scratch: Bytes, offset: nat): (r: Result)
    requires inFragmented ==> offset >= src.initialOffset
    ensures r.found ==> p < r.next <= |src.file| && r.offset >= src.initialOffset
    decreases Remaining(src.file, p)
  {
    var ph := ReadPhys(src, p);
    match Dispatch(src, ph.kind, ph.data, ph.next, resyncing, inFragmented, scratch, offset)
    case Done(found, record, offset, said) => Result(found, record, offset, ph.next, PhysReport(src, ph) + said)
    case More(resyncing, inFragmented, scratch, offset, said) =>
      AddReports(PhysReport(src, ph) + said, ReadRec(src, ph.next, resyncing, inFragmented, scratch, offset))
  }

  // All records from p on with their LastRecordOffset, and all reports.
  datatype Reading = Reading(records: seq<(Bytes, nat)>, reports: seq<nat>)

  function ReadAll(src: Source, p: nat, resyncing: bool): Reading
    decreases Remaining(src.file, p)
  {
    var r := ReadRec(src, p, resyncing, false, [], 0);
    if r.found then
      var rest := ReadAll(src, r.next, false);
      Reading([(r.record, r.offset)] + rest.records, r.reports + rest.reports)
    else Reading([], r.reports)
  }

  // The same outcome, and the same reports in all.
  predicate SameRead(said: seq<nat>, r: Result, said': seq<nat>, r': Result) {
    r.(reports := []) == r'.(reports := []) && said + r.reports == said' + r'.reports
  }

  lemma ReportsChain(a: seq<nat>, b: seq<nat>, c: seq<nat>, d: seq<nat>)
    ensures a + (b + c + d) == ((a + b) + c) + d
  {
  }

  // Where ReadRec stands after one turn.
  ghost function AfterTurn(src: Source, p: nat, t: Turn): Result
    requires t.More? && t.inFragmented ==> t.offset >= src.initialOffset
  {
    if t.Done? then Result(t.found, t.record, t.offset, p, [])
    else ReadRec(src, p, t.resyncing, t.inFragmented, t.scratch, t.offset)
  }

  lemma TurnRead(src: Source, p: nat, resyncing: bool, inFragmented: bool, scratch: Bytes, offset: nat, told: seq<nat>, ph: Phys, t: Turn)
    requires inFragmented ==> offset >= src.initialOffset
    requires ph == ReadPhys(src, p) && t == Dispatch(src, ph.kind, ph.data, ph.next, resyncing, inFragmented, scratch, offset)
    ensures SameRead(told, ReadRec(src, p, resyncing, inFragmented, scratch, offset), (told + PhysReport(src, ph)) + t.said, AfterTurn(src, ph.next, t))
    ensures t.More? ==> Remaining(src.file, ph.next) < Remaining(src.file, p)
  {
    ReportsChain(told, PhysReport(src, ph), t.said, AfterTurn(src, ph.next, t).reports);
  }

  // SkipToInitialBlock: the first block that can hold the initial record.
  function SkipTo(initialOffset: nat): nat {
    var inBlock := initialOffset % kBlockSize;
    initialOffset - inBlock + if inBlock > kBlockSize - 6 then kBlockSize else 0
  }

  class Reader {
    const src: Source
    var filePos: nat              // the sequential file's position
    var buffer: Bytes
    var eof: bool
    var lastRecordOffset: nat
    var endOfBufferOffset: nat
    var resyncing: bool
    var reports: seq<nat>         // what reporter_->Corruption was told

    ghost predicate Valid() reads this {
      |buffer| <= endOfBufferOffset &&
      (buffer != [] ==> buffer == Window(src.file, Pos()) && eof == !BlockComplete(src.file, Pos())) &&
      (!eof ==> endOfBufferOffset % kBlockSize == 0 && filePos == endOfBufferOffset)
    }

    // The position of the next byte to look at.
    ghost function Pos(): nat
      requires |buffer| <= endOfBufferOffset
      reads this
    {
      endOfBufferOffset - |buffer|
    }

    // Nothing more can be read, though SkipToInitialBlock may have moved the position back.
    ghost predicate Exhausted() reads this { eof && buffer == [] }

    ghost predicate AtStartOrEnd() reads this {
      Exhausted() || (!eof && filePos == 0 && endOfBufferOffset == 0)
    }

    // ... and it has not.
    ghost predicate InPlace() reads this { Exhausted() ==> endOfBufferOffset >= |src.file| }

    constructor (src: Source)
      ensures Ready() && this.src == src && reports == []
      ensures StartPos() == SkipTo(src.initialOffset) && resyncing == (src.initialOffset > 0)
    {
      this.src := src;
      filePos, buffer, eof, lastRecordOffset, endOfBufferOffset := 0, [], false, 0, 0;
      resyncing, reports := src.initialOffset > 0, [];
    }

    method ReportCorruption(bytes: nat)
      requires |buffer| <= endOfBufferOffset
      modifies this`reports
      ensures reports == old(reports) + Report(src, Pos(), bytes)
    {
      var pos := endOfBufferOffset - |buffer|;
      if pos < bytes || pos - bytes >= src.initialOffset {
        reports := reports + [bytes];
      }
    }

    // Fetch the next block once the buffer cannot hold a header any more.
    method Refill()
      requires Valid() && !eof && |buffer| < kHeaderSize
      modifies `filePos, `buffer, `endOfBufferOffset, `eof
      ensures Valid() && InPlace() && (eof || |buffer| == kBlockSize)
      ensures ReadPhys(src, Pos()) == ReadPhys(src, old(Pos()))
    {
      if buffer != [] { TrailerIsSkipped(src, Pos(), endOfBufferOffset); }
      var avail := if filePos <= |src.file| then |src.file| - filePos else 0;
      var n := if avail < kBlockSize then avail else kBlockSize;
      BlockWindow(src.file, filePos, n);
      buffer := if n == 0 then [] else src.file[filePos..filePos + n];
      filePos, endOfBufferOffset := filePos + n, endOfBufferOffset + n;
      if n < kBlockSize {
        eof := true;
      }
    }

    method ReadPhysicalRecord() returns (kind: int, fragment: Bytes)
      requires Valid()
      modifies `filePos, `buffer, `endOfBufferOffset, `eof, `reports
      ensures Valid() && (old(Exhausted()) ==> Exhausted() && kind == kEof && reports == old(reports))
      ensures old(InPlace()) ==>
                InPlace() && kind == ReadPhys(src, old(Pos())).kind && fragment == ReadPhys(src, old(Pos())).data &&
                Pos() == ReadPhys(src, old(Pos())).next && reports == old(reports) + PhysReport(src, ReadPhys(src, old(Pos())))
    {
      while |buffer| < kHeaderSize
        invariant Valid() && reports == old(reports) && (old(Exhausted()) ==> Exhausted())
        invariant old(InPlace()) ==> InPlace() && ReadPhys(src, Pos()) == ReadPhys(src, old(Pos()))
        decreases !eof, kHeaderSize - |buffer|
      {
        if eof {
          // Less than a header is left, as a crash may leave it.
          buffer := [];
          return kEof, [];
        }
        Refill();
      }
      kind, fragment := ParseHeader();
    }

    method ParseHeader() returns (kind: int, fragment: Bytes)
      requires Valid() && |buffer| >= kHeaderSize
      modifies `buffer, `reports
      ensures Valid() && InPlace()
      ensures var ph := ParseBuffer(src, old(Pos()), old(buffer), !eof);
              kind == ph.kind && fragment == ph.data && Pos() == ph.next && reports == old(reports) + PhysReport(src, ph)
    {
      var length, type' := Length(buffer), buffer[6];
      if kHeaderSize + length > |buffer| {
        var dropSize := |buffer|;
        buffer := [];
        if !eof {
          ReportCorruption(dropSize);
          return kBadRecord, [];
        }
        // A record that ends with the file is a torn one.
        return kEof, [];
      }
      if type' == kZeroType && length == 0 {
        buffer := [];
        return kBadRecord, [];
      }
      var data := buffer[kHeaderSize..kHeaderSize + length];
      if src.checksum && buffer[..4] != Checksum(src.crc, type', data) {
        // With a wrong length there is no telling where the next record starts in this block.
        var dropSize := |buffer|;
        buffer := [];
        ReportCorruption(dropSize);
        return kBadRecord, [];
      }
      RemovePrefix(kHeaderSize + length);
      // Too early for this reader.
      if endOfBufferOffset - |buffer| - kHeaderSize - length < src.initialOffset {
        return kBadRecord, [];
      }
      return type', data;
    }

    // buffer_.remove_prefix(n)
    method RemovePrefix(n: nat)
      requires Valid() && n <= |buffer|
      modifies `buffer
      ensures Valid() && Pos() == old(Pos()) + n
      ensures |buffer| == |old(buffer)| - n && (buffer == [] ==> old(buffer) == [] || Pos() == endOfBufferOffset)
      ensures old(buffer) != [] ==> InPlace()
    {
      if n < |buffer| { WindowTail(src.file, Pos(), n); }
      buffer := buffer[n..];
    }

    method SkipToInitialBlock()
      requires Valid() && AtStartOrEnd()
      modifies `filePos, `endOfBufferOffset
      ensures Valid() && Pos() == SkipTo(src.initialOffset)
    {
      var offsetInBlock := src.initialOffset % kBlockSize;
      var blockStartLocation := src.initialOffset - offsetInBlock;
      // No record starts so near to the end of a block.
      if offsetInBlock > kBlockSize - 6 {
        offsetInBlock := 0;
        blockStartLocation := blockStartLocation + kBlockSize;
      }
      endOfBufferOffset := blockStartLocation;
      if blockStartLocation > 0 {
        filePos := filePos + blockStartLocation;
      }
    }

    // What ReadRecord starts from.
    ghost function StartPos(): nat
      requires Valid()
      reads this
    {
      if lastRecordOffset < src.initialOffset then SkipTo(src.initialOffset) else Pos()
    }

    // A reader that has hit the end of the file keeps saying so.
    method ReadRecord() returns (found: bool, record: Bytes)
      requires Valid() && (lastRecordOffset < src.initialOffset ==> AtStartOrEnd())
      modifies this
      ensures Valid() && (found ==> lastRecordOffset >= src.initialOffset && !resyncing)
      ensures old(Exhausted()) ==> !found && Exhausted() && reports == old(reports)
      ensures !old(Exhausted()) ==>
                InPlace() && var r := ReadRec(src, old(StartPos()), old(resyncing), false, [], 0);
                found == r.found && reports == old(reports) + r.reports &&
                (found ==> record == r.record && lastRecordOffset == r.offset && Pos() == r.next)
    {
      if lastRecordOffset < src.initialOffset {
        SkipToInitialBlock();
      }
      var scratch: Bytes, inFragmented, prospective: nat, done := [], false, 0, false;
      found, record := false, [];
      ghost var live, all := !Exhausted(), ReadRec(src, Pos(), resyncing, false, [], 0);
      while !done
        invariant Valid() && (if live then InPlace() else !found && Exhausted() && reports == old(reports))
        invariant inFragmented ==> prospective >= src.initialOffset
        invariant found ==> done && lastRecordOffset >= src.initialOffset && !resyncing
        invariant live && !done ==>
                    SameRead(old(reports), all, reports, ReadRec(src, Pos(), resyncing, inFragmented, scratch, prospective))
        invariant live && done ==> SameRead(old(reports), all, reports, Result(found, record, if found then lastRecordOffset else 0, Pos(), []))
        decreases !done, Remaining(src.file, Pos())
      {
        done, found, record, inFragmented, scratch, prospective := TakeTurn(inFragmented, scratch, prospective);
      }
    }

    // Where a caller may be that has not been told of the end of the file.
    ghost predicate Ready() reads this {
      Valid() && InPlace() && (lastRecordOffset < src.initialOffset ==> !eof && AtStartOrEnd())
    }

    ghost function Rest(): Reading
      requires Valid()
      reads this
    {
      ReadAll(src, StartPos(), resyncing)
    }

    method ReadNext() returns (found: bool, record: Bytes)
      requires Ready()
      modifies this
      ensures Valid() && (found ==> Ready() && Remaining(src.file, StartPos()) < Remaining(src.file, old(StartPos())))
      ensures old(Rest()).records == if found then [(record, lastRecordOffset)] + Rest().records else []
      ensures old(reports) + old(Rest()).reports == reports + if found then Rest().reports else []
    {
      ghost var r := ReadRec(src, StartPos(), resyncing, false, [], 0);
      ghost var told, rest := reports, ReadAll(src, r.next, false).reports;
      ConcatAssociates(told, r.reports, rest);
      found, record := ReadRecord();
    }

    // One turn of the loop in ReadRecord.
    method TakeTurn(inFragmented: bool, scratch: Bytes, prospective: nat)
      returns (done: bool, found: bool, record: Bytes, inFragmented': bool, scratch': Bytes, prospective': nat)
      requires Valid() && (inFragmented ==> prospective >= src.initialOffset)
      modifies this
      ensures Valid() && (inFragmented' ==> prospective' >= src.initialOffset)
      ensures old(Exhausted()) ==> done && !found && Exhausted() && reports == old(reports)
      ensures found ==> done && lastRecordOffset >= src.initialOffset && !resyncing
      ensures old(InPlace()) ==>
                InPlace() && (!done ==> Remaining(src.file, Pos()) < Remaining(src.file, old(Pos()))) &&
                SameRead(old(reports), ReadRec(src, old(Pos()), old(resyncing), inFragmented, scratch, prospective), reports,
                  if done then Result(found, record, if found then lastRecordOffset else 0, Pos(), [])
                  else ReadRec(src, Pos(), resyncing, inFragmented', scratch', prospective'))
    {
      ghost var p := Pos();
      var kind, fragment := ReadPhysicalRecord();
      ghost var t := Dispatch(src, kind, fragment, Pos(), resyncing, inFragmented, scratch, prospective);
      if old(InPlace()) {
        TurnRead(src, p, resyncing, inFragmented, scratch, prospective, old(reports), ReadPhys(src, p), t);
      }
      done, found, record, inFragmented', scratch', prospective' := Switch(kind, fragment, inFragmented, scratch, prospective);
    }

    // The body of the loop in ReadRecord, for a fragment that ends at Pos().
    method Switch(kind: int, fragment: Bytes, inFragmented: bool, scratch: Bytes, prospective: nat)
      returns (done: bool, found: bool, record: Bytes, inFragmented': bool, scratch': Bytes, prospective': nat)
      requires |buffer| <= endOfBufferOffset
      requires kind == kEof || kind == kBadRecord || Pos() >= src.initialOffset + kHeaderSize + |fragment|
      requires inFragmented ==> prospective >= src.initialOffset
      modifies `resyncing, `lastRecordOffset, `reports
      ensures match Dispatch(src, kind, fragment, Pos(), old(resyncing), inFragmented, scratch, prospective)
              case Done(f, r, o, said) =>
                done && found == f && record == r && (found ==> lastRecordOffset == o && !resyncing) && !inFragmented' &&
                reports == old(reports) + said
              case More(y, i, s, o, said) =>
                !done && !found && resyncing == y && inFragmented' == i && scratch' == s && prospective' == o &&
                reports == old(reports) + said
    {
      done, found, record, inFragmented', scratch', prospective' := false, false, [], inFragmented, scratch, prospective;
      if resyncing {
        if kind == kMiddleType {
          return;
        }
        resyncing := false;
        if kind == kLastType {
          return;
        }
      }
      if kind == kFullType {
        if inFragmented && scratch != [] {
          ReportCorruption(|scratch|);
        }
        lastRecordOffset := endOfBufferOffset - |buffer| - kHeaderSize - |fragment|;
        done, found, record, inFragmented' := true, true, fragment, false;
      } else if kind == kFirstType {
        if inFragmented && scratch != [] {
          ReportCorruption(|scratch|);
        }
        prospective' := endOfBufferOffset - |buffer| - kHeaderSize - |fragment|;
        scratch', inFragmented' := fragment, true;
      } else if kind == kMiddleType {
        if !inFragmented {
          ReportCorruption(|fragment|);
        } else {
          scratch' := scratch + fragment;
        }
      } else if kind == kLastType {
        if !inFragmented {
          ReportCorruption(|fragment|);
        } else {
          lastRecordOffset := prospective;
          done, found, record, inFragmented' := true, true, scratch + fragment, false;
        }
      } else if kind == kEof {
        done, inFragmented' := true, false;
      } else if kind == kBadRecord {
        if inFragmented {
          ReportCorruption(|scratch|);
          scratch', inFragmented' := [], false;
        }
      } else {
        ReportCorruption(|fragment| + if inFragmented then |scratch| else 0);
        scratch', inFragmented' := [], false;
      }
    }
  }

  // Reading a log to its end, as DBImpl::RecoverLogFile does.
  method ReadLog(src: Source) returns (r: Reading)
    ensures r == ReadAll(src, SkipTo(src.initialOffset), src.initialOffset > 0)
  {
    var reader := new Reader(src);
    ghost var all := ReadAll(src, SkipTo(src.initialOffset), src.initialOffset > 0);
    var records := [];
    var found, record := reader.ReadNext();
    while found
      invariant fresh(reader) && reader.src == src && reader.Valid()
      invariant found ==> reader.Ready()
      invariant all.records == records + if found then [(record, reader.lastRecordOffset)] + reader.Rest().records else []
      invariant all.reports == reader.reports + if found then reader.Rest().reports else []
      decreases found, if found then Remaining(src.file, reader.StartPos()) else 0
    {
      ConcatAssociates(records, [(record, reader.lastRecordOffset)], reader.Rest().records);
      records := records + [(record, reader.lastRecordOffset)];
      found, record := reader.ReadNext();
    }
    r := Reading(records, reader.reports);
  }

  // What is too short for a header at the end of a block is passed over.
  lemma TrailerIsSkipped(src: Source, p: nat, end: nat)
    requires end % kBlockSize == 0 && p < end <= p + kBlockSize && BlockComplete(src.file, p) && |Window(src.file, p)| < kHeaderSize
    ensures ReadPhys(src, end) == ReadPhys(src, p)
  {
    BoundaryIsBlockEnd(p, end);
  }

  lemma BoundaryIsBlockEnd(p: nat, end: nat)
    requires end % kBlockSize == 0 && p < end <= p + kBlockSize
    ensures BlockEnd(p) == end
  {
    var q := end / kBlockSize - 1;
    assert end == (q + 1) * kBlockSize;
    assert p == q * kBlockSize + (p - q * kBlockSize);
    assert p / kBlockSize == q && p % kBlockSize == p - q * kBlockSize;
  }
}
