/**
 What log::Writer puts into a file, log::Reader gets back, wherever the file is cut and wherever
 reading starts.
 */
module LogTheorems {
  import opened Coding
  import opened LogFormat
  import opened LogReader
  import opened LogWriter
  import opened Options

  // ---------------------------------------------------------------- one fragment

  lemma ParsePhysical(src: Source, p: nat, kind: Byte, data: Bytes, buffer: Bytes, complete: bool)
    requires FitsHeader(data) && (kind != kZeroType || data != []) && |buffer| >= kHeaderSize
    requires var all := Physical(src.crc, kind, data);
             if |buffer| < |all| then buffer == all[..|buffer|] && !complete else buffer[..|all|] == all
    ensures ParseBuffer(src, p, buffer, complete) ==
            if |buffer| < kHeaderSize + |data| then Phys(kEof, [], p + |buffer|, None)
            else Phys(if p < src.initialOffset then kBadRecord else kind, if p < src.initialOffset then [] else data, p + kHeaderSize + |data|, None)
  {
    var all := Physical(src.crc, kind, data);
    assert forall i :: 0 <= i < kHeaderSize ==> buffer[i] == all[i];
    assert Length(buffer) == |data|;
    if |buffer| >= |all| {
      assert buffer[..4] == all[..4] == Checksum(src.crc, kind, data);
      assert buffer[kHeaderSize..kHeaderSize + |data|] == all[kHeaderSize..] == data;
    }
  }

  // The window at p, in a file that is cut at n but would go on with content at p.
  lemma WindowShows(whole: Bytes, n: nat, p: nat, content: Bytes)
    requires p < n <= |whole| && p + |content| <= |whole| && whole[p..p + |content|] == content && |content| <= Left(p)
    ensures var w := Window(whole[..n], p);
            if n < p + |content| then w == content[..n - p] && !BlockComplete(whole[..n], p)
            else |w| >= |content| && w[..|content|] == content
  {
    var w := Window(whole[..n], p);
    assert forall i :: 0 <= i < |w| ==> w[i] == whole[p + i];
    assert forall i :: 0 <= i < |content| ==> content[i] == whole[p..p + |content|][i] == whole[p + i];
  }

  lemma ReadAtHeader(src: Source, p: nat)
    ensures Left(p) >= kHeaderSize ==> HeaderAt(p) == p
    ensures BlockComplete(src.file, p) ==> ReadPhys(src, p) == ReadPhys(src, HeaderAt(p))
    ensures |src.file| < HeaderAt(p) ==> ReadPhys(src, p).kind == kEof && ReadPhys(src, p).dropped == None
  {
  }

  lemma FragmentAt(crc: Crc, before: Bytes, data: Bytes, begin: bool, tail: Bytes)
    ensures var h, k, whole := HeaderAt(|before|), Take(|before|, data), (before + FragmentBytes(crc, |before|, data, begin)) + tail;
            var content := Physical(crc, Kind(begin, k == |data|), data[..k]);
            h + |content| <= |whole| && whole[h..h + |content|] == content
  {
  }

  // The physical record that starts in a file which may end inside it.
  lemma ReadContent(src: Source, whole: Bytes, h: nat, kind: Byte, data: Bytes)
    requires FitsHeader(data) && kind != kZeroType && src.file <= whole && kHeaderSize + |data| <= Left(h)
    requires h + kHeaderSize + |data| <= |whole| && whole[h..h + kHeaderSize + |data|] == Physical(src.crc, kind, data)
    ensures var ph := ReadPhys(src, h);
            if |src.file| < h + kHeaderSize + |data| then ph.kind == kEof && ph.dropped == None
            else if h < src.initialOffset then ph == Phys(kBadRecord, [], h + kHeaderSize + |data|, None)
            else ph == Phys(kind, data, h + kHeaderSize + |data|, None)
  {
    var n := |src.file|;
    assert src.file == whole[..n];
    if h < n {
      WindowShows(whole, n, h, Physical(src.crc, kind, data));
      if n >= h + kHeaderSize {
        ParsePhysical(src, h, kind, data, Window(src.file, h), BlockComplete(src.file, h));
      }
    }
  }

  lemma ReadFragment(src: Source, whole: Bytes, before: Bytes, data: Bytes, begin: bool, tail: Bytes)
    requires whole == (before + FragmentBytes(src.crc, |before|, data, begin)) + tail && src.file <= whole
    ensures var ph, pos := ReadPhys(src, |before|), |before|;
            if |src.file| < After(pos, data) then ph.kind == kEof && ph.dropped == None
            else if HeaderAt(pos) < src.initialOffset then ph == Phys(kBadRecord, [], After(pos, data), None)
            else ph == Phys(Kind(begin, Take(pos, data) == |data|), data[..Take(pos, data)], After(pos, data), None)
  {
    var pos, h, k := |before|, HeaderAt(|before|), Take(|before|, data);
    ReadAtHeader(src, pos);
    FragmentAt(src.crc, before, data, begin, tail);
    ReadContent(src, whole, h, Kind(begin, k == |data|), data[..k]);
  }

  // ---------------------------------------------------------------- one record

  // The first fragment of what is left of a record, and what follows it.
  lemma NextFragment(src: Source, whole: Bytes, before: Bytes, data: Bytes, begin: bool, tail: Bytes) returns (next: Bytes)
    requires whole == (before + Layout(src.crc, |before|, data, begin)) + tail && src.file <= whole
    ensures var ph, pos, n := ReadPhys(src, |before|), |before|, Take(|before|, data);
            if |src.file| < After(pos, data) then ph.kind == kEof && ph.dropped == None
            else if HeaderAt(pos) < src.initialOffset then ph == Phys(kBadRecord, [], After(pos, data), None)
            else ph == Phys(Kind(begin, n == |data|), data[..n], After(pos, data), None)
    ensures |next| == After(|before|, data) <= RecordEnd(|before|, data)
    ensures Take(|before|, data) == |data| ==> RecordEnd(|before|, data) == |next|
    ensures var left := data[Take(|before|, data)..];
            left != [] ==> RecordEnd(|before|, data) == RecordEnd(|next|, left) && whole == (next + Layout(src.crc, |next|, left, false)) + tail
    ensures Take(|before|, data) == 0 < |data| ==> Rank(|next|) < Rank(|before|)
  {
    var f, rest := FragmentBytes(src.crc, |before|, data, begin), LayoutRest(src.crc, |before|, data);
    LayoutStep(src.crc, before, |before|, data, begin);
    ConcatAssociates(before + f, rest, tail);
    ReadFragment(src, whole, before, data, begin, rest + tail);
    AfterRank(|before|, data);
    next := before + f;
  }

  // The remaining fragments complete the record, if all of them are in the file.
  lemma {:induction false} ReadRest(src: Source, whole: Bytes, before: Bytes, data: Bytes, tail: Bytes, scratch: Bytes, offset: nat)
    requires whole == (before + Layout(src.crc, |before|, data, false)) + tail && src.file <= whole
    requires HeaderAt(|before|) >= src.initialOffset && offset >= src.initialOffset
    ensures var r, end := ReadRec(src, |before|, false, true, scratch, offset), RecordEnd(|before|, data);
            if end <= |src.file| then r == Result(true, scratch + data, offset, end, []) else !r.found && r.reports == []
    decreases |data|, Rank(|before|)
  {
    var n := Take(|before|, data);
    var next := NextFragment(src, whole, before, data, false, tail);
    if |next| <= |src.file| {
      if n < |data| {
        ReadRest(src, whole, next, data[n..], tail, scratch + data[..n], offset);
        assert scratch + data[..n] + data[n..] == scratch + data;
      } else {
        assert data[..n] == data;
      }
    }
  }

  lemma NothingToAdd(r: Result)
    ensures AddReports([], r) == r
  {
  }

  // A turn of ReadRecord that reports nothing.
  lemma QuietTurn(src: Source, p: nat, resyncing: bool, inFragmented: bool, scratch: Bytes, offset: nat, ph: Phys, t: Turn)
    requires inFragmented ==> offset >= src.initialOffset
    requires ph == ReadPhys(src, p) && t == Dispatch(src, ph.kind, ph.data, ph.next, resyncing, inFragmented, scratch, offset)
    requires ph.dropped == None && t.said == []
    ensures ReadRec(src, p, resyncing, inFragmented, scratch, offset) == AfterTurn(src, ph.next, t)
  {
    assert PhysReport(src, ph) + t.said == [];
    NothingToAdd(AfterTurn(src, ph.next, t));
  }

  // The turn that meets a first fragment, which ends at next and has the whole record or its first
  // bytes, or nothing.
  lemma StartTurn(src: Source, p: nat, resyncing: bool, at: nat, next: nat, whole: bool, data: Bytes)
    requires next == at + kHeaderSize + |data|
    requires var ph := ReadPhys(src, p);
             if |src.file| < next then ph.kind == kEof && ph.dropped == None
             else if at < src.initialOffset then ph == Phys(kBadRecord, [], next, None)
             else ph == Phys(Kind(true, whole), data, next, None)
    ensures var r := ReadRec(src, p, resyncing, false, [], 0);
            if |src.file| < next then !r.found && r.reports == []
            else if at < src.initialOffset then r == ReadRec(src, next, false, false, [], 0)
            else if whole then r == Result(true, data, at, next, [])
            else r == ReadRec(src, next, false, true, data, at)
  {
    var ph := ReadPhys(src, p);
    var t :=
      if |src.file| < next then Done(false, [], 0, [])
      else if at < src.initialOffset then More(false, false, [], 0, [])
      else if whole then Done(true, data, at, [])
      else More(false, true, data, at, []);
    QuietTurn(src, p, resyncing, false, [], 0, ph, t);
  }

  lemma ReadOne(src: Source, whole: Bytes, before: Bytes, data: Bytes, tail: Bytes, resyncing: bool)
    requires whole == (before + Layout(src.crc, |before|, data, true)) + tail && src.file <= whole
    requires HeaderAt(|before|) >= src.initialOffset
    ensures var r, end := ReadRec(src, |before|, resyncing, false, [], 0), RecordEnd(|before|, data);
            if end <= |src.file| then r == Result(true, data, HeaderAt(|before|), end, []) else !r.found && r.reports == []
  {
    var n, at := Take(|before|, data), HeaderAt(|before|);
    var next := NextFragment(src, whole, before, data, true, tail);
    StartTurn(src, |before|, resyncing, at, |next|, n == |data|, data[..n]);
    if n == |data| {
      assert data[..n] == data;
    } else if |next| <= |src.file| {
      ReadRest(src, whole, next, data[n..], tail, data[..n], at);
      assert data[..n] + data[n..] == data;
    }
  }

  // Same outcome, whatever is reported.
  predicate SameOutcome(r: Result, r': Result) { r.(reports := []) == r'.(reports := []) }

  // A turn that meets the rest of a record whose start was not accepted, or nothing.
  lemma SkipTurn(src: Source, p: nat, resyncing: bool, ph: Phys)
    requires ph == ReadPhys(src, p) && ph.dropped == None && ph.kind in {kMiddleType, kLastType, kBadRecord, kEof}
    ensures var r := ReadRec(src, p, resyncing, false, [], 0);
            if ph.kind == kEof then !r.found
            else SameOutcome(r, ReadRec(src, ph.next, resyncing && ph.kind == kMiddleType, false, [], 0))
  {
  }

  // Fragments of a record whose start was not accepted are passed over.
  lemma {:induction false} SkipRest(src: Source, whole: Bytes, before: Bytes, data: Bytes, tail: Bytes, resyncing: bool)
    requires whole == (before + Layout(src.crc, |before|, data, false)) + tail && src.file <= whole
    ensures var r, end := ReadRec(src, |before|, resyncing, false, [], 0), RecordEnd(|before|, data);
            if end <= |src.file| then SameOutcome(r, ReadRec(src, end, false, false, [], 0)) else !r.found
    decreases |data|, Rank(|before|)
  {
    var n := Take(|before|, data);
    var next := NextFragment(src, whole, before, data, false, tail);
    SkipTurn(src, |before|, resyncing, ReadPhys(src, |before|));
    if |next| <= |src.file| && n < |data| {
      SkipRest(src, whole, next, data[n..], tail, resyncing && HeaderAt(|before|) >= src.initialOffset);
    }
  }

  lemma SkipOne(src: Source, whole: Bytes, before: Bytes, data: Bytes, tail: Bytes, resyncing: bool)
    requires whole == (before + Layout(src.crc, |before|, data, true)) + tail && src.file <= whole
    requires HeaderAt(|before|) < src.initialOffset
    ensures var r, end := ReadRec(src, |before|, resyncing, false, [], 0), RecordEnd(|before|, data);
            if end <= |src.file| then SameOutcome(r, ReadRec(src, end, false, false, [], 0)) else !r.found
  {
    var n := Take(|before|, data);
    var next := NextFragment(src, whole, before, data, true, tail);
    StartTurn(src, |before|, resyncing, HeaderAt(|before|), |next|, n == |data|, data[..n]);
    if |next| <= |src.file| && n < |data| {
      SkipRest(src, whole, next, data[n..], tail, false);
    }
  }

  // ---------------------------------------------------------------- the whole log

  // The records that lie wholly in the first n bytes and start at or after an offset, each with
  // the position of its first header.
  function RecordsIn(pos: nat, records: seq<Bytes>, n: nat, from: nat): seq<(Bytes, nat)>
    decreases |records|
  {
    if records == [] then []
    else
      (if HeaderAt(pos) >= from && RecordEnd(pos, records[0]) <= n then [(records[0], HeaderAt(pos))] else [])
      + RecordsIn(RecordEnd(pos, records[0]), records[1..], n, from)
  }

  lemma {:induction false} NoneFit(pos: nat, records: seq<Bytes>, n: nat, from: nat)
    requires pos > n
    ensures RecordsIn(pos, records, n, from) == []
    decreases |records|
  {
    if records != [] { NoneFit(RecordEnd(pos, records[0]), records[1..], n, from); }
  }

  lemma ReadPastEnd(src: Source, p: nat, resyncing: bool)
    requires p >= |src.file|
    ensures ReadAll(src, p, resyncing) == Reading([], [])
  {
  }

  lemma ReadAllStep(src: Source, p: nat, resyncing: bool, q: nat)
    requires SameOutcome(ReadRec(src, p, resyncing, false, [], 0), ReadRec(src, q, false, false, [], 0))
    ensures ReadAll(src, p, resyncing).records == ReadAll(src, q, false).records
  {
  }

  // Reading on from the start of a record.
  lemma ReadRecord(src: Source, whole: Bytes, before: Bytes, records: seq<Bytes>, resyncing: bool) returns (next: Bytes)
    requires records != [] && whole == before + LogFrom(src.crc, |before|, records) && src.file <= whole
    ensures |next| == RecordEnd(|before|, records[0]) && whole == next + LogFrom(src.crc, |next|, records[1..])
    ensures var r, at, rest := ReadAll(src, |before|, resyncing), HeaderAt(|before|), ReadAll(src, |next|, false);
            if |next| > |src.file| then r.records == [] && (at >= src.initialOffset ==> r.reports == [])
            else if at >= src.initialOffset then r == Reading([(records[0], at)] + rest.records, rest.reports)
            else r.records == rest.records
  {
    var pos, end := |before|, RecordEnd(|before|, records[0]);
    LayoutLength(src.crc, pos, records[0], true);
    LogStep(src.crc, before, pos, records);
    next := before + Layout(src.crc, pos, records[0], true);
    if HeaderAt(pos) >= src.initialOffset {
      ReadOne(src, whole, before, records[0], LogFrom(src.crc, end, records[1..]), resyncing);
    } else {
      SkipOne(src, whole, before, records[0], LogFrom(src.crc, end, records[1..]), resyncing);
      if end <= |src.file| { ReadAllStep(src, pos, resyncing, end); }
    }
  }

  lemma {:induction false} ReadFrom(src: Source, whole: Bytes, before: Bytes, records: seq<Bytes>, resyncing: bool)
    requires whole == before + LogFrom(src.crc, |before|, records) && src.file <= whole
    ensures ReadAll(src, |before|, resyncing).records == RecordsIn(|before|, records, |src.file|, src.initialOffset)
    ensures HeaderAt(|before|) >= src.initialOffset ==> ReadAll(src, |before|, resyncing).reports == []
    decreases |records|
  {
    if records == [] {
      ReadPastEnd(src, |before|, resyncing);
    } else {
      var next := ReadRecord(src, whole, before, records, resyncing);
      if |next| <= |src.file| {
        ReadFrom(src, whole, next, records[1..], false);
      } else {
        NoneFit(|next|, records[1..], |src.file|, src.initialOffset);
      }
    }
  }

  // ---------------------------------------------------------------- starting at a block

  // Block starts where SkipToInitialBlock can go: no header between them and the offset asked for.
  ghost predicate StartFor(s: nat, from: nat) {
    s % kBlockSize == 0 && forall p: nat :: HeaderAt(p) < s ==> HeaderAt(p) < from
  }

  lemma BlockMultiple(q: nat)
    ensures q * kBlockSize % kBlockSize == 0
  {
  }

  lemma SkipToIsBlock(from: nat)
    ensures SkipTo(from) % kBlockSize == 0
  {
    var q := from / kBlockSize;
    BlockMultiple(q);
    BlockMultiple(q + 1);
    assert SkipTo(from) == q * kBlockSize || SkipTo(from) == (q + 1) * kBlockSize;
  }

  lemma SkipToIsStart(from: nat)
    ensures StartFor(SkipTo(from), from)
  {
    var s := SkipTo(from);
    SkipToIsBlock(from);
    forall p: nat | HeaderAt(p) < s ensures HeaderAt(p) < from {
      HeadersBefore(HeaderAt(p), from);
    }
  }

  lemma HeadersBefore(h: nat, from: nat)
    requires Left(h) >= kHeaderSize && h < SkipTo(from)
    ensures h < from
  {
    var q, r := from / kBlockSize, from % kBlockSize;
    assert from == q * kBlockSize + r && h == h / kBlockSize * kBlockSize + h % kBlockSize;
    assert h < (q + 1) * kBlockSize;
    assert h / kBlockSize <= q;
  }

  // No fragment crosses a block start.
  lemma FragmentStaysInBlock(pos: nat, data: Bytes, s: nat)
    requires s % kBlockSize == 0 && pos <= s
    ensures HeaderAt(pos) <= s && (HeaderAt(pos) < s ==> After(pos, data) <= s)
  {
    if pos < s { NextBlockStart(pos, s); }
    if HeaderAt(pos) < s { NextBlockStart(HeaderAt(pos), s); }
  }

  lemma NextBlockStart(p: nat, s: nat)
    requires s % kBlockSize == 0 && p < s
    ensures p + Left(p) <= s
  {
    assert p / kBlockSize < s / kBlockSize;
  }

  lemma ReadAtBlock(src: Source, pos: nat, s: nat, resyncing: bool)
    requires HeaderAt(pos) == s && s % kBlockSize == 0
    ensures BlockComplete(src.file, pos) || pos == s ==>
              ReadRec(src, s, resyncing, false, [], 0) == ReadRec(src, pos, resyncing, false, [], 0)
  {
    ReadAtHeader(src, pos);
  }

  // The rest of a record that spans the block start s.
  lemma {:induction false} SeekRest(src: Source, whole: Bytes, before: Bytes, data: Bytes, tail: Bytes, s: nat, resyncing: bool)
    requires whole == (before + Layout(src.crc, |before|, data, false)) + tail && src.file <= whole
    requires |before| <= s < RecordEnd(|before|, data) && s % kBlockSize == 0
    ensures var r, end := ReadRec(src, s, resyncing, false, [], 0), RecordEnd(|before|, data);
            if end <= |src.file| then SameOutcome(r, ReadRec(src, end, false, false, [], 0)) else !r.found
    decreases |data|, Rank(|before|)
  {
    FragmentStaysInBlock(|before|, data, s);
    if HeaderAt(|before|) == s {
      ReadAtBlock(src, |before|, s, resyncing);
      SkipRest(src, whole, before, data, tail, resyncing);
    } else {
      var next := NextFragment(src, whole, before, data, false, tail);
      SeekRest(src, whole, next, data[Take(|before|, data)..], tail, s, resyncing);
    }
  }

  lemma {:induction false} Seek(src: Source, whole: Bytes, before: Bytes, records: seq<Bytes>, s: nat)
    requires whole == before + LogFrom(src.crc, |before|, records) && src.file <= whole
    requires |before| <= s && StartFor(s, src.initialOffset)
    ensures ReadAll(src, s, true).records == RecordsIn(|before|, records, |src.file|, src.initialOffset)
    decreases |records|
  {
    if records == [] {
      ReadPastEnd(src, s, true);
    } else {
      var pos := |before|;
      var end := RecordEnd(pos, records[0]);
      FragmentStaysInBlock(pos, records[0], s);
      var next := ReadRecord(src, whole, before, records, true);
      if HeaderAt(pos) == s {
        ReadAtBlock(src, pos, s, true);
        ReadFrom(src, whole, before, records, true);
        if |src.file| < s { ReadPastEnd(src, s, true); NoneFit(end, records[1..], |src.file|, src.initialOffset); }
      } else if end <= s {
        Seek(src, whole, next, records[1..], s);
      } else {
        SeekInside(src, whole, before, records, s, true);
        if end <= |src.file| {
          ReadAllStep(src, s, true, end);
          ReadFrom(src, whole, next, records[1..], false);
        } else {
          NoneFit(end, records[1..], |src.file|, src.initialOffset);
        }
      }
    }
  }

  // The first record spans s.
  lemma SeekInside(src: Source, whole: Bytes, before: Bytes, records: seq<Bytes>, s: nat, resyncing: bool)
    requires records != [] && whole == before + LogFrom(src.crc, |before|, records) && src.file <= whole
    requires HeaderAt(|before|) < s < RecordEnd(|before|, records[0]) && s % kBlockSize == 0
    ensures var r, end := ReadRec(src, s, resyncing, false, [], 0), RecordEnd(|before|, records[0]);
            if end <= |src.file| then SameOutcome(r, ReadRec(src, end, false, false, [], 0)) else !r.found
  {
    var tail := LogFrom(src.crc, RecordEnd(|before|, records[0]), records[1..]);
    LogStep(src.crc, before, |before|, records);
    FragmentStaysInBlock(|before|, records[0], s);
    var next := NextFragment(src, whole, before, records[0], true, tail);
    SeekRest(src, whole, next, records[0][Take(|before|, records[0])..], tail, s, resyncing);
  }

  // ---------------------------------------------------------------- main theorems

  // A log cut anywhere, read from any offset: exactly the records wholly inside that start at or
  // after the offset, each with the position of its first header.
  lemma LogSeek(src: Source, records: seq<Bytes>)
    requires src.file <= LogFrom(src.crc, 0, records)
    ensures ReadAll(src, SkipTo(src.initialOffset), src.initialOffset > 0).records ==
            RecordsIn(0, records, |src.file|, src.initialOffset)
  {
    var whole := LogFrom(src.crc, 0, records);
    assert whole == [] + whole;
    if src.initialOffset == 0 {
      ReadFrom(src, whole, [], records, false);
    } else {
      SkipToIsStart(src.initialOffset);
      Seek(src, whole, [], records, SkipTo(src.initialOffset));
    }
  }

  lemma ReadFromStart(src: Source, records: seq<Bytes>)
    requires src.file <= LogFrom(src.crc, 0, records) && src.initialOffset == 0
    ensures ReadAll(src, 0, false) == Reading(RecordsIn(0, records, |src.file|, 0), [])
  {
    var whole := LogFrom(src.crc, 0, records);
    assert whole == [] + whole;
    ReadFrom(src, whole, [], records, false);
  }

  // Read from the start, a torn log gives a prefix of its records, the longest that is wholly in the
  // file, and no report at all.
  lemma TornLog(src: Source, records: seq<Bytes>)
    requires src.file <= LogFrom(src.crc, 0, records) && src.initialOffset == 0
    ensures var r := ReadAll(src, 0, false);
            r.reports == [] && Payloads(r.records) <= records && |LogFrom(src.crc, 0, records[..|r.records|])| <= |src.file| &&
            (|r.records| < |records| ==> |src.file| < |LogFrom(src.crc, 0, records[..|r.records| + 1])|)
  {
    ReadFromStart(src, records);
    RecordsInIsPrefix(src.crc, 0, records, |src.file|);
  }

  function Payloads(records: seq<(Bytes, nat)>): (s: seq<Bytes>)
    ensures |s| == |records|
  {
    if records == [] then [] else [records[0].0] + Payloads(records[1..])
  }

  lemma LogTail(crc: Crc, pos: nat, records: seq<Bytes>, k: nat)
    requires 0 < k <= |records|
    ensures pos + |LogFrom(crc, pos, records[..k])| ==
            RecordEnd(pos, records[0]) + |LogFrom(crc, RecordEnd(pos, records[0]), records[1..][..k - 1])|
  {
    LayoutLength(crc, pos, records[0], true);
    assert records[..k][1..] == records[1..][..k - 1];
  }

  lemma {:induction false} RecordsInIsPrefix(crc: Crc, pos: nat, records: seq<Bytes>, n: nat)
    requires pos <= n
    ensures var r := RecordsIn(pos, records, n, 0);
            Payloads(r) <= records && pos + |LogFrom(crc, pos, records[..|r|])| <= n &&
            (|r| < |records| ==> n < pos + |LogFrom(crc, pos, records[..|r| + 1])|)
    decreases |records|
  {
    if records != [] {
      var end, r := RecordEnd(pos, records[0]), RecordsIn(pos, records, n, 0);
      if end <= n {
        RecordsInIsPrefix(crc, end, records[1..], n);
        assert r[1..] == RecordsIn(end, records[1..], n, 0);
        assert Payloads(r) == [records[0]] + Payloads(r[1..]) <= [records[0]] + records[1..] == records;
        LogTail(crc, pos, records, |r|);
        if |r| < |records| { LogTail(crc, pos, records, |r| + 1); }
      } else {
        NoneFit(end, records[1..], n, 0);
        LogTail(crc, pos, records, 1);
      }
    }
  }

  // The writer, reopened after any of the records, and the reader on what is left of its file.
  method WriteCutRead(crc: Crc, records: seq<Bytes>, reopen: seq<bool>, n: nat, checksum: bool, offset: nat) returns (r: Reading)
    requires |reopen| == |records| && n <= |LogFrom(crc, 0, records)|
    ensures r.records == RecordsIn(0, records, n, offset) && (offset == 0 ==> r.reports == [])
  {
    var file := WriteAll(crc, records, reopen);
    var src := Source(crc, checksum, file[..n], offset);
    ReadBack(src, records);
    r := ReadLog(src);
  }

  lemma ReadBack(src: Source, records: seq<Bytes>)
    requires src.file <= LogFrom(src.crc, 0, records)
    ensures var r := ReadAll(src, SkipTo(src.initialOffset), src.initialOffset > 0);
            r.records == RecordsIn(0, records, |src.file|, src.initialOffset) && (src.initialOffset == 0 ==> r.reports == [])
  {
    if src.initialOffset == 0 {
      assert SkipTo(0) == 0;
      ReadFromStart(src, records);
    } else {
      LogSeek(src, records);
    }
  }
}
