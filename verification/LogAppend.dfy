/**
 A log that is cut and then written on: log::Writer reopens it at its length, as reuse_logs has it, and
 log::Reader finds what the cut spares.
 */
module LogAppends {
  import opened Coding
  import opened LogFormat
  import opened LogReader
  import opened LogTheorems
  import opened Options

  // ---------------------------------------------------------------- where a cut goes through

  // The header of the fragment that a cut at n goes through, if it does: a cut between two fragments or
  // in a trailer leaves none behind.
  function TearIn(pos: nat, data: Bytes, n: nat): Option<nat>
    decreases |data|, Rank(pos)
  {
    var k := Take(pos, data);
    if n <= HeaderAt(pos) then None
    else if n < After(pos, data) then Some(HeaderAt(pos))
    else if k == |data| then None
    else
      AfterRank(pos, data);
      TearIn(After(pos, data), data[k..], n)
  }

  function Tear(pos: nat, records: seq<Bytes>, n: nat): Option<nat>
    decreases |records|
  {
    if records == [] then None
    else if RecordEnd(pos, records[0]) <= n then Tear(RecordEnd(pos, records[0]), records[1..], n)
    else TearIn(pos, records[0], n)
  }

  // Where the reader goes on: at the cut, or at the next block if a fragment is torn.
  function ResumeAt(tear: Option<nat>, n: nat): nat {
    if tear.None? then n else BlockEnd(tear.value)
  }

  // The rest of a torn fragment and what was written behind it do not pass for a record.
  predicate TearShows(src: Source, h: nat) {
    var w := Window(src.file, h);
    |w| >= kHeaderSize && kHeaderSize + Length(w) <= |w| && !(w[6] == kZeroType && Length(w) == 0) ==>
      src.checksum && w[..4] != Checksum(src.crc, w[6], w[kHeaderSize..kHeaderSize + Length(w)])
  }

  // ---------------------------------------------------------------- the same outcome

  // The same record is found, or none.
  predicate Like(r: Result, r': Result) {
    r.found == r'.found && (r.found ==> SameOutcome(r, r'))
  }

  lemma ReadAllLike(src: Source, p: nat, q: nat)
    requires Like(ReadRec(src, p, false, false, [], 0), ReadRec(src, q, false, false, [], 0))
    ensures ReadAll(src, p, false).records == ReadAll(src, q, false).records
  {
  }

  // Outside a fragmented record nothing is carried over.
  lemma {:induction false} Forgets(src: Source, p: nat, scratch: Bytes, offset: nat)
    ensures ReadRec(src, p, false, false, scratch, offset) == ReadRec(src, p, false, false, [], 0)
    decreases Remaining(src.file, p)
  {
    var ph := ReadPhys(src, p);
    var t := Dispatch(src, ph.kind, ph.data, ph.next, false, false, scratch, offset);
    if t.More? && !t.inFragmented {
      Forgets(src, ph.next, t.scratch, t.offset);
    }
  }

  // ---------------------------------------------------------------- one torn record

  // The file goes on with a record of its own, or ends.
  predicate Resumes(src: Source, n: nat) {
    ReadPhys(src, n).kind in {kEof, kFullType, kFirstType}
  }

  lemma ResumeTurn(src: Source, p: nat, scratch: Bytes, offset: nat)
    requires Resumes(src, p) && offset >= src.initialOffset
    ensures Like(ReadRec(src, p, false, true, scratch, offset), ReadRec(src, p, false, false, [], 0))
  {
  }

  // In a trailer.
  lemma TrailerTurn(src: Source, pos: nat, n: nat)
    requires pos <= n <= HeaderAt(pos) && n <= |src.file|
    ensures ReadPhys(src, pos).(next := 0) == ReadPhys(src, n).(next := 0)
    ensures ReadPhys(src, pos).kind != kEof ==> ReadPhys(src, pos) == ReadPhys(src, n)
  {
    if pos < n {
      LeftAfter(pos, n - pos);
      assert HeaderAt(pos) == BlockEnd(pos);
      if n < HeaderAt(pos) {
        assert BlockEnd(n) == BlockEnd(pos);
      }
    }
  }

  // A torn fragment is a bad record, or the end of the file.
  lemma TornPhys(src: Source, pos: nat, h: nat)
    requires h == HeaderAt(pos) < |src.file| && TearShows(src, h)
    ensures var ph := ReadPhys(src, pos);
            ph.kind == kEof || (ph.kind == kBadRecord && ph.next == if BlockComplete(src.file, h) then BlockEnd(h) else |src.file|)
    ensures ReadPhys(src, pos).kind == kEof ==> !BlockComplete(src.file, h)
  {
    ReadAtHeader(src, pos);
    if pos < h { assert BlockComplete(src.file, pos); }
  }

  // The turn that meets it.
  lemma TornTurn(src: Source, pos: nat, h: nat, inFragmented: bool, scratch: Bytes, offset: nat)
    requires h == HeaderAt(pos) < |src.file| && TearShows(src, h) && (inFragmented ==> offset >= src.initialOffset)
    ensures Like(ReadRec(src, pos, false, inFragmented, scratch, offset), ReadRec(src, BlockEnd(h), false, false, [], 0))
  {
    var ph := ReadPhys(src, pos);
    TornPhys(src, pos, h);
    if ph.kind == kEof {
      NothingThere(src, BlockEnd(h));
    } else {
      var t := Dispatch(src, ph.kind, ph.data, ph.next, false, inFragmented, scratch, offset);
      Forgets(src, ph.next, t.scratch, t.offset);
      if !BlockComplete(src.file, h) {
        NothingThere(src, BlockEnd(h));
        NothingThere(src, |src.file|);
      }
    }
  }

  lemma NothingThere(src: Source, p: nat)
    requires p >= |src.file|
    ensures !ReadRec(src, p, false, false, [], 0).found
  {
  }

  // The file starts with before and the first bytes of the record's fragments.
  ghost predicate CutAt(src: Source, before: Bytes, data: Bytes, begin: bool, n: nat) {
    |before| <= n <= |src.file| && n < RecordEnd(|before|, data) && src.initialOffset == 0 &&
    n <= |before + Layout(src.crc, |before|, data, begin)| &&
    src.file[..n] == (before + Layout(src.crc, |before|, data, begin))[..n]
  }

  predicate GoesOn(src: Source, tear: Option<nat>, n: nat) {
    if tear.None? then Resumes(src, n) else TearShows(src, tear.value)
  }

  // A fragment that the cut spares.
  lemma WholeFragment(src: Source, before: Bytes, data: Bytes, begin: bool, n: nat) returns (next: Bytes)
    requires |Layout(src.crc, |before|, data, begin)| + |before| == RecordEnd(|before|, data)
    requires CutAt(src, before, data, begin, n) && After(|before|, data) <= n
    ensures var k := Take(|before|, data);
            k < |data| && |next| == After(|before|, data) && CutAt(src, next, data[k..], false, n) &&
            ReadPhys(src, |before|) == Phys(Kind(begin, false), data[..k], |next|, None) && (k == 0 ==> Rank(|next|) < Rank(|before|))
  {
    var f, rest := FragmentBytes(src.crc, |before|, data, begin), LayoutRest(src.crc, |before|, data);
    LayoutStep(src.crc, before, |before|, data, begin);
    next := before + f;
    AfterRank(|before|, data);
    FirstBytes(src.file, next, rest, n);
    ReadFragment(src, src.file, before, data, begin, src.file[|next|..]);
  }

  lemma FirstBytes(file: Bytes, a: Bytes, b: Bytes, n: nat)
    requires |a| <= n <= |file| && n <= |a + b| && file[..n] == (a + b)[..n]
    ensures file == a + file[|a|..]
  {
    assert file[..|a|] == file[..n][..|a|] == (a + b)[..n][..|a|] == a;
    assert file == file[..|a|] + file[|a|..];
  }

  lemma TrailerRead(src: Source, pos: nat, n: nat, inFragmented: bool, scratch: Bytes, offset: nat)
    requires pos <= n <= HeaderAt(pos) && n <= |src.file| && Resumes(src, n) && (inFragmented ==> offset >= src.initialOffset)
    requires !inFragmented ==> scratch == [] && offset == 0
    ensures Like(ReadRec(src, pos, false, inFragmented, scratch, offset), ReadRec(src, n, false, false, [], 0))
  {
    TrailerTurn(src, pos, n);
    if inFragmented { ResumeTurn(src, n, scratch, offset); }
  }

  lemma MiddleTurn(src: Source, p: nat, data: Bytes, next: nat, scratch: Bytes, offset: nat)
    requires ReadPhys(src, p) == Phys(kMiddleType, data, next, None) && offset >= src.initialOffset
    ensures ReadRec(src, p, false, true, scratch, offset) == ReadRec(src, next, false, true, scratch + data, offset)
  {
    QuietTurn(src, p, false, true, scratch, offset, ReadPhys(src, p), More(false, true, scratch + data, offset, []));
  }

  // Reading on inside a record that is cut.
  lemma {:induction false} TornRest(src: Source, before: Bytes, data: Bytes, n: nat, scratch: Bytes, offset: nat)
    requires CutAt(src, before, data, false, n) && GoesOn(src, TearIn(|before|, data, n), n)
    ensures Like(ReadRec(src, |before|, false, true, scratch, offset), ReadRec(src, ResumeAt(TearIn(|before|, data, n), n), false, false, [], 0))
    decreases |data|, Rank(|before|)
  {
    var pos, k := |before|, Take(|before|, data);
    if n <= HeaderAt(pos) {
      TrailerRead(src, pos, n, true, scratch, offset);
    } else if n < After(pos, data) {
      TornTurn(src, pos, HeaderAt(pos), true, scratch, offset);
    } else {
      LayoutLength(src.crc, pos, data, false);
      var next := WholeFragment(src, before, data, false, n);
      MiddleTurn(src, pos, data[..k], |next|, scratch, offset);
      TornRest(src, next, data[k..], n, scratch + data[..k], offset);
    }
  }

  lemma TornRecord(src: Source, before: Bytes, data: Bytes, n: nat)
    requires CutAt(src, before, data, true, n) && GoesOn(src, TearIn(|before|, data, n), n)
    ensures Like(ReadRec(src, |before|, false, false, [], 0), ReadRec(src, ResumeAt(TearIn(|before|, data, n), n), false, false, [], 0))
  {
    var pos, k := |before|, Take(|before|, data);
    if n <= HeaderAt(pos) {
      TrailerRead(src, pos, n, false, [], 0);
    } else if n < After(pos, data) {
      TornTurn(src, pos, HeaderAt(pos), false, [], 0);
    } else {
      LayoutLength(src.crc, pos, data, true);
      var next := WholeFragment(src, before, data, true, n);
      TornRest(src, next, data[k..], n, data[..k], HeaderAt(pos));
      StartTurn(src, pos, false, HeaderAt(pos), |next|, false, data[..k]);
    }
  }

  // ---------------------------------------------------------------- the log before the cut

  // Up to the cut the file is what a writer of the records made it.
  ghost predicate LogCutAt(src: Source, before: Bytes, records: seq<Bytes>, n: nat) {
    |before| <= n <= |src.file| && n <= |before + LogFrom(src.crc, |before|, records)| && src.initialOffset == 0 &&
    src.file[..n] == (before + LogFrom(src.crc, |before|, records))[..n]
  }

  lemma SpareRecord(src: Source, before: Bytes, records: seq<Bytes>, n: nat) returns (next: Bytes)
    requires LogCutAt(src, before, records, n) && records != [] && RecordEnd(|before|, records[0]) <= n
    ensures |next| == RecordEnd(|before|, records[0]) && LogCutAt(src, next, records[1..], n)
    ensures next == before + Layout(src.crc, |before|, records[0], true) <= src.file
  {
    var layout, rest := Layout(src.crc, |before|, records[0], true), LogFrom(src.crc, RecordEnd(|before|, records[0]), records[1..]);
    LayoutLength(src.crc, |before|, records[0], true);
    LogStep(src.crc, before, |before|, records);
    next := before + layout;
    FirstBytes(src.file, next, rest, n);
  }

  lemma TornLast(src: Source, before: Bytes, records: seq<Bytes>, n: nat)
    requires LogCutAt(src, before, records, n) && records != [] && RecordEnd(|before|, records[0]) > n
    ensures CutAt(src, before, records[0], true, n)
  {
    var layout, rest := Layout(src.crc, |before|, records[0], true), LogFrom(src.crc, RecordEnd(|before|, records[0]), records[1..]);
    LayoutLength(src.crc, |before|, records[0], true);
    LogStep(src.crc, before, |before|, records);
    assert ((before + layout) + rest)[..n] == (before + layout)[..n];
  }

  lemma WholeRecord(src: Source, before: Bytes, data: Bytes)
    requires src.initialOffset == 0 && before + Layout(src.crc, |before|, data, true) <= src.file
    ensures ReadAll(src, |before|, false).records == [(data, HeaderAt(|before|))] + ReadAll(src, RecordEnd(|before|, data), false).records
  {
    var next := before + Layout(src.crc, |before|, data, true);
    LayoutLength(src.crc, |before|, data, true);
    assert src.file == next + src.file[|next|..];
    ReadOne(src, src.file, before, data, src.file[|next|..], false);
  }

  lemma CutInFirst(src: Source, before: Bytes, records: seq<Bytes>, n: nat)
    requires LogCutAt(src, before, records, n) && GoesOn(src, Tear(|before|, records, n), n)
    requires records != [] && RecordEnd(|before|, records[0]) > n
    ensures ReadAll(src, |before|, false).records ==
            RecordsIn(|before|, records, n, 0) + ReadAll(src, ResumeAt(Tear(|before|, records, n), n), false).records
  {
    TornLast(src, before, records, n);
    TornRecord(src, before, records[0], n);
    NoneFit(RecordEnd(|before|, records[0]), records[1..], n, 0);
    ReadAllLike(src, |before|, ResumeAt(Tear(|before|, records, n), n));
  }

  // Reading a log that is cut at n: the whole records, and then as from where the reader goes on.
  lemma {:induction false} CutLog(src: Source, before: Bytes, records: seq<Bytes>, n: nat)
    requires LogCutAt(src, before, records, n) && GoesOn(src, Tear(|before|, records, n), n)
    ensures ReadAll(src, |before|, false).records ==
            RecordsIn(|before|, records, n, 0) + ReadAll(src, ResumeAt(Tear(|before|, records, n), n), false).records
    decreases |records|
  {
    if records != [] {
      if RecordEnd(|before|, records[0]) <= n {
        var next := SpareRecord(src, before, records, n);
        WholeRecord(src, before, records[0]);
        CutLog(src, next, records[1..], n);
        ConcatAssociates([(records[0], HeaderAt(|before|))], RecordsIn(|next|, records[1..], n, 0),
                         ReadAll(src, ResumeAt(Tear(|before|, records, n), n), false).records);
      } else {
        CutInFirst(src, before, records, n);
      }
    } else {
      assert before + LogFrom(src.crc, |before|, records) == before && |before| == n;
    }
  }

  // ---------------------------------------------------------------- the log after the cut

  lemma {:induction false} AllStartLater(pos: nat, records: seq<Bytes>, n: nat, s: nat)
    requires HeaderAt(pos) >= s
    ensures RecordsIn(pos, records, n, s) == RecordsIn(pos, records, n, 0)
    decreases |records|
  {
    if records != [] {
      EndAfterHeader(pos, records[0]);
      AllStartLater(RecordEnd(pos, records[0]), records[1..], n, s);
    }
  }

  lemma {:induction false} EndAfterHeader(pos: nat, data: Bytes)
    ensures RecordEnd(pos, data) >= After(pos, data) > HeaderAt(pos)
    decreases |data|, Rank(pos)
  {
    var k := Take(pos, data);
    if k < |data| {
      AfterRank(pos, data);
      EndAfterHeader(After(pos, data), data[k..]);
    }
  }

  // Read from a block start on, records give those of them that start there or later.
  lemma {:induction false} ReadLater(src: Source, whole: Bytes, before: Bytes, records: seq<Bytes>, s: nat)
    requires whole == before + LogFrom(src.crc, |before|, records) && src.file <= whole
    requires |before| <= s && s % kBlockSize == 0 && src.initialOffset == 0
    ensures ReadAll(src, s, false).records == RecordsIn(|before|, records, |src.file|, s)
    decreases |records|
  {
    if records == [] {
      ReadPastEnd(src, s, false);
    } else {
      var pos := |before|;
      var end := RecordEnd(pos, records[0]);
      FragmentStaysInBlock(pos, records[0], s);
      var next := ReadRecord(src, whole, before, records, false);
      if HeaderAt(pos) == s {
        AllStartLater(pos, records, |src.file|, s);
        ReadFrom(src, whole, before, records, false);
        ReadAtBlock(src, pos, s, false);
        if |src.file| < s {
          ReadPastEnd(src, s, false);
          EndAfterHeader(pos, records[0]);
          NoneFit(end, records[1..], |src.file|, 0);
        }
      } else if end <= s {
        ReadLater(src, whole, next, records[1..], s);
      } else {
        SeekInside(src, whole, before, records, s, false);
        if end <= |src.file| {
          ReadAllStep(src, s, false, end);
          ReadFrom(src, whole, next, records[1..], false);
          AllStartLater(end, records[1..], |src.file|, s);
        } else {
          NoneFit(end, records[1..], |src.file|, s);
        }
      }
    }
  }

  lemma AppendedResumes(src: Source, whole: Bytes, before: Bytes, records: seq<Bytes>)
    requires whole == before + LogFrom(src.crc, |before|, records) && before <= src.file <= whole && src.initialOffset == 0
    ensures Resumes(src, |before|)
  {
    if records != [] {
      LogStep(src.crc, before, |before|, records);
      var rest := LogFrom(src.crc, RecordEnd(|before|, records[0]), records[1..]);
      var next := NextFragment(src, whole, before, records[0], true, rest);
    }
  }

  lemma {:induction false} TearIsBefore(pos: nat, records: seq<Bytes>, n: nat)
    ensures var t := Tear(pos, records, n); t.Some? ==> t.value < n < BlockEnd(t.value) && Left(t.value) >= kHeaderSize && pos <= t.value
    decreases |records|
  {
    if records != [] {
      if RecordEnd(pos, records[0]) <= n { TearIsBefore(RecordEnd(pos, records[0]), records[1..], n); } else { TearInIsBefore(pos, records[0], n); }
    }
  }

  lemma {:induction false} TearInIsBefore(pos: nat, data: Bytes, n: nat)
    ensures var t := TearIn(pos, data, n); t.Some? ==> t.value < n < BlockEnd(t.value) && Left(t.value) >= kHeaderSize && pos <= t.value
    decreases |data|, Rank(pos)
  {
    var k := Take(pos, data);
    if n > HeaderAt(pos) && n >= After(pos, data) && k < |data| {
      AfterRank(pos, data);
      TearInIsBefore(After(pos, data), data[k..], n);
    }
  }

  // What comes after the cut.
  lemma AfterCut(src: Source, whole: Bytes, before: Bytes, added: seq<Bytes>, tear: Option<nat>)
    requires whole == before + LogFrom(src.crc, |before|, added) && before <= src.file <= whole && src.initialOffset == 0
    requires tear.Some? ==> |before| < BlockEnd(tear.value)
    ensures ReadAll(src, ResumeAt(tear, |before|), false).records ==
            RecordsIn(|before|, added, |src.file|, if tear.None? then 0 else BlockEnd(tear.value))
    ensures tear.None? ==> Resumes(src, |before|)
  {
    if tear.None? {
      AppendedResumes(src, whole, before, added);
      ReadFrom(src, whole, before, added, false);
    } else {
      LeftAfter(tear.value, Left(tear.value));
      ReadLater(src, whole, before, added, BlockEnd(tear.value));
    }
  }

  // A log of any records, cut at any n and written on at n, and then perhaps cut again: the reader finds
  // the whole records before n, and of those written after n all if the cut spares every fragment, or else
  // exactly those that start in a later block than the torn fragment.
  lemma TornAppend(src: Source, first: seq<Bytes>, n: nat, added: seq<Bytes>)
    requires n <= |LogFrom(src.crc, 0, first)| && n <= |src.file| && src.initialOffset == 0
    requires src.file <= LogFrom(src.crc, 0, first)[..n] + LogFrom(src.crc, n, added)
    requires Tear(0, first, n).Some? ==> TearShows(src, Tear(0, first, n).value)
    ensures ReadAll(src, 0, false).records == RecordsIn(0, first, n, 0) +
            RecordsIn(n, added, |src.file|, if Tear(0, first, n).None? then 0 else BlockEnd(Tear(0, first, n).value))
  {
    var log, tear := LogFrom(src.crc, 0, first), Tear(0, first, n);
    var before := log[..n];
    var whole := before + LogFrom(src.crc, n, added);
    assert src.file[..n] == before by { assert src.file[..n] == whole[..n]; }
    assert [] + log == log;
    TearIsBefore(0, first, n);
    AfterCut(src, whole, before, added, tear);
    CutLog(src, [], first, n);
  }

  // So nothing is lost if and only if no fragment is torn, or nothing is written, or the writer is so near
  // to the end of the block that no header fits.
  lemma NothingLostIff(src: Source, first: seq<Bytes>, n: nat, added: seq<Bytes>)
    requires n <= |LogFrom(src.crc, 0, first)| && src.initialOffset == 0
    requires src.file == LogFrom(src.crc, 0, first)[..n] + LogFrom(src.crc, n, added)
    requires Tear(0, first, n).Some? ==> TearShows(src, Tear(0, first, n).value)
    ensures Payloads(ReadAll(src, 0, false).records) == Payloads(RecordsIn(0, first, n, 0)) + added <==>
            Tear(0, first, n).None? || added == [] || Left(n) < kHeaderSize
  {
    TornAppend(src, first, n, added);
    var tear := Tear(0, first, n);
    var s := if tear.None? then 0 else BlockEnd(tear.value);
    var a, b := RecordsIn(0, first, n, 0), RecordsIn(n, added, |src.file|, s);
    PayloadsConcat(a, b);
    SameTail(Payloads(a), Payloads(b), added);
    LogLength(src.crc, n, added);
    AddedIff(src.crc, n, added, |src.file|, s);
    if tear.Some? {
      TearIsBefore(0, first, n);
      InTornBlock(tear.value, n);
    }
  }

  lemma SameTail(p: seq<Bytes>, x: seq<Bytes>, y: seq<Bytes>)
    ensures p + x == p + y <==> x == y
  {
    if p + x == p + y {
      assert x == (p + x)[|p|..] && y == (p + y)[|p|..];
    }
  }

  // Between a torn header and the end of its block.
  lemma InTornBlock(h: nat, n: nat)
    requires h < n < BlockEnd(h)
    ensures HeaderAt(n) >= BlockEnd(h) <==> Left(n) < kHeaderSize
  {
    LeftAfter(h, n - h);
  }

  lemma AddedIff(crc: Crc, pos: nat, records: seq<Bytes>, n: nat, s: nat)
    requires EndOf(pos, records) <= n
    ensures Payloads(RecordsIn(pos, records, n, s)) == records <==> records == [] || HeaderAt(pos) >= s
  {
    if records != [] {
      if HeaderAt(pos) >= s {
        AllStartLater(pos, records, n, s);
        AllFit(crc, pos, records, n);
      } else {
        FewerFit(pos, records, n, s);
      }
    }
  }

  lemma {:induction false} PayloadsConcat(a: seq<(Bytes, nat)>, b: seq<(Bytes, nat)>)
    ensures Payloads(a + b) == Payloads(a) + Payloads(b)
  {
    if a == [] {
      assert a + b == b;
    } else {
      PayloadsConcat(a[1..], b);
      TailOfConcat(a, b);
      ConcatAssociates([a[0].0], Payloads(a[1..]), Payloads(b));
    }
  }

  function EndOf(pos: nat, records: seq<Bytes>): nat
    decreases |records|
  {
    if records == [] then pos else EndOf(RecordEnd(pos, records[0]), records[1..])
  }

  lemma {:induction false} LogLength(crc: Crc, pos: nat, records: seq<Bytes>)
    ensures pos + |LogFrom(crc, pos, records)| == EndOf(pos, records) >= pos
    decreases |records|
  {
    if records != [] {
      LayoutLength(crc, pos, records[0], true);
      LogLength(crc, RecordEnd(pos, records[0]), records[1..]);
    }
  }

  lemma {:induction false} AllFit(crc: Crc, pos: nat, records: seq<Bytes>, n: nat)
    requires EndOf(pos, records) <= n
    ensures Payloads(RecordsIn(pos, records, n, 0)) == records
    decreases |records|
  {
    if records != [] {
      LogLength(crc, RecordEnd(pos, records[0]), records[1..]);
      AllFit(crc, RecordEnd(pos, records[0]), records[1..], n);
      assert RecordsIn(pos, records, n, 0)[1..] == RecordsIn(RecordEnd(pos, records[0]), records[1..], n, 0);
    }
  }

  lemma {:induction false} AtMost(pos: nat, records: seq<Bytes>, n: nat, s: nat)
    ensures |RecordsIn(pos, records, n, s)| <= |records|
    decreases |records|
  {
    if records != [] { AtMost(RecordEnd(pos, records[0]), records[1..], n, s); }
  }

  lemma FewerFit(pos: nat, records: seq<Bytes>, n: nat, s: nat)
    requires records != [] && HeaderAt(pos) < s
    ensures |RecordsIn(pos, records, n, s)| < |records|
  {
    AtMost(RecordEnd(pos, records[0]), records[1..], n, s);
  }

  // ---------------------------------------------------------------- a record of type 5

  // An intact physical record of any type; zeros where nothing was written are none.
  lemma IntactPhys(src: Source, before: Bytes, kind: Byte, data: Bytes, rest: Bytes)
    requires FitsHeader(data) && kHeaderSize + |data| <= Left(|before|) && src.initialOffset == 0 && (kind != kZeroType || data != [])
    requires src.file == (before + Physical(src.crc, kind, data)) + rest
    ensures ReadPhys(src, |before|) == Phys(kind, data, |before| + kHeaderSize + |data|, None)
  {
    var p, content := |before|, Physical(src.crc, kind, data);
    assert src.file[p..p + |content|] == content;
    assert src.file[..|src.file|] == src.file;
    WindowShows(src.file, |src.file|, p, content);
    ParsePhysical(src, p, kind, data, Window(src.file, p), BlockComplete(src.file, p));
  }

  // An intact record of type 5, which no writer makes, ends the log: that is the number the reader has for
  // the end of the file.  Whatever follows is not read.
  lemma TypeFiveEndsLog(src: Source, first: seq<Bytes>, data: Bytes, rest: Bytes)
    requires FitsHeader(data) && kHeaderSize + |data| <= Left(|LogFrom(src.crc, 0, first)|) && src.initialOffset == 0
    requires src.file == (LogFrom(src.crc, 0, first) + Physical(src.crc, kEof, data)) + rest
    ensures Payloads(ReadAll(src, 0, false).records) == first
  {
    var log := LogFrom(src.crc, 0, first);
    var n := |log|;
    IntactPhys(src, log, kEof, data, rest);
    LogLength(src.crc, 0, first);
    NoTearAtEnd(0, first, n);
    assert [] + log == log && src.file[..n] == log == log[..n];
    CutLog(src, [], first, n);
    AllFit(src.crc, 0, first, n);
    assert RecordsIn(0, first, n, 0) + [] == RecordsIn(0, first, n, 0);
  }

  lemma PayloadsCons(r: (Bytes, nat), rest: seq<(Bytes, nat)>)
    ensures Payloads([r] + rest) == [r.0] + Payloads(rest)
  {
    assert ([r] + rest)[1..] == rest;
  }

  lemma FirstRecord(crc: Crc, before: Bytes, records: seq<Bytes>) returns (next: Bytes)
    requires records != []
    ensures next == before + Layout(crc, |before|, records[0], true) && |next| == RecordEnd(|before|, records[0])
    ensures next + LogFrom(crc, |next|, records[1..]) == before + LogFrom(crc, |before|, records)
  {
    next := before + Layout(crc, |before|, records[0], true);
    LayoutLength(crc, |before|, records[0], true);
    LogStep(crc, before, |before|, records);
  }

  // Whole records are read, and then what follows.
  lemma {:induction false} WholeLog(src: Source, before: Bytes, records: seq<Bytes>, p: nat)
    requires src.initialOffset == 0 && before + LogFrom(src.crc, |before|, records) <= src.file
    requires p == |before + LogFrom(src.crc, |before|, records)|
    ensures Payloads(ReadAll(src, |before|, false).records) == records + Payloads(ReadAll(src, p, false).records)
    decreases |records|
  {
    if records == [] {
      assert before + LogFrom(src.crc, |before|, []) == before;
    } else {
      var next := FirstRecord(src.crc, before, records);
      assert next <= src.file by { assert next <= next + LogFrom(src.crc, |next|, records[1..]); }
      WholeRecord(src, before, records[0]);
      WholeLog(src, next, records[1..], p);
      PayloadsCons((records[0], HeaderAt(|before|)), ReadAll(src, |next|, false).records);
      HeadAssociates(records, Payloads(ReadAll(src, p, false).records));
    }
  }

  lemma HeadAssociates(a: seq<Bytes>, b: seq<Bytes>)
    requires a != []
    ensures [a[0]] + (a[1..] + b) == a + b
  {
  }

  // An intact record of any other type that no writer uses is passed over.
  lemma UnknownTypeIsPassed(src: Source, first: seq<Bytes>, kind: Byte, data: Bytes, added: seq<Bytes>)
    requires FitsHeader(data) && kHeaderSize + |data| <= Left(|LogFrom(src.crc, 0, first)|) && src.initialOffset == 0
    requires kind !in {kFullType, kFirstType, kMiddleType, kLastType, kEof} && (kind != kZeroType || data != [])
    requires var before := LogFrom(src.crc, 0, first) + Physical(src.crc, kind, data);
             src.file == before + LogFrom(src.crc, |before|, added)
    ensures Payloads(ReadAll(src, 0, false).records) == first + added
  {
    var log := LogFrom(src.crc, 0, first);
    var before := log + Physical(src.crc, kind, data);
    assert [] + log == log && log <= before <= src.file;
    WholeLog(src, [], first, |log|);
    IntactPhys(src, log, kind, data, LogFrom(src.crc, |before|, added));
    assert |before| == |log| + kHeaderSize + |data|;
    Passed(src, |log|, kind, data, |before|);
    ReadFrom(src, src.file, before, added, false);
    LogLength(src.crc, |before|, added);
    AllFit(src.crc, |before|, added, |src.file|);
  }

  lemma Passed(src: Source, p: nat, kind: Byte, data: Bytes, next: nat)
    requires ReadPhys(src, p) == Phys(kind, data, next, None) && src.initialOffset == 0
    requires kind !in {kFullType, kFirstType, kMiddleType, kLastType, kEof}
    ensures ReadAll(src, p, false).records == ReadAll(src, next, false).records
  {
    var t := Dispatch(src, kind, data, next, false, false, [], 0);
    Forgets(src, next, t.scratch, t.offset);
    ReadAllLike(src, p, next);
  }

  lemma {:induction false} EndGrows(pos: nat, records: seq<Bytes>)
    ensures EndOf(pos, records) >= pos
    decreases |records|
  {
    if records != [] { EndGrows(RecordEnd(pos, records[0]), records[1..]); }
  }

  lemma {:induction false} NoTearAtEnd(pos: nat, records: seq<Bytes>, n: nat)
    requires n == EndOf(pos, records)
    ensures Tear(pos, records, n).None?
    decreases |records|
  {
    if records != [] {
      EndGrows(RecordEnd(pos, records[0]), records[1..]);
      NoTearAtEnd(RecordEnd(pos, records[0]), records[1..], n);
    }
  }
}
