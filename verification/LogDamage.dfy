/**
 Damaged log files (log_reader.cc:57-272): what is reported, and that nothing is made up.
 */
module LogDamage {
  import opened Coding
  import opened LogFormat
  import opened LogReader
  import opened LogTheorems
  import opened LogAppends
  import opened Options

  // A fragment whose length or checksum is wrong.
  predicate Damaged(src: Source, p: nat) {
    var w := Window(src.file, p);
    |w| >= kHeaderSize && !(w[6] == kZeroType && Length(w) == 0) &&
    if kHeaderSize + Length(w) > |w| then BlockComplete(src.file, p)
    else src.checksum && w[..4] != Checksum(src.crc, w[6], w[kHeaderSize..kHeaderSize + Length(w)])
  }

  lemma {:induction false} WholeLogIsQuiet(src: Source, before: Bytes, records: seq<Bytes>, p: nat)
    requires src.initialOffset == 0 && before + LogFrom(src.crc, |before|, records) <= src.file
    requires p == |before + LogFrom(src.crc, |before|, records)|
    ensures ReadAll(src, |before|, false).reports == ReadAll(src, p, false).reports
    decreases |records|
  {
    if records == [] {
      assert before + LogFrom(src.crc, |before|, []) == before;
    } else {
      var next := FirstRecord(src.crc, before, records);
      assert next <= src.file by { assert next <= next + LogFrom(src.crc, |next|, records[1..]); }
      WholeRecordIsQuiet(src, before, records[0]);
      WholeLogIsQuiet(src, next, records[1..], p);
    }
  }

  lemma WholeRecordIsQuiet(src: Source, before: Bytes, data: Bytes)
    requires src.initialOffset == 0 && before + Layout(src.crc, |before|, data, true) <= src.file
    ensures ReadAll(src, |before|, false).reports == ReadAll(src, RecordEnd(|before|, data), false).reports
  {
    var next := before + Layout(src.crc, |before|, data, true);
    LayoutLength(src.crc, |before|, data, true);
    assert src.file == next + src.file[|next|..];
    ReadOne(src, src.file, before, data, src.file[|next|..], false);
  }

  // Damage behind whole records is reported, with exactly the number of bytes that are dropped for it: the
  // rest of the block.  The records before it are returned, and reading goes on behind it.
  lemma DamageIsReported(src: Source, first: seq<Bytes>, n: nat, next: nat)
    requires src.initialOffset == 0 && LogFrom(src.crc, 0, first) <= src.file && n == |LogFrom(src.crc, 0, first)|
    requires Damaged(src, n) && next == n + |Window(src.file, n)|
    ensures Payloads(ReadAll(src, 0, false).records) == first + Payloads(ReadAll(src, next, false).records)
    ensures ReadAll(src, 0, false).reports == [next - n] + ReadAll(src, next, false).reports
  {
    DamageTurn(src, n, next);
    BehindWholeLog(src, first, n);
  }

  lemma BehindWholeLog(src: Source, first: seq<Bytes>, n: nat)
    requires src.initialOffset == 0 && LogFrom(src.crc, 0, first) <= src.file && n == |LogFrom(src.crc, 0, first)|
    ensures Payloads(ReadAll(src, 0, false).records) == first + Payloads(ReadAll(src, n, false).records)
    ensures ReadAll(src, 0, false).reports == ReadAll(src, n, false).reports
  {
    var log := LogFrom(src.crc, 0, first);
    assert [] + log == log;
    WholeLog(src, [], first, |log|);
    WholeLogIsQuiet(src, [], first, |log|);
  }

  lemma DamageTurn(src: Source, p: nat, next: nat)
    requires src.initialOffset == 0 && Damaged(src, p) && next == p + |Window(src.file, p)|
    ensures ReadAll(src, p, false).records == ReadAll(src, next, false).records
    ensures ReadAll(src, p, false).reports == [next - p] + ReadAll(src, next, false).reports
  {
    DamagedPhys(src, p);
    AfterDamage(src, p, next, next - p);
  }

  lemma DamagedPhys(src: Source, p: nat)
    requires src.initialOffset == 0 && Damaged(src, p)
    ensures var n := |Window(src.file, p)|; ReadPhys(src, p) == Phys(kBadRecord, [], p + n, Some(n))
  {
  }

  lemma AfterDamage(src: Source, p: nat, q: nat, n: nat)
    requires src.initialOffset == 0 && ReadPhys(src, p) == Phys(kBadRecord, [], q, Some(n))
    ensures ReadAll(src, p, false).records == ReadAll(src, q, false).records
    ensures ReadAll(src, p, false).reports == [n] + ReadAll(src, q, false).reports
  {
    var r := ReadRec(src, q, false, false, [], 0);
    DamagedRec(src, p, q, n, r);
    AfterReports(src, p, q, n, r, Rest(src, r), ReadAll(src, p, false), ReadAll(src, q, false));
  }

  lemma AfterReports(src: Source, p: nat, q: nat, n: nat, r: Result, rest: Reading, all: Reading, later: Reading)
    requires r == ReadRec(src, q, false, false, [], 0) && ReadRec(src, p, false, false, [], 0) == AddReports([n], r) && rest == Rest(src, r)
    requires all == ReadAll(src, p, false) && later == ReadAll(src, q, false)
    ensures all.records == later.records && all.reports == [n] + later.reports
  {
    FirstThen(src, p, AddReports([n], r), rest);
    FirstThen(src, q, r, rest);
    ReportsAssociate([n], r.reports, rest.reports);
  }

  lemma ReportsAssociate(a: seq<nat>, b: seq<nat>, c: seq<nat>)
    ensures (a + b) + c == a + (b + c)
  {
  }

  lemma DamagedRec(src: Source, p: nat, q: nat, n: nat, r: Result)
    requires src.initialOffset == 0 && ReadPhys(src, p) == Phys(kBadRecord, [], q, Some(n)) && r == ReadRec(src, q, false, false, [], 0)
    ensures ReadRec(src, p, false, false, [], 0) == AddReports([n], r)
  {
    assert [n] + [] == [n];
  }

  // What is read behind a record.
  function Rest(src: Source, r: Result): Reading {
    if r.found then ReadAll(src, r.next, false) else Reading([], [])
  }

  lemma FirstThen(src: Source, p: nat, r: Result, rest: Reading)
    requires r == ReadRec(src, p, false, false, [], 0) && rest == Rest(src, r)
    ensures ReadAll(src, p, false) == Reading(if r.found then [(r.record, r.offset)] + rest.records else [], r.reports + rest.reports)
  {
    assert r.reports + [] == r.reports;
  }

  // ---------------------------------------------------------------- nothing is made up

  // A fragment that is in the file with its checksum.
  predicate StoredAt(src: Source, h: nat, kind: int, data: Bytes) {
    0 <= kind < 256 && FitsHeader(data) && h + kHeaderSize + |data| <= |src.file| &&
    src.file[h..h + kHeaderSize + |data|] == Physical(src.crc, kind as Byte, data)
  }

  lemma {:induction false} FragmentIsStored(src: Source, p: nat) returns (h: nat)
    requires src.checksum && ReadPhys(src, p).kind !in {kEof, kBadRecord}
    ensures var ph := ReadPhys(src, p);
            p <= h && ph.next == h + kHeaderSize + |ph.data| && StoredAt(src, h, ph.kind, ph.data) && ph.dropped == None
    decreases Remaining(src.file, p)
  {
    var buffer := Window(src.file, p);
    if |buffer| < kHeaderSize {
      h := FragmentIsStored(src, BlockEnd(p));
    } else {
      h := p;
      BufferIsStored(src, p, buffer, BlockComplete(src.file, p));
    }
  }

  lemma BufferIsStored(src: Source, p: nat, buffer: Bytes, complete: bool)
    requires |buffer| >= kHeaderSize && buffer == Window(src.file, p) && src.checksum
    requires ParseBuffer(src, p, buffer, complete).kind !in {kEof, kBadRecord}
    ensures var ph := ParseBuffer(src, p, buffer, complete); StoredAt(src, p, ph.kind, ph.data) && ph.next == p + kHeaderSize + |ph.data| && ph.dropped == None
  {
    var n := kHeaderSize + Length(buffer);
    var data, kind := buffer[kHeaderSize..n], buffer[6];
    var whole := Physical(src.crc, kind, data);
    assert src.file[p..p + n] == buffer[..n];
    assert |whole| == n;
    forall i | 0 <= i < n ensures whole[i] == buffer[i] {
      if i < 4 { assert buffer[..4][i] == buffer[i]; }
    }
    assert buffer[..n] == whole;
  }

  // The fragments a record is made of: where they are, their types and their payloads.
  datatype Fragment = Fragment(at: nat, kind: int, data: Bytes)

  predicate ChainFrom(src: Source, p: nat, fragments: seq<Fragment>)
    decreases |fragments|
  {
    fragments != [] && p <= fragments[0].at && StoredAt(src, fragments[0].at, fragments[0].kind, fragments[0].data) &&
    if |fragments| == 1 then fragments[0].kind == kLastType
    else fragments[0].kind == kMiddleType && ChainFrom(src, fragments[0].at, fragments[1..])
  }

  function Joined(fragments: seq<Fragment>): Bytes {
    if fragments == [] then [] else fragments[0].data + Joined(fragments[1..])
  }

  // Stored as one full fragment, or as a first one, middle ones and a last one behind it.
  ghost predicate RecordStored(src: Source, p: nat, record: Bytes) {
    (exists h :: p <= h && StoredAt(src, h, kFullType, record)) ||
    exists f: Fragment, rest :: p <= f.at && f.kind == kFirstType && StoredAt(src, f.at, f.kind, f.data) && ChainFrom(src, f.at, rest) &&
      record == f.data + Joined(rest)
  }

  // A record that is found continues a chain begun before, or is stored from here on.
  ghost predicate Continues(src: Source, p: nat, scratch: Bytes, record: Bytes) {
    exists rest :: ChainFrom(src, p, rest) && record == scratch + Joined(rest)
  }

  lemma StoredLater(src: Source, p: nat, q: nat, record: Bytes)
    requires p <= q && RecordStored(src, q, record)
    ensures RecordStored(src, p, record)
  {
    if h :| q <= h && StoredAt(src, h, kFullType, record) {
      assert p <= h;
    } else {
      var f: Fragment, rest :| q <= f.at && f.kind == kFirstType && StoredAt(src, f.at, f.kind, f.data) && ChainFrom(src, f.at, rest) &&
        record == f.data + Joined(rest);
      assert p <= f.at;
    }
  }

  lemma OneMore(src: Source, p: nat, h: nat, q: nat, data: Bytes, scratch: Bytes, record: Bytes)
    requires p <= h <= q && StoredAt(src, h, kMiddleType, data) && Continues(src, q, scratch + data, record)
    ensures Continues(src, p, scratch, record)
  {
    var rest :| ChainFrom(src, q, rest) && record == (scratch + data) + Joined(rest);
    var all := [Fragment(h, kMiddleType, data)] + rest;
    assert all[0] == Fragment(h, kMiddleType, data) && all[1..] == rest;
    assert ChainFrom(src, h, rest);
    assert ChainFrom(src, p, all);
    assert Joined(all) == data + Joined(rest);
    assert (scratch + data) + Joined(rest) == scratch + (data + Joined(rest));
  }

  lemma LastOne(src: Source, p: nat, h: nat, data: Bytes, scratch: Bytes)
    requires p <= h && StoredAt(src, h, kLastType, data)
    ensures Continues(src, p, scratch, scratch + data)
  {
    var all := [Fragment(h, kLastType, data)];
    assert all[1..] == [] && Joined(all) == data + [] == data;
    assert ChainFrom(src, p, all);
  }

  lemma FirstOne(src: Source, p: nat, h: nat, q: nat, data: Bytes, record: Bytes)
    requires p <= h <= q && StoredAt(src, h, kFirstType, data) && Continues(src, q, data, record)
    ensures RecordStored(src, p, record)
  {
    var rest :| ChainFrom(src, q, rest) && record == data + Joined(rest);
    var f := Fragment(h, kFirstType, data);
    assert ChainFrom(src, f.at, rest);
    assert p <= f.at && f.kind == kFirstType && StoredAt(src, f.at, f.kind, f.data) && record == f.data + Joined(rest);
  }

  lemma {:induction false} RecIsStored(src: Source, p: nat, resyncing: bool, inFragmented: bool, scratch: Bytes, offset: nat)
    requires src.checksum && (inFragmented ==> offset >= src.initialOffset)
    ensures var r := ReadRec(src, p, resyncing, inFragmented, scratch, offset);
            r.found ==> RecordStored(src, p, r.record) || (inFragmented && Continues(src, p, scratch, r.record))
    decreases Remaining(src.file, p)
  {
    var ph := ReadPhys(src, p);
    var t := Dispatch(src, ph.kind, ph.data, ph.next, resyncing, inFragmented, scratch, offset);
    var h := p;
    if ph.kind !in {kEof, kBadRecord} { h := FragmentIsStored(src, p); }
    if t.More? {
      RecIsStored(src, ph.next, t.resyncing, t.inFragmented, t.scratch, t.offset);
      var r := ReadRec(src, ph.next, t.resyncing, t.inFragmented, t.scratch, t.offset);
      if r.found { MoreIsStored(src, p, h, ph.next, ph.kind, ph.data, resyncing, inFragmented, scratch, offset, t, r.record); }
    } else if t.found && ph.kind == kLastType {
      LastOne(src, p, h, ph.data, scratch);
    }
  }

  // A turn that goes on: the fragment starts a record, is taken into one, or is left out.
  lemma MoreIsStored(src: Source, p: nat, h: nat, q: nat, kind: int, data: Bytes, resyncing: bool, inFragmented: bool, scratch: Bytes,
                     offset: nat, t: Turn, record: Bytes)
    requires (inFragmented ==> offset >= src.initialOffset) && t.More? && p <= h <= q
    requires kind == kEof || kind == kBadRecord || (q >= src.initialOffset + kHeaderSize + |data| && StoredAt(src, h, kind, data))
    requires t == Dispatch(src, kind, data, q, resyncing, inFragmented, scratch, offset)
    requires RecordStored(src, q, record) || (t.inFragmented && Continues(src, q, t.scratch, record))
    ensures RecordStored(src, p, record) || (inFragmented && Continues(src, p, scratch, record))
  {
    if RecordStored(src, q, record) {
      StoredLater(src, p, q, record);
    } else if kind == kFirstType {
      FirstOne(src, p, h, q, data, record);
    } else if kind == kMiddleType && t.scratch == scratch + data && inFragmented && !resyncing {
      OneMore(src, p, h, q, data, scratch, record);
    } else {
      LeftOut(src, p, q, scratch, record);
    }
  }

  lemma LeftOut(src: Source, p: nat, q: nat, scratch: Bytes, record: Bytes)
    requires p <= q
    ensures Continues(src, q, scratch, record) ==> Continues(src, p, scratch, record)
  {
    if Continues(src, q, scratch, record) {
      var rest :| ChainFrom(src, q, rest) && record == scratch + Joined(rest);
      assert ChainFrom(src, p, rest);
    }
  }

  // With checksums on, whatever the file holds, the reader returns nothing but records that are stored in
  // it, fragment by fragment with their checksums.
  lemma {:induction false} OnlyStoredRecords(src: Source, p: nat, resyncing: bool, i: nat)
    requires src.checksum && i < |ReadAll(src, p, resyncing).records|
    ensures RecordStored(src, p, ReadAll(src, p, resyncing).records[i].0)
    decreases Remaining(src.file, p)
  {
    var r := ReadRec(src, p, resyncing, false, [], 0);
    RecIsStored(src, p, resyncing, false, [], 0);
    if i > 0 {
      OnlyStoredRecords(src, r.next, false, i - 1);
      StoredLater(src, p, r.next, ReadAll(src, r.next, false).records[i - 1].0);
    }
  }

  // ---------------------------------------------------------------- what lies before the initial offset

  lemma {:induction false} DroppedFits(src: Source, p: nat)
    ensures var ph := ReadPhys(src, p);
            (ph.kind != kEof ==> p + |ph.data| <= ph.next <= |src.file|) && (ph.dropped.Some? ==> 0 < ph.dropped.value <= ph.next <= |src.file|)
    decreases Remaining(src.file, p)
  {
    var buffer := Window(src.file, p);
    if |buffer| < kHeaderSize && BlockComplete(src.file, p) { DroppedFits(src, BlockEnd(p)); }
  }

  lemma {:induction false} RecordIsQuiet(src: Source, p: nat, resyncing: bool, inFragmented: bool, scratch: Bytes, offset: nat)
    requires src.initialOffset > |src.file| && |scratch| <= p && !inFragmented
    ensures var r := ReadRec(src, p, resyncing, inFragmented, scratch, offset); !r.found && r.reports == []
    decreases Remaining(src.file, p)
  {
    var ph := ReadPhys(src, p);
    DroppedFits(src, p);
    assert PhysReport(src, ph) == [];
    if ph.kind == kBadRecord { RecordIsQuiet(src, ph.next, false, false, scratch, offset); }
  }

  // Nothing that lies before the initial offset is returned or reported: an offset behind the end silences
  // the whole file, whatever it holds.
  lemma BehindTheEnd(src: Source, p: nat, resyncing: bool)
    requires src.initialOffset > |src.file|
    ensures ReadAll(src, p, resyncing) == Reading([], [])
  {
    RecordIsQuiet(src, p, resyncing, false, [], 0);
  }
}
