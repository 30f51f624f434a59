/**
 Nothing is dropped silently (log_reader.cc:57-272): of every log file that is read from its start, each
 byte of an intact fragment is returned in a record, reported, or belongs to a record whose end is missing
 at the end of the file.  The one exception is a fragment of type 6, which the reader takes for its own
 mark of a bad record.
 */
module LogReports {
  import opened Coding
  import opened LogFormat
  import opened LogReader
  import opened LogAppends
  import opened Options

  function Sum(reports: seq<nat>): nat {
    if reports == [] then 0 else reports[0] + Sum(reports[1..])
  }

  lemma {:induction false} SumOfConcat(a: seq<nat>, b: seq<nat>)
    ensures Sum(a + b) == Sum(a) + Sum(b)
    decreases |a|
  {
    if a == [] {
      assert a + b == b;
    } else {
      TailOfConcat(a, b);
      SumOfConcat(a[1..], b);
    }
  }

  function Sizes(records: seq<(Bytes, nat)>): nat {
    if records == [] then 0 else |records[0].0| + Sizes(records[1..])
  }

  function DroppedOf(ph: Phys): nat { if ph.dropped.Some? then ph.dropped.value else 0 }

  // The payloads of the intact fragments from p on, and the bytes that go with damaged ones.
  function Supply(src: Source, p: nat): nat
    decreases Remaining(src.file, p)
  {
    var ph := ReadPhys(src, p);
    if ph.kind == kEof then 0 else |ph.data| + DroppedOf(ph) + Supply(src, ph.next)
  }

  // The payloads of type 6.
  function Silent(src: Source, p: nat): nat
    decreases Remaining(src.file, p)
  {
    var ph := ReadPhys(src, p);
    if ph.kind == kEof then 0 else (if ph.kind == kBadRecord then |ph.data| else 0) + Silent(src, ph.next)
  }

  // What has been gathered of a record whose end is missing at the end of the file, if the reader finds
  // no other.
  function Unfinished(src: Source, p: nat, inFragmented: bool, scratch: Bytes, offset: nat): Bytes
    requires src.initialOffset == 0
    decreases Remaining(src.file, p)
  {
    var ph := ReadPhys(src, p);
    match Dispatch(src, ph.kind, ph.data, ph.next, false, inFragmented, scratch, offset)
    case Done(_, _, _, _) => if ph.kind == kEof then scratch else []
    case More(_, inFragmented, scratch, offset, _) => Unfinished(src, ph.next, inFragmented, scratch, offset)
  }

  lemma SumOfOne(n: nat)
    ensures Sum([n]) == n
  {
    assert [n][1..] == [];
  }

  // One turn of the loop neither loses nor invents a byte.
  lemma TurnBalances(src: Source, p: nat, inFragmented: bool, scratch: Bytes, offset: nat, ph: Phys, t: Turn)
    requires src.initialOffset == 0 && (!inFragmented ==> scratch == []) && ph == ReadPhys(src, p) && ph.kind != kEof
    requires t == Dispatch(src, ph.kind, ph.data, ph.next, false, inFragmented, scratch, offset)
    ensures Sum(t.said) + (if t.Done? then |t.record| else |t.scratch|) == (if ph.kind == kBadRecord then 0 else |ph.data|) + |scratch|
    ensures Sum(PhysReport(src, ph)) == DroppedOf(ph)
    ensures t.More? ==> !t.resyncing && (!t.inFragmented ==> t.scratch == [])
    ensures t.Done? ==> t.found
  {
    SumOfOne(DroppedOf(ph));
    SumOfOne(|scratch|);
    SumOfOne(|ph.data|);
    SumOfOne(|ph.data| + |scratch|);
  }

  // What a ReadRecord returns, reports, leaves unfinished and leaves for later is what there was.
  lemma {:induction false} RecordBalances(src: Source, p: nat, inFragmented: bool, scratch: Bytes, offset: nat)
    requires src.initialOffset == 0 && (!inFragmented ==> scratch == [])
    ensures var r := ReadRec(src, p, false, inFragmented, scratch, offset);
            Supply(src, p) + |scratch| + (if r.found then Silent(src, r.next) else 0) ==
            Sum(r.reports) + Silent(src, p) + if r.found then |r.record| + Supply(src, r.next) else |Unfinished(src, p, inFragmented, scratch, offset)|
    decreases Remaining(src.file, p)
  {
    var ph := ReadPhys(src, p);
    var t := Dispatch(src, ph.kind, ph.data, ph.next, false, inFragmented, scratch, offset);
    if ph.kind == kEof {
      EofSaysNothing(src, p);
    } else {
      TurnBalances(src, p, inFragmented, scratch, offset, ph, t);
      SumOfConcat(PhysReport(src, ph), t.said);
      if t.More? {
        var r := ReadRec(src, ph.next, false, t.inFragmented, t.scratch, t.offset);
        SumOfConcat(PhysReport(src, ph) + t.said, r.reports);
        RecordBalances(src, ph.next, t.inFragmented, t.scratch, t.offset);
      }
    }
  }

  lemma {:induction false} EofSaysNothing(src: Source, p: nat)
    requires ReadPhys(src, p).kind == kEof
    ensures ReadPhys(src, p).dropped == None || ReadPhys(src, p).data != []
    decreases Remaining(src.file, p)
  {
    var buffer := Window(src.file, p);
    if |buffer| < kHeaderSize && BlockComplete(src.file, p) { EofSaysNothing(src, BlockEnd(p)); }
  }

  function UnfinishedAtEnd(src: Source, p: nat): Bytes
    requires src.initialOffset == 0
    decreases Remaining(src.file, p)
  {
    var r := ReadRec(src, p, false, false, [], 0);
    if r.found then UnfinishedAtEnd(src, r.next) else Unfinished(src, p, false, [], 0)
  }

  // All that a log file supplies is returned, reported or unfinished, but for the payloads of type 6: so
  // nothing is dropped silently if and only if there are none.
  lemma {:induction false} LogBalances(src: Source, p: nat)
    requires src.initialOffset == 0
    ensures var all := ReadAll(src, p, false);
            Supply(src, p) == Sizes(all.records) + Sum(all.reports) + |UnfinishedAtEnd(src, p)| + Silent(src, p)
    decreases Remaining(src.file, p)
  {
    var r := ReadRec(src, p, false, false, [], 0);
    RecordBalances(src, p, false, [], 0);
    if r.found {
      LogBalances(src, r.next);
      FirstRecord(src, p, r, ReadAll(src, r.next, false));
    }
  }

  lemma FirstRecord(src: Source, p: nat, r: Result, rest: Reading)
    requires r == ReadRec(src, p, false, false, [], 0) && r.found && rest == ReadAll(src, r.next, false)
    ensures var all := ReadAll(src, p, false);
            Sizes(all.records) == |r.record| + Sizes(rest.records) && Sum(all.reports) == Sum(r.reports) + Sum(rest.reports)
  {
    SumOfConcat(r.reports, rest.reports);
    var records := [(r.record, r.offset)] + rest.records;
    assert records[1..] == rest.records;
  }

  // An intact fragment of type 6 at the end of a file is such a payload.
  lemma TypeSixIsSilent(src: Source, before: Bytes, data: Bytes)
    requires src.initialOffset == 0 && FitsHeader(data) && kHeaderSize + |data| <= Left(|before|)
    requires src.file == before + Physical(src.crc, kBadRecord, data)
    ensures Supply(src, |before|) == Silent(src, |before|) == |data|
  {
    assert src.file == before + Physical(src.crc, kBadRecord, data) + [];
    IntactPhys(src, before, kBadRecord, data, []);
    OneFragment(src, |before|, Phys(kBadRecord, data, |src.file|, None));
  }

  lemma OneFragment(src: Source, p: nat, ph: Phys)
    requires ReadPhys(src, p) == ph && ph.kind == kBadRecord && ph.next >= |src.file| && ph.dropped == None
    ensures Supply(src, p) == Silent(src, p) == |ph.data|
  {
    AtEnd(src, ph.next);
  }

  lemma AtEnd(src: Source, p: nat)
    requires p >= |src.file|
    ensures ReadPhys(src, p).kind == kEof && Supply(src, p) == Silent(src, p) == 0
  {
  }
}
