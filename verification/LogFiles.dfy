/**
 The log files of the engine, byte by byte: what LogFile and Append stand for.
 */
module LogFiles {
  import opened Coding
  import opened InternalKeys
  import opened Options
  import opened History
  import opened Engine
  import opened LogFormat
  import opened LogReader
  import opened LogTheorems
  import opened LogAppends
  import WriteBatches

  // The place of a key in the order of the user comparator.
  type Place = Bytes -> UserKey

  function OpOf(place: Place, op: WriteBatches.Op): WriteOp {
    WriteOp(place(op.key), op.Put?, if op.Put? then op.value else [])
  }

  function OpsOf(place: Place, ops: seq<WriteBatches.Op>): seq<WriteOp> {
    seq(|ops|, i requires 0 <= i < |ops| => OpOf(place, ops[i]))
  }

  // A payload as RecoverLogFile takes it: a batch, or too short for one.
  function RecordsOf(place: Place, payloads: seq<Bytes>): seq<Record> {
    if payloads == [] then [] else RecordIn(place, payloads[0]) + RecordsOf(place, payloads[1..])
  }

  function RecordIn(place: Place, payload: Bytes): seq<Record> {
    if |payload| < WriteBatches.kHeader then []
    else [Record(WriteBatches.SequenceField(payload), OpsOf(place, WriteBatches.IterateOf(payload).calls))]
  }

  // The records that the engine finds in a file.
  function Readable(place: Place, crc: Crc, file: Bytes): seq<Record> {
    RecordsOf(place, Payloads(ReadAll(Source(crc, true, file, 0), 0, false).records))
  }

  // A file that was cut at n.
  function CutFile(place: Place, crc: Crc, records: seq<Bytes>, n: nat): LogFile
    requires n <= |LogFrom(crc, 0, records)|
  {
    LogFile(Readable(place, crc, LogFrom(crc, 0, records)[..n]), Tear(0, records, n).Some?)
  }

  // The batch of a group is the engine's record of it.
  lemma BatchIsRecord(place: Place, payload: Bytes, seqno: nat, ops: seq<WriteBatches.Op>)
    requires WriteBatches.Holds(payload, seqno, ops) && WriteBatches.OpsOk(ops)
    ensures RecordsOf(place, [payload]) == [Record(seqno, OpsOf(place, ops))]
  {
    WriteBatches.IterateRoundTrip(payload, seqno, ops);
  }

  lemma PrefixRead(src: Source, records: seq<Bytes>) returns (k: nat)
    requires src.file <= LogFrom(src.crc, 0, records) && src.initialOffset == 0
    ensures k <= |records| && |LogFrom(src.crc, 0, records[..k])| <= |src.file|
    ensures k < |records| ==> |src.file| < |LogFrom(src.crc, 0, records[..k + 1])|
    ensures Payloads(ReadAll(src, 0, false).records) == records[..k]
  {
    TornLog(src, records);
    k := |Payloads(ReadAll(src, 0, false).records)|;
  }

  // A cut leaves the longest prefix of the records that is wholly in the file.
  lemma CutFileHas(place: Place, crc: Crc, records: seq<Bytes>, n: nat) returns (k: nat)
    requires n <= |LogFrom(crc, 0, records)|
    ensures k <= |records| && |LogFrom(crc, 0, records[..k])| <= n && (k < |records| ==> n < |LogFrom(crc, 0, records[..k + 1])|)
    ensures CutFile(place, crc, records, n).records == RecordsOf(place, records[..k])
  {
    k := PrefixRead(Source(crc, true, LogFrom(crc, 0, records)[..n], 0), records);
  }

  lemma {:induction false} RecordsConcat(place: Place, a: seq<Bytes>, b: seq<Bytes>)
    ensures RecordsOf(place, a + b) == RecordsOf(place, a) + RecordsOf(place, b)
  {
    if a == [] {
      assert a + b == b;
    } else {
      RecordsConcat(place, a[1..], b);
      TailOfConcat(a, b);
      ConcatAssociates(RecordIn(place, a[0]), RecordsOf(place, a[1..]), RecordsOf(place, b));
    }
  }

  // A record written behind the cut is what Append says: the log as it was, if a fragment is torn and the
  // record starts in its block, or else one record more.
  lemma AppendedFile(place: Place, crc: Crc, records: seq<Bytes>, n: nat, payload: Bytes, r: Record)
    requires n <= |LogFrom(crc, 0, records)| && RecordsOf(place, [payload]) == [r]
    requires var tear, file := Tear(0, records, n), LogFrom(crc, 0, records)[..n] + Layout(crc, n, payload, true);
             tear.Some? ==> TearShows(Source(crc, true, file, 0), tear.value)
    ensures var l, lost := CutFile(place, crc, records, n), Tear(0, records, n).Some? && Left(n) >= kHeaderSize;
            Readable(place, crc, LogFrom(crc, 0, records)[..n] + Layout(crc, n, payload, true)) == Append(l, r, lost).records &&
            (lost ==> l.torn)
  {
    var before, tear := LogFrom(crc, 0, records)[..n], Tear(0, records, n);
    var src := Source(crc, true, before + Layout(crc, n, payload, true), 0);
    var s := if tear.None? then 0 else BlockEnd(tear.value);
    assert LogFrom(crc, n, [payload]) == Layout(crc, n, payload, true);
    TornAppend(src, records, n, [payload]);
    ReadFromStart(Source(crc, true, before, 0), records);
    LayoutLength(crc, n, payload, true);
    PayloadsConcat(RecordsIn(0, records, n, 0), RecordsIn(n, [payload], |src.file|, s));
    RecordsConcat(place, Payloads(RecordsIn(0, records, n, 0)), Payloads(RecordsIn(n, [payload], |src.file|, s)));
    if tear.Some? {
      TearIsBefore(0, records, n);
      InTornBlock(tear.value, n);
    }
    assert RecordsIn(n, [payload], |src.file|, s) == if HeaderAt(n) >= s then [(payload, HeaderAt(n))] else [];
  }
}
