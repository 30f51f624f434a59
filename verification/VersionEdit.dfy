/**
 Version edits (version_edit.h, version_edit.cc): the records of the MANIFEST.
 */
module VersionEdits {
  import opened Coding
  import opened Options

  const kNumLevels := 7

  const kComparator := 1
  const kLogNumber := 2
  const kNextFileNumber := 3
  const kLastSequence := 4
  const kCompactPointer := 5
  const kDeletedFile := 6
  const kNewFile := 7
  const kPrevLogNumber := 9

  datatype FileMetaData = FileMetaData(number: nat, fileSize: nat, smallest: Bytes, largest: Bytes)

  // The value of an edit; each has_ flag and its field make one option, and the std::set of deleted
  // files is kept in its order of iteration.
  datatype Edit = Edit(
    comparator: Option<Bytes>, logNumber: Option<nat>, prevLogNumber: Option<nat>,
    nextFileNumber: Option<nat>, lastSequence: Option<nat>,
    compactPointers: seq<(nat, Bytes)>, deletedFiles: seq<(nat, nat)>, newFiles: seq<(nat, FileMetaData)>)

  const EMPTY := Edit(None, None, None, None, None, [], [], [])

  // ---------------------------------------------------------------- the deleted files

  predicate Less(a: (nat, nat), b: (nat, nat)) { a.0 < b.0 || (a.0 == b.0 && a.1 < b.1) }

  predicate Ascending(s: seq<(nat, nat)>) { forall i, j :: 0 <= i < j < |s| ==> Less(s[i], s[j]) }

  // std::set::insert
  function SetInsert(s: seq<(nat, nat)>, x: (nat, nat)): (r: seq<(nat, nat)>)
    ensures forall y :: y in r <==> y == x || y in s
  {
    if s == [] then [x]
    else if s[0] == x then s
    else if Less(x, s[0]) then [x] + s
    else
      var t := SetInsert(s[1..], x);
      assert s == [s[0]] + s[1..];
      [s[0]] + t
  }

  lemma {:induction false} InsertKeepsAscending(s: seq<(nat, nat)>, x: (nat, nat))
    requires Ascending(s)
    ensures Ascending(SetInsert(s, x))
  {
    if s != [] && s[0] != x && !Less(x, s[0]) {
      InsertKeepsAscending(s[1..], x);
      var t := SetInsert(s[1..], x);
      forall j | 0 <= j < |t| ensures Less(s[0], t[j]) {
        assert t[j] in t;
        if t[j] != x {
          var k :| 0 <= k < |s[1..]| && s[1..][k] == t[j];
          assert Less(s[0], s[k + 1]);
        }
      }
    }
  }

  lemma {:induction false} InsertAtEnd(s: seq<(nat, nat)>, x: (nat, nat))
    requires forall i :: 0 <= i < |s| ==> Less(s[i], x)
    ensures SetInsert(s, x) == s + [x]
  {
    if s != [] {
      InsertAtEnd(s[1..], x);
      assert s == [s[0]] + s[1..];
    }
  }

  // ---------------------------------------------------------------- records

  datatype Record =
    | Comparator(name: Bytes)
    | LogNumber(number: nat)
    | PrevLogNumber(number: nat)
    | NextFileNumber(number: nat)
    | LastSequence(number: nat)
    | CompactPointer(level: nat, key: Bytes)
    | DeletedFile(level: nat, number: nat)
    | NewFile(level: nat, file: FileMetaData)

  // What a record is written as: varints and length-prefixed slices.
  datatype Part = Number(n: nat) | Slice(s: Bytes)

  function PartsOf(r: Record): (ps: seq<Part>)
    ensures ps != []
  {
    match r
    case Comparator(name) => [Number(kComparator), Slice(name)]
    case LogNumber(n) => [Number(kLogNumber), Number(n)]
    case PrevLogNumber(n) => [Number(kPrevLogNumber), Number(n)]
    case NextFileNumber(n) => [Number(kNextFileNumber), Number(n)]
    case LastSequence(n) => [Number(kLastSequence), Number(n)]
    case CompactPointer(level, key) => [Number(kCompactPointer), Number(level), Slice(key)]
    case DeletedFile(level, n) => [Number(kDeletedFile), Number(level), Number(n)]
    case NewFile(level, f) =>
      [Number(kNewFile), Number(level), Number(f.number), Number(f.fileSize), Slice(f.smallest), Slice(f.largest)]
  }

  function EncodePart(p: Part): Bytes {
    match p
    case Number(n) => EncodeVarint(n)
    case Slice(s) => PutLengthPrefixed(s)
  }

  function EncodeParts(ps: seq<Part>): Bytes {
    if ps == [] then [] else EncodePart(ps[0]) + EncodeParts(ps[1..])
  }

  function EncodeRecord(r: Record): Bytes { EncodeParts(PartsOf(r)) }

  predicate U64(n: nat) { n < 0x1_0000_0000_0000_0000 }

  // What EncodeTo's callers guarantee: InternalKey::Encode asserts that a key is not empty.
  predicate KeyOk(key: Bytes) { key != [] && FitsSlice(key) }

  predicate RecordOk(r: Record) {
    match r
    case Comparator(name) => FitsSlice(name)
    case CompactPointer(level, key) => level < kNumLevels && KeyOk(key)
    case DeletedFile(level, n) => level < kNumLevels && U64(n)
    case NewFile(level, f) => level < kNumLevels && U64(f.number) && U64(f.fileSize) && KeyOk(f.smallest) && KeyOk(f.largest)
    case _ => U64(r.number)
  }

  datatype Message =
    | ComparatorName | LogNumberMsg | PreviousLogNumber | NextFile | LastSequenceNumber
    | CompactionPointer | DeletedFileMsg | NewFileEntry | UnknownTag | InvalidTag

  datatype Parse = Next(record: Record, rest: Bytes) | Bad(msg: Message)

  function TakeLevel(s: Bytes): (r: (bool, nat, Bytes))
    ensures r.0 ==> |r.2| < |s| && r.1 < kNumLevels
  {
    var (ok, v, rest) := TakeVarint32(s);
    if ok && v < kNumLevels then (true, v, rest) else (false, 0, s)
  }

  function TakeNumber(s: Bytes): (r: (bool, nat, Bytes))
    ensures r.0 ==> |r.2| < |s|
  {
    TakeVarint64(s)
  }

  // The fields of a record, after its tag.
  function ParseFields(tag: nat, s: Bytes): (r: Parse)
    ensures r.Next? ==> |r.rest| < |s|
  {
    if tag == kCompactPointer then ParseCompactPointer(s)
    else if tag == kDeletedFile then ParseDeletedFile(s)
    else if tag == kNewFile then ParseNewFile(s)
    else if tag == kComparator then ParseComparator(s)
    else if tag in {kLogNumber, kPrevLogNumber, kNextFileNumber, kLastSequence} then ParseNumber(tag, s)
    else Bad(UnknownTag)
  }

  function ParseComparator(s: Bytes): (r: Parse)
    ensures r.Next? ==> |r.rest| < |s|
  {
    var (ok, name, rest) := TakeSlice(s);
    if ok then Next(Comparator(name), rest) else Bad(ComparatorName)
  }

  function ParseNumber(tag: nat, s: Bytes): (r: Parse)
    requires tag in {kLogNumber, kPrevLogNumber, kNextFileNumber, kLastSequence}
    ensures r.Next? ==> |r.rest| < |s|
  {
    var (ok, n, rest) := TakeNumber(s);
    if tag == kLogNumber then (if ok then Next(LogNumber(n), rest) else Bad(LogNumberMsg))
    else if tag == kPrevLogNumber then (if ok then Next(PrevLogNumber(n), rest) else Bad(PreviousLogNumber))
    else if tag == kNextFileNumber then (if ok then Next(NextFileNumber(n), rest) else Bad(NextFile))
    else if ok then Next(LastSequence(n), rest) else Bad(LastSequenceNumber)
  }

  function ParseCompactPointer(s: Bytes): (r: Parse)
    ensures r.Next? ==> |r.rest| < |s|
  {
    var (ok, level, s1) := TakeLevel(s);
    if !ok then Bad(CompactionPointer) else
    var (ok', key, s2) := TakeSlice(s1);
    if ok' then Next(CompactPointer(level, key), s2) else Bad(CompactionPointer)
  }

  function ParseDeletedFile(s: Bytes): (r: Parse)
    ensures r.Next? ==> |r.rest| < |s|
  {
    var (ok, level, s1) := TakeLevel(s);
    if !ok then Bad(DeletedFileMsg) else
    var (ok', n, s2) := TakeNumber(s1);
    if ok' then Next(DeletedFile(level, n), s2) else Bad(DeletedFileMsg)
  }

  function ParseNewFile(s: Bytes): (r: Parse)
    ensures r.Next? ==> |r.rest| < |s|
  {
    var (ok0, level, s1) := TakeLevel(s);
    if !ok0 then Bad(NewFileEntry) else
    var (ok1, number, s2) := TakeNumber(s1);
    if !ok1 then Bad(NewFileEntry) else
    var (ok2, size, s3) := TakeNumber(s2);
    if !ok2 then Bad(NewFileEntry) else
    var (ok3, smallest, s4) := TakeSlice(s3);
    if !ok3 then Bad(NewFileEntry) else
    var (ok4, largest, s5) := TakeSlice(s4);
    if ok4 then Next(NewFile(level, FileMetaData(number, size, smallest, largest)), s5) else Bad(NewFileEntry)
  }

  // ---------------------------------------------------------------- decoding

  function Apply(e: Edit, r: Record): Edit {
    match r
    case Comparator(name) => e.(comparator := Some(name))
    case LogNumber(n) => e.(logNumber := Some(n))
    case PrevLogNumber(n) => e.(prevLogNumber := Some(n))
    case NextFileNumber(n) => e.(nextFileNumber := Some(n))
    case LastSequence(n) => e.(lastSequence := Some(n))
    case CompactPointer(level, key) => e.(compactPointers := e.compactPointers + [(level, key)])
    case DeletedFile(level, n) => e.(deletedFiles := SetInsert(e.deletedFiles, (level, n)))
    case NewFile(level, f) => e.(newFiles := e.newFiles + [(level, f)])
  }

  datatype Status = OK | Corruption(msg: Message)

  // What decoding makes of an edit, and how it ends.
  function Decode(e: Edit, s: Bytes): (Edit, Status)
    decreases |s|
  {
    var (ok, tag, s1) := TakeVarint32(s);
    if !ok then (e, if s == [] then OK else Corruption(InvalidTag))
    else match ParseFields(tag, s1)
      case Next(r, rest) => Decode(Apply(e, r), rest)
      case Bad(msg) => (e, Corruption(msg))
  }

  // Clear leaves the compaction pointers alone.
  function Cleared(e: Edit): Edit { EMPTY.(compactPointers := e.compactPointers) }

  // ---------------------------------------------------------------- encoding

  function One<T>(o: Option<T>, make: T -> Record): seq<Record> {
    if o.Some? then [make(o.value)] else []
  }

  function SimpleRecords(e: Edit): seq<Record> {
    One(e.comparator, n => Comparator(n)) + One(e.logNumber, n => LogNumber(n)) + One(e.prevLogNumber, n => PrevLogNumber(n))
    + One(e.nextFileNumber, n => NextFileNumber(n)) + One(e.lastSequence, n => LastSequence(n))
  }

  function RecordsOf(e: Edit): seq<Record> {
    SimpleRecords(e) + PointerRecords(e.compactPointers) + DeletedRecords(e.deletedFiles) + NewRecords(e.newFiles)
  }

  function PointerRecords(s: seq<(nat, Bytes)>): (r: seq<Record>)
    ensures |r| == |s|
  {
    seq(|s|, i requires 0 <= i < |s| => CompactPointer(s[i].0, s[i].1))
  }

  function DeletedRecords(s: seq<(nat, nat)>): (r: seq<Record>)
    ensures |r| == |s|
  {
    seq(|s|, i requires 0 <= i < |s| => DeletedFile(s[i].0, s[i].1))
  }

  function NewRecords(s: seq<(nat, FileMetaData)>): (r: seq<Record>)
    ensures |r| == |s|
  {
    seq(|s|, i requires 0 <= i < |s| => NewFile(s[i].0, s[i].1))
  }

  function EncodeRecords(rs: seq<Record>): Bytes {
    if rs == [] then [] else EncodeRecords(rs[..|rs| - 1]) + EncodeRecord(rs[|rs| - 1])
  }

  predicate RecordsOk(rs: seq<Record>) { forall i :: 0 <= i < |rs| ==> RecordOk(rs[i]) }

  predicate EditOk(e: Edit) { RecordsOk(RecordsOf(e)) && Ascending(e.deletedFiles) }

  // ---------------------------------------------------------------- the round trip

  lemma NumberRoundTrip(n: nat, rest: Bytes)
    requires U64(n)
    ensures TakeNumber(EncodeVarint(n) + rest) == (true, n, rest)
  {
    TakeVarint64RoundTrip(n, rest);
  }

  lemma LevelRoundTrip(level: nat, rest: Bytes)
    requires level < kNumLevels
    ensures TakeLevel(EncodeVarint(level) + rest) == (true, level, rest)
  {
    TakeVarint32RoundTrip(level, rest);
  }

  lemma PartsStep(p: Part, ps: seq<Part>, rest: Bytes)
    ensures EncodeParts([p] + ps) + rest == EncodePart(p) + (EncodeParts(ps) + rest)
  {
    assert ([p] + ps)[1..] == ps;
    ConcatAssociates(EncodePart(p), EncodeParts(ps), rest);
  }

  lemma OnePart(p: Part, rest: Bytes)
    ensures EncodeParts([p]) + rest == EncodePart(p) + rest
  {
    PartsStep(p, [], rest);
    assert [p] + [] == [p] && [] + rest == rest;
  }

  function TagOf(r: Record): nat { PartsOf(r)[0].n }

  function FieldsOf(r: Record): Bytes { EncodeParts(PartsOf(r)[1..]) }

  lemma FieldsRoundTrip(r: Record, rest: Bytes)
    requires RecordOk(r)
    ensures ParseFields(TagOf(r), FieldsOf(r) + rest) == Next(r, rest)
  {
    if r.CompactPointer? {
      CompactPointerRoundTrip(r, rest);
    } else if r.DeletedFile? {
      DeletedFileRoundTrip(r, rest);
    } else if r.NewFile? {
      NewFileRoundTrip(r, rest);
    } else {
      SimpleRoundTrip(r, rest);
    }
  }

  lemma SimpleRoundTrip(r: Record, rest: Bytes)
    requires RecordOk(r) && !r.CompactPointer? && !r.DeletedFile? && !r.NewFile?
    ensures ParseFields(TagOf(r), FieldsOf(r) + rest) == Next(r, rest)
  {
    OnePart(PartsOf(r)[1], rest);
    assert PartsOf(r)[1..] == [PartsOf(r)[1]];
    if r.Comparator? {
      TakeSliceRoundTrip(r.name, rest);
    } else {
      NumberRoundTrip(r.number, rest);
    }
  }

  lemma CompactPointerRoundTrip(r: Record, rest: Bytes)
    requires RecordOk(r) && r.CompactPointer?
    ensures ParseFields(TagOf(r), FieldsOf(r) + rest) == Next(r, rest)
  {
    var last := Slice(r.key);
    assert PartsOf(r)[1..] == [Number(r.level)] + [last];
    PartsStep(Number(r.level), [last], rest);
    OnePart(last, rest);
    LevelRoundTrip(r.level, EncodePart(last) + rest);
    TakeSliceRoundTrip(r.key, rest);
  }

  lemma DeletedFileRoundTrip(r: Record, rest: Bytes)
    requires RecordOk(r) && r.DeletedFile?
    ensures ParseFields(TagOf(r), FieldsOf(r) + rest) == Next(r, rest)
  {
    var last := Number(r.number);
    assert PartsOf(r)[1..] == [Number(r.level)] + [last];
    PartsStep(Number(r.level), [last], rest);
    OnePart(last, rest);
    LevelRoundTrip(r.level, EncodePart(last) + rest);
    NumberRoundTrip(r.number, rest);
  }

  lemma NewFileRoundTrip(r: Record, rest: Bytes)
    requires RecordOk(r) && r.NewFile?
    ensures ParseNewFile(FieldsOf(r) + rest) == Next(r, rest)
  {
    var f := r.file;
    var p1, p2, p3, p4, p5 := Number(r.level), Number(f.number), Number(f.fileSize), Slice(f.smallest), Slice(f.largest);
    assert PartsOf(r)[1..] == [p1] + ([p2] + ([p3] + ([p4] + [p5])));
    PartsStep(p1, [p2] + ([p3] + ([p4] + [p5])), rest);
    PartsStep(p2, [p3] + ([p4] + [p5]), rest);
    PartsStep(p3, [p4] + [p5], rest);
    PartsStep(p4, [p5], rest);
    OnePart(p5, rest);
    var e := EncodePart(p5) + rest;
    var d := EncodePart(p4) + e;
    var c := EncodePart(p3) + d;
    LevelRoundTrip(r.level, EncodePart(p2) + c);
    NumberRoundTrip(f.number, c);
    NumberRoundTrip(f.fileSize, d);
    TakeSliceRoundTrip(f.smallest, e);
    TakeSliceRoundTrip(f.largest, rest);
  }

  lemma RecordRoundTrip(e: Edit, r: Record, rest: Bytes)
    requires RecordOk(r)
    ensures Decode(e, EncodeRecord(r) + rest) == Decode(Apply(e, r), rest)
  {
    assert PartsOf(r) == [PartsOf(r)[0]] + PartsOf(r)[1..];
    PartsStep(PartsOf(r)[0], PartsOf(r)[1..], rest);
    TakeVarint32RoundTrip(TagOf(r), FieldsOf(r) + rest);
    FieldsRoundTrip(r, rest);
  }

  function ApplyAll(e: Edit, rs: seq<Record>): Edit {
    if rs == [] then e else Apply(ApplyAll(e, rs[..|rs| - 1]), rs[|rs| - 1])
  }

  // Decoding applies the encoded records one after the other.
  lemma {:induction false} DecodeApplies(e: Edit, rs: seq<Record>, rest: Bytes)
    requires RecordsOk(rs)
    ensures Decode(e, EncodeRecords(rs) + rest) == Decode(ApplyAll(e, rs), rest)
    decreases |rs|
  {
    if rs == [] {
      assert EncodeRecords(rs) + rest == rest;
    } else {
      var n := |rs| - 1;
      ConcatAssociates(EncodeRecords(rs[..n]), EncodeRecord(rs[n]), rest);
      DecodeApplies(e, rs[..n], EncodeRecord(rs[n]) + rest);
      RecordRoundTrip(ApplyAll(e, rs[..n]), rs[n], rest);
    }
  }

  lemma {:induction false} ApplyConcat(e: Edit, a: seq<Record>, b: seq<Record>)
    ensures ApplyAll(e, a + b) == ApplyAll(ApplyAll(e, a), b)
    decreases |b|
  {
    if b == [] {
      assert a + b == a;
    } else {
      var n := |b| - 1;
      ApplyConcat(e, a, b[..n]);
      assert (a + b)[..|a + b| - 1] == a + b[..n];
    }
  }

  lemma {:induction false} ApplyPointers(e: Edit, s: seq<(nat, Bytes)>)
    ensures ApplyAll(e, PointerRecords(s)) == e.(compactPointers := e.compactPointers + s)
    decreases |s|
  {
    if s == [] {
      assert e.compactPointers + s == e.compactPointers;
    } else {
      var n := |s| - 1;
      ApplyPointers(e, s[..n]);
      assert PointerRecords(s)[..n] == PointerRecords(s[..n]);
      assert s == s[..n] + [s[n]];
      ConcatAssociates(e.compactPointers, s[..n], [s[n]]);
    }
  }

  lemma {:induction false} ApplyNewFiles(e: Edit, s: seq<(nat, FileMetaData)>)
    ensures ApplyAll(e, NewRecords(s)) == e.(newFiles := e.newFiles + s)
    decreases |s|
  {
    if s == [] {
      assert e.newFiles + s == e.newFiles;
    } else {
      var n := |s| - 1;
      ApplyNewFiles(e, s[..n]);
      assert NewRecords(s)[..n] == NewRecords(s[..n]);
      assert s == s[..n] + [s[n]];
      ConcatAssociates(e.newFiles, s[..n], [s[n]]);
    }
  }

  lemma {:induction false} ApplyDeleted(e: Edit, s: seq<(nat, nat)>)
    requires e.deletedFiles == [] && Ascending(s)
    ensures ApplyAll(e, DeletedRecords(s)) == e.(deletedFiles := s)
    decreases |s|
  {
    if s != [] {
      var n := |s| - 1;
      ApplyDeleted(e, s[..n]);
      assert DeletedRecords(s)[..n] == DeletedRecords(s[..n]);
      InsertAtEnd(s[..n], s[n]);
      assert s == s[..n] + [s[n]];
    }
  }

  lemma ApplyOne<T>(e: Edit, o: Option<T>, make: T -> Record)
    ensures ApplyAll(e, One(o, make)) == if o.Some? then Apply(e, make(o.value)) else e
  {
    if o.Some? { assert One(o, make)[..0] == []; }
  }

  lemma ApplyMore<T>(e: Edit, rs: seq<Record>, o: Option<T>, make: T -> Record)
    ensures ApplyAll(e, rs + One(o, make)) == if o.Some? then Apply(ApplyAll(e, rs), make(o.value)) else ApplyAll(e, rs)
  {
    ApplyConcat(e, rs, One(o, make));
    ApplyOne(ApplyAll(e, rs), o, make);
  }

  lemma SimpleRebuild(e: Edit, before: seq<(nat, Bytes)>)
    ensures ApplyAll(EMPTY.(compactPointers := before), SimpleRecords(e)) ==
            e.(compactPointers := before, deletedFiles := [], newFiles := [])
  {
    var e0, r := EMPTY.(compactPointers := before), One(e.comparator, n => Comparator(n));
    ApplyOne(e0, e.comparator, n => Comparator(n));
    ApplyMore(e0, r, e.logNumber, n => LogNumber(n));
    r := r + One(e.logNumber, n => LogNumber(n));
    ApplyMore(e0, r, e.prevLogNumber, n => PrevLogNumber(n));
    r := r + One(e.prevLogNumber, n => PrevLogNumber(n));
    ApplyMore(e0, r, e.nextFileNumber, n => NextFileNumber(n));
    r := r + One(e.nextFileNumber, n => NextFileNumber(n));
    ApplyMore(e0, r, e.lastSequence, n => LastSequence(n));
  }

  // The records of an edit rebuild it, on top of compaction pointers that were there before.
  lemma RecordsRebuild(e: Edit, before: seq<(nat, Bytes)>)
    requires Ascending(e.deletedFiles)
    ensures ApplyAll(EMPTY.(compactPointers := before), RecordsOf(e)) == e.(compactPointers := before + e.compactPointers)
  {
    var e0, r := EMPTY.(compactPointers := before), SimpleRecords(e);
    var e1 := ApplyAll(e0, r);
    SimpleRebuild(e, before);
    ApplyConcat(e0, r, PointerRecords(e.compactPointers));
    ApplyPointers(e1, e.compactPointers);
    r := r + PointerRecords(e.compactPointers);
    ApplyConcat(e0, r, DeletedRecords(e.deletedFiles));
    ApplyDeleted(ApplyAll(e0, r), e.deletedFiles);
    r := r + DeletedRecords(e.deletedFiles);
    ApplyConcat(e0, r, NewRecords(e.newFiles));
    ApplyNewFiles(ApplyAll(e0, r), e.newFiles);
    assert [] + e.newFiles == e.newFiles;
  }

  // Decoding an encoded edit succeeds and restores every field, after the compaction pointers that
  // the object decoded into had before.
  lemma EditRoundTrip(target: Edit, e: Edit)
    requires EditOk(e)
    ensures Decode(Cleared(target), EncodeRecords(RecordsOf(e))) ==
            (e.(compactPointers := target.compactPointers + e.compactPointers), OK)
  {
    var s := EncodeRecords(RecordsOf(e));
    assert s + [] == s;
    DecodeApplies(Cleared(target), RecordsOf(e), []);
    RecordsRebuild(e, target.compactPointers);
  }

  // Clear does not touch the compaction pointers; so an edit is restored exactly if and only if the
  // object decoded into has none.
  lemma RestoredExactly(target: Edit, e: Edit)
    requires EditOk(e)
    ensures Decode(Cleared(target), EncodeRecords(RecordsOf(e))) == (e, OK) <==> target.compactPointers == []
  {
    EditRoundTrip(target, e);
    if target.compactPointers == [] {
      assert target.compactPointers + e.compactPointers == e.compactPointers;
    } else {
      assert |target.compactPointers + e.compactPointers| > |e.compactPointers|;
    }
  }

  // ---------------------------------------------------------------- the class

  lemma EncodeConcat(dst: Bytes, a: seq<Record>, b: seq<Record>)
    ensures (dst + EncodeRecords(a)) + EncodeRecords(b) == dst + EncodeRecords(a + b)
  {
    EncodeRecordsOfConcat(a, b);
    ConcatAssociates(dst, EncodeRecords(a), EncodeRecords(b));
  }

  lemma {:induction false} EncodeRecordsOfConcat(a: seq<Record>, b: seq<Record>)
    ensures EncodeRecords(a + b) == EncodeRecords(a) + EncodeRecords(b)
    decreases |b|
  {
    if b == [] {
      assert a + b == a;
    } else {
      var n := |b| - 1;
      EncodeRecordsOfConcat(a, b[..n]);
      assert (a + b)[..|a + b| - 1] == a + b[..n];
      ConcatAssociates(EncodeRecords(a), EncodeRecords(b[..n]), EncodeRecord(b[n]));
    }
  }

  lemma EncodeOne<T>(dst: Bytes, rs: seq<Record>, o: Option<T>, make: T -> Record)
    ensures dst + EncodeRecords(rs + One(o, make)) ==
            if o.Some? then (dst + EncodeRecords(rs)) + EncodeRecord(make(o.value)) else dst + EncodeRecords(rs)
    ensures rs == [] ==> rs + One(o, make) == One(o, make) && dst + EncodeRecords(rs) == dst
  {
    EncodeConcat(dst, rs, One(o, make));
    if o.Some? {
      assert One(o, make)[..0] == [];
      assert EncodeRecords(One(o, make)) == EncodeRecord(make(o.value));
    }
  }

  lemma EncodeNext(dst: Bytes, rs: seq<Record>, i: nat)
    requires i < |rs|
    ensures (dst + EncodeRecords(rs[..i])) + EncodeRecord(rs[i]) == dst + EncodeRecords(rs[..i + 1])
    ensures dst + EncodeRecords(rs[..0]) == dst
  {
    assert rs[..i + 1][..i] == rs[..i];
    ConcatAssociates(dst, EncodeRecords(rs[..i]), EncodeRecord(rs[i]));
  }

  class VersionEdit {
    var comparator: Option<Bytes>
    var logNumber: Option<nat>
    var prevLogNumber: Option<nat>
    var nextFileNumber: Option<nat>
    var lastSequence: Option<nat>
    var compactPointers: seq<(nat, Bytes)>
    var deletedFiles: seq<(nat, nat)>
    var newFiles: seq<(nat, FileMetaData)>

    function Value(): Edit reads this {
      Edit(comparator, logNumber, prevLogNumber, nextFileNumber, lastSequence, compactPointers, deletedFiles, newFiles)
    }

    constructor ()
      ensures Value() == EMPTY
    {
      compactPointers := [];
      new;
      Clear();
    }

    method Clear()
      modifies this
      ensures Value() == Cleared(old(Value()))
    {
      comparator, logNumber, prevLogNumber, lastSequence, nextFileNumber := None, None, None, None, None;
      deletedFiles, newFiles := [], [];
    }

    method DeleteFile(level: nat, file: nat)
      requires Ascending(deletedFiles)
      modifies this
      ensures Ascending(deletedFiles) && Value() == Apply(old(Value()), DeletedFile(level, file))
    {
      InsertKeepsAscending(deletedFiles, (level, file));
      deletedFiles := SetInsert(deletedFiles, (level, file));
    }

    method EncodeTo(dst: Bytes) returns (out: Bytes)
      ensures out == dst + EncodeRecords(RecordsOf(Value()))
    {
      ghost var simple, pointers := SimpleRecords(Value()), PointerRecords(compactPointers);
      ghost var deleted, new' := DeletedRecords(deletedFiles), NewRecords(newFiles);
      EncodeConcat(dst, simple, pointers);
      EncodeConcat(dst, simple + pointers, deleted);
      EncodeConcat(dst, simple + pointers + deleted, new');
      out := EncodeSimple(dst);
      out := EncodePointers(out);
      out := EncodeDeleted(out);
      out := EncodeNew(out);
    }

    // The fields that occur at most once.
    method EncodeSimple(dst: Bytes) returns (out: Bytes)
      ensures out == dst + EncodeRecords(SimpleRecords(Value()))
    {
      out := dst;
      if comparator.Some? {
        out := out + EncodeRecord(Comparator(comparator.value));
      }
      ghost var r := One(comparator, n => Comparator(n));
      EncodeOne(dst, [], comparator, n => Comparator(n));
      if logNumber.Some? {
        out := out + EncodeRecord(LogNumber(logNumber.value));
      }
      EncodeOne(dst, r, logNumber, n => LogNumber(n));
      r := r + One(logNumber, n => LogNumber(n));
      if prevLogNumber.Some? {
        out := out + EncodeRecord(PrevLogNumber(prevLogNumber.value));
      }
      EncodeOne(dst, r, prevLogNumber, n => PrevLogNumber(n));
      r := r + One(prevLogNumber, n => PrevLogNumber(n));
      if nextFileNumber.Some? {
        out := out + EncodeRecord(NextFileNumber(nextFileNumber.value));
      }
      EncodeOne(dst, r, nextFileNumber, n => NextFileNumber(n));
      r := r + One(nextFileNumber, n => NextFileNumber(n));
      if lastSequence.Some? {
        out := out + EncodeRecord(LastSequence(lastSequence.value));
      }
      EncodeOne(dst, r, lastSequence, n => LastSequence(n));
    }

    method EncodePointers(dst: Bytes) returns (out: Bytes)
      ensures out == dst + EncodeRecords(PointerRecords(compactPointers))
    {
      out := dst;
      ghost var rs := PointerRecords(compactPointers);
      var i := 0;
      while i < |compactPointers|
        invariant 0 <= i <= |compactPointers| && out == dst + EncodeRecords(rs[..i])
      {
        EncodeNext(dst, rs, i);
        out := out + EncodeRecord(CompactPointer(compactPointers[i].0, compactPointers[i].1));
        i := i + 1;
      }
      assert rs[..i] == rs;
    }

    method EncodeDeleted(dst: Bytes) returns (out: Bytes)
      ensures out == dst + EncodeRecords(DeletedRecords(deletedFiles))
    {
      out := dst;
      ghost var rs := DeletedRecords(deletedFiles);
      var i := 0;
      while i < |deletedFiles|
        invariant 0 <= i <= |deletedFiles| && out == dst + EncodeRecords(rs[..i])
      {
        EncodeNext(dst, rs, i);
        out := out + EncodeRecord(DeletedFile(deletedFiles[i].0, deletedFiles[i].1));
        i := i + 1;
      }
      assert rs[..i] == rs;
    }

    method EncodeNew(dst: Bytes) returns (out: Bytes)
      ensures out == dst + EncodeRecords(NewRecords(newFiles))
    {
      out := dst;
      ghost var rs := NewRecords(newFiles);
      var i := 0;
      while i < |newFiles|
        invariant 0 <= i <= |newFiles| && out == dst + EncodeRecords(rs[..i])
      {
        EncodeNext(dst, rs, i);
        out := out + EncodeRecord(NewFile(newFiles[i].0, newFiles[i].1));
        i := i + 1;
      }
      assert rs[..i] == rs;
    }

    method ApplyRecord(r: Record)
      modifies this
      ensures Value() == Apply(old(Value()), r)
    {
      match r
      case Comparator(name) => comparator := Some(name);
      case LogNumber(n) => logNumber := Some(n);
      case PrevLogNumber(n) => prevLogNumber := Some(n);
      case NextFileNumber(n) => nextFileNumber := Some(n);
      case LastSequence(n) => lastSequence := Some(n);
      case CompactPointer(level, key) => compactPointers := compactPointers + [(level, key)];
      case DeletedFile(level, n) => deletedFiles := SetInsert(deletedFiles, (level, n));
      case NewFile(level, f) => newFiles := newFiles + [(level, f)];
    }

    method DecodeFrom(src: Bytes) returns (status: Status)
      modifies this
      ensures (Value(), status) == Decode(Cleared(old(Value())), src)
    {
      Clear();
      ghost var all := Decode(Value(), src);
      var input := src;
      var (ok, tag, rest) := TakeVarint32(input);
      while ok
        invariant (ok, tag, rest) == TakeVarint32(input) && all == Decode(Value(), input)
        decreases |input|
      {
        match ParseFields(tag, rest)
        case Bad(msg) =>
          return Corruption(msg);
        case Next(r, more) =>
          ApplyRecord(r);
          input := more;
          var t := TakeVarint32(input);
          ok, tag, rest := t.0, t.1, t.2;
      }
      return if input != [] then Corruption(InvalidTag) else OK;
    }
  }
}
