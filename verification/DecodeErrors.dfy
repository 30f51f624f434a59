/**
 What is refused when write batches and version edits are decoded: cut data, unknown tags, wrong counts and
 levels that do not exist.
 */
module DecodeErrors {
  import opened Coding
  import opened DbFormat
  import Batches = WriteBatches
  import Edits = VersionEdits

  // ---------------------------------------------------------------- cut pieces

  lemma {:induction false} CutVarint(v: nat, n: nat, limit: nat)
    requires n < |EncodeVarint(v)|
    ensures !GetVarint(EncodeVarint(v)[..n], limit).0
    decreases n
  {
    if n > 0 && limit > 0 {
      var s, t := EncodeVarint(v), EncodeVarint(v / 128);
      assert s == [v % 128 + 128] + t;
      CutVarint(v / 128, n - 1, limit - 1);
      assert s[..n][1..] == t[..n - 1] && s[..n][0] == v % 128 + 128;
    }
  }

  lemma CutNumber(v: nat, n: nat)
    requires n < |EncodeVarint(v)|
    ensures !TakeVarint32(EncodeVarint(v)[..n]).0 && !TakeVarint64(EncodeVarint(v)[..n]).0
  {
    CutVarint(v, n, 5);
    CutVarint(v, n, 10);
  }

  lemma CutSlice(s: Bytes, n: nat)
    requires FitsSlice(s) && n < |PutLengthPrefixed(s)|
    ensures !TakeSlice(PutLengthPrefixed(s)[..n]).0
  {
    var head := EncodeVarint(|s|);
    if n < |head| {
      assert PutLengthPrefixed(s)[..n] == head[..n];
      CutNumber(|s|, n);
    } else {
      assert PutLengthPrefixed(s)[..n] == head + s[..n - |head|];
      TakeVarint32RoundTrip(|s|, s[..n - |head|]);
    }
  }

  // ---------------------------------------------------------------- write batches

  // Two slices are not both there.
  predicate NoKeys(s: Bytes) {
    var (ok, key, rest) := TakeSlice(s);
    !ok || !TakeSlice(rest).0
  }

  lemma CutTwo(a: Bytes, b: Bytes, n: nat)
    requires n <= |a + b|
    ensures (a + b)[..n] == if n < |a| then a[..n] else a + b[..n - |a|]
  {
  }

  lemma CutSlices(a: Bytes, b: Bytes, n: nat)
    requires FitsSlice(a) && FitsSlice(b) && n < |PutLengthPrefixed(a) + PutLengthPrefixed(b)|
    ensures NoKeys((PutLengthPrefixed(a) + PutLengthPrefixed(b))[..n])
  {
    var k, v := PutLengthPrefixed(a), PutLengthPrefixed(b);
    CutTwo(k, v, n);
    if n < |k| {
      CutSlice(a, n);
    } else {
      TakeSliceRoundTrip(a, v[..n - |k|]);
      CutSlice(b, n - |k|);
    }
  }

  lemma CutPut(all: Bytes, key: Bytes, value: Bytes, n: nat)
    requires FitsSlice(key) && FitsSlice(value) && all == [kTypeValue] + PutLengthPrefixed(key) + PutLengthPrefixed(value) && 0 < n < |all|
    ensures Batches.ParseOne(all[..n]) == Batches.Stop(Batches.BadPut)
  {
    var body := PutLengthPrefixed(key) + PutLengthPrefixed(value);
    CutSlices(key, value, n - 1);
    assert all[..n][0] == kTypeValue && all[..n][1..] == body[..n - 1];
  }

  lemma CutDelete(all: Bytes, key: Bytes, n: nat)
    requires FitsSlice(key) && all == [kTypeDeletion] + PutLengthPrefixed(key) && 0 < n < |all|
    ensures Batches.ParseOne(all[..n]) == Batches.Stop(Batches.BadDelete)
  {
    CutSlice(key, n - 1);
    assert all[..n][0] == kTypeDeletion && all[..n][1..] == PutLengthPrefixed(key)[..n - 1];
  }

  lemma CutOp(op: Batches.Op, n: nat)
    requires Batches.OpOk(op) && 0 < n < |Batches.EncodeOp(op)|
    ensures Batches.ParseOne(Batches.EncodeOp(op)[..n]) == Batches.Stop(if op.Put? then Batches.BadPut else Batches.BadDelete)
  {
    if op.Put? { CutPut(Batches.EncodeOp(op), op.key, op.value, n); } else { CutDelete(Batches.EncodeOp(op), op.key, n); }
  }

  lemma FirstOp(ops: seq<Batches.Op>)
    requires ops != []
    ensures Batches.EncodeOps(ops) == Batches.EncodeOp(ops[0]) + Batches.EncodeOps(ops[1..])
  {
    assert ops == [ops[0]] + ops[1..];
    Batches.EncodeOpsOfConcat([ops[0]], ops[1..]);
    assert [ops[0]][..0] == [];
    assert Batches.EncodeOps([ops[0]]) == [] + Batches.EncodeOp(ops[0]) == Batches.EncodeOp(ops[0]);
  }

  lemma BehindOp(op: Batches.Op, rest: Bytes)
    requires Batches.OpOk(op)
    ensures Batches.ParseOps(Batches.EncodeOp(op) + rest) == Batches.Parsed([op] + Batches.ParseOps(rest).calls, Batches.ParseOps(rest).status)
  {
    Batches.ParseOneRoundTrip(op, rest);
  }

  // Parsing what comes behind whole operations.
  lemma {:induction false} BehindOps(ops: seq<Batches.Op>, data: Bytes, rest: Bytes, p: Batches.Parsed)
    requires Batches.OpsOk(ops) && data == Batches.EncodeOps(ops) && p == Batches.ParseOps(rest)
    ensures Batches.ParseOps(data + rest) == Batches.Parsed(ops + p.calls, p.status)
    decreases |ops|
  {
    if ops == [] {
      assert data + rest == rest && ops + p.calls == p.calls;
    } else {
      var tail := Batches.EncodeOps(ops[1..]);
      FirstOp(ops);
      ConcatAssociates(Batches.EncodeOp(ops[0]), tail, rest);
      BehindOps(ops[1..], tail, rest, p);
      BehindOp(ops[0], tail + rest);
      assert ops == [ops[0]] + ops[1..];
      ConcatAssociates([ops[0]], ops[1..], p.calls);
    }
  }

  // A tag that is neither a put nor a deletion ends the iteration, behind the calls made so far.
  lemma UnknownTagIsRefused(rep: Bytes, ops: seq<Batches.Op>, tag: Byte, rest: Bytes)
    requires |rep| >= Batches.kHeader && Batches.OpsOk(ops) && tag !in {kTypeValue, kTypeDeletion}
    requires rep[Batches.kHeader..] == Batches.EncodeOps(ops) + ([tag] + rest)
    ensures Batches.IterateOf(rep) == Batches.Parsed(ops, Batches.UnknownTag)
  {
    assert Batches.ParseOps([tag] + rest) == Batches.Parsed([], Batches.UnknownTag);
    BehindOps(ops, Batches.EncodeOps(ops), [tag] + rest, Batches.Parsed([], Batches.UnknownTag));
    assert ops + [] == ops;
  }

  // A batch is accepted if and only if its count is the number of its operations.
  lemma CountDecides(rep: Bytes, ops: seq<Batches.Op>)
    requires |rep| >= Batches.kHeader && Batches.OpsOk(ops) && rep[Batches.kHeader..] == Batches.EncodeOps(ops)
    ensures Batches.IterateOf(rep) == Batches.Parsed(ops, if Batches.CountField(rep) == |ops| then Batches.OK else Batches.WrongCount)
  {
    Batches.ParseRoundTrip(ops);
  }

  // The operations that are whole in the first n bytes.
  function WholeOps(ops: seq<Batches.Op>, n: nat): (k: nat)
    ensures k <= |ops|
  {
    if ops == [] || n < |Batches.EncodeOp(ops[0])| then 0 else 1 + WholeOps(ops[1..], n - |Batches.EncodeOp(ops[0])|)
  }

  lemma {:induction false} CutOps(ops: seq<Batches.Op>, data: Bytes, n: nat)
    requires Batches.OpsOk(ops) && data == Batches.EncodeOps(ops) && n < |data|
    ensures WholeOps(ops, n) < |ops| && Batches.ParseOps(data[..n]).calls == ops[..WholeOps(ops, n)]
    decreases |ops|
  {
    var head, tail := Batches.EncodeOp(ops[0]), Batches.EncodeOps(ops[1..]);
    FirstOp(ops);
    if n < |head| {
      CutFirst(ops[0], data, tail, n);
    } else {
      CutOps(ops[1..], tail, n - |head|);
      CutLater(ops, tail, n, WholeOps(ops[1..], n - |head|));
    }
  }

  lemma CutLater(ops: seq<Batches.Op>, tail: Bytes, n: nat, k: nat)
    requires ops != [] && Batches.OpOk(ops[0]) && |Batches.EncodeOp(ops[0])| <= n <= |Batches.EncodeOp(ops[0]) + tail| && k < |ops|
    requires Batches.ParseOps(tail[..n - |Batches.EncodeOp(ops[0])|]).calls == ops[1..][..k]
    ensures Batches.ParseOps((Batches.EncodeOp(ops[0]) + tail)[..n]).calls == ops[..k + 1]
  {
    var cut := tail[..n - |Batches.EncodeOp(ops[0])|];
    CutTwo(Batches.EncodeOp(ops[0]), tail, n);
    BehindOp(ops[0], cut);
    OneMore(ops, k);
  }

  lemma OneMore(ops: seq<Batches.Op>, k: nat)
    requires k < |ops|
    ensures [ops[0]] + ops[1..][..k] == ops[..k + 1]
  {
  }

  lemma CutFirst(op: Batches.Op, data: Bytes, tail: Bytes, n: nat)
    requires Batches.OpOk(op) && data == Batches.EncodeOp(op) + tail && n < |Batches.EncodeOp(op)|
    ensures Batches.ParseOps(data[..n]).calls == []
  {
    assert data[..n] == Batches.EncodeOp(op)[..n];
    if n > 0 { CutOp(op, n); }
  }

  // A batch that is cut anywhere is refused, after the operations that are whole.
  lemma CutBatchIsRefused(rep: Bytes, seqno: nat, ops: seq<Batches.Op>, n: nat)
    requires Batches.Holds(rep, seqno, ops) && Batches.OpsOk(ops) && n < |rep|
    ensures var p := Batches.IterateOf(rep[..n]);
            p.status != Batches.OK && p.calls == if n < Batches.kHeader then [] else ops[..WholeOps(ops, n - Batches.kHeader)]
  {
    if n >= Batches.kHeader {
      var m := n - Batches.kHeader;
      assert rep[..n][Batches.kHeader..] == rep[Batches.kHeader..][..m];
      assert rep[..n][8..12] == rep[8..12];
      CutOps(ops, rep[Batches.kHeader..], m);
    }
  }

  // ---------------------------------------------------------------- version edits

  predicate KnownTag(tag: nat) { tag in {1, 2, 3, 4, 5, 6, 7, 9} }

  // A tag that no record has ends the decoding, behind the records before it.
  lemma UnknownRecordIsRefused(e: Edits.Edit, rs: seq<Edits.Record>, tag: nat, rest: Bytes)
    requires Edits.RecordsOk(rs) && !KnownTag(tag) && tag < kTwoTo32
    ensures Edits.Decode(e, Edits.EncodeRecords(rs) + (EncodeVarint(tag) + rest)) == (Edits.ApplyAll(e, rs), Edits.Corruption(Edits.UnknownTag))
  {
    Edits.DecodeApplies(e, rs, EncodeVarint(tag) + rest);
    TakeVarint32RoundTrip(tag, rest);
  }

  // A level that does not exist ends it, too.
  lemma BadLevelIsRefused(e: Edits.Edit, rs: seq<Edits.Record>, tag: nat, level: nat, rest: Bytes)
    requires Edits.RecordsOk(rs) && tag in {5, 6, 7} && 7 <= level < kTwoTo32
    ensures var msg := if tag == 5 then Edits.CompactionPointer else if tag == 6 then Edits.DeletedFileMsg else Edits.NewFileEntry;
            Edits.Decode(e, Edits.EncodeRecords(rs) + (EncodeVarint(tag) + (EncodeVarint(level) + rest))) ==
            (Edits.ApplyAll(e, rs), Edits.Corruption(msg))
  {
    Edits.DecodeApplies(e, rs, EncodeVarint(tag) + (EncodeVarint(level) + rest));
    TakeVarint32RoundTrip(tag, EncodeVarint(level) + rest);
    TakeVarint32RoundTrip(level, rest);
  }

  // What is left of a list of fields that is cut after n bytes: the whole ones, and a part of the next.
  lemma CutParts(p: Edits.Part, ps: seq<Edits.Part>, n: nat)
    requires n < |Edits.EncodeParts([p] + ps)|
    ensures var one, all := Edits.EncodePart(p), Edits.EncodeParts([p] + ps);
            if n < |one| then all[..n] == one[..n] else n - |one| < |Edits.EncodeParts(ps)| && all[..n] == one + Edits.EncodeParts(ps)[..n - |one|]
  {
    assert ([p] + ps)[1..] == ps;
    var one, more := Edits.EncodePart(p), Edits.EncodeParts(ps);
    assert Edits.EncodeParts([p] + ps) == one + more;
    if n >= |one| { assert (one + more)[..n] == one + more[..n - |one|]; }
  }

  // Fields cut anywhere cannot be parsed.
  lemma CutFields(r: Edits.Record, n: nat)
    requires Edits.RecordOk(r) && n < |Edits.FieldsOf(r)|
    ensures Edits.ParseFields(Edits.TagOf(r), Edits.FieldsOf(r)[..n]).Bad?
  {
    if r.CompactPointer? {
      CutLevelAnd(r, r.level, Edits.Slice(r.key), n);
    } else if r.DeletedFile? {
      CutLevelAnd(r, r.level, Edits.Number(r.number), n);
    } else if r.NewFile? {
      CutNewFile(r, n);
    } else {
      var p := Edits.PartsOf(r)[1];
      assert Edits.PartsOf(r)[1..] == [p] + [];
      CutParts(p, [], n);
      CutPart(p, n);
    }
  }

  predicate PartOk(p: Edits.Part) { p.Slice? ==> FitsSlice(p.s) }

  lemma CutPart(p: Edits.Part, n: nat)
    requires n < |Edits.EncodePart(p)| && PartOk(p)
    ensures var s := Edits.EncodePart(p)[..n];
            if p.Slice? then !TakeSlice(s).0 else !Edits.TakeLevel(s).0 && !TakeVarint32(s).0 && !Edits.TakeNumber(s).0
  {
    if p.Slice? { CutSlice(p.s, n); } else { CutNumber(p.n, n); }
  }

  lemma CutLevelAnd(r: Edits.Record, level: nat, p: Edits.Part, n: nat)
    requires Edits.RecordOk(r) && n < |Edits.FieldsOf(r)|
    requires (r.CompactPointer? && level == r.level && p == Edits.Slice(r.key)) || (r.DeletedFile? && level == r.level && p == Edits.Number(r.number))
    ensures Edits.ParseFields(Edits.TagOf(r), Edits.FieldsOf(r)[..n]).Bad?
  {
    var first := Edits.Number(level);
    assert Edits.PartsOf(r)[1..] == [first] + [p];
    CutParts(first, [p], n);
    var one := Edits.EncodePart(first);
    if n < |one| {
      CutPart(first, n);
    } else {
      assert [p] == [p] + [];
      CutParts(p, [], n - |one|);
      CutPart(p, n - |one|);
      Edits.LevelRoundTrip(level, Edits.EncodePart(p)[..n - |one|]);
    }
  }

  // The fields of a new file from the size or the number on are not all there.
  predicate NoSize(s: Bytes) {
    var (ok, size, rest) := Edits.TakeNumber(s);
    !ok || NoKeys(rest)
  }

  predicate NoNumber(s: Bytes) {
    var (ok, number, rest) := Edits.TakeNumber(s);
    !ok || NoSize(rest)
  }

  lemma CutKeys(smallest: Bytes, largest: Bytes, n: nat)
    requires FitsSlice(smallest) && FitsSlice(largest)
    requires n < |Edits.EncodeParts([Edits.Slice(smallest)] + [Edits.Slice(largest)])|
    ensures NoKeys(Edits.EncodeParts([Edits.Slice(smallest)] + [Edits.Slice(largest)])[..n])
  {
    TwoSlices(smallest, largest);
    CutSlices(smallest, largest, n);
  }

  lemma TwoSlices(a: Bytes, b: Bytes)
    ensures Edits.EncodeParts([Edits.Slice(a)] + [Edits.Slice(b)]) == PutLengthPrefixed(a) + PutLengthPrefixed(b)
  {
    assert ([Edits.Slice(a)] + [Edits.Slice(b)])[1..] == [Edits.Slice(b)];
    Edits.OnePart(Edits.Slice(b), []);
    assert PutLengthPrefixed(b) + [] == PutLengthPrefixed(b);
    assert Edits.EncodeParts([Edits.Slice(b)]) + [] == Edits.EncodeParts([Edits.Slice(b)]);
  }

  lemma CutSize(size: nat, smallest: Bytes, largest: Bytes, n: nat)
    requires Edits.U64(size) && FitsSlice(smallest) && FitsSlice(largest)
    requires n < |Edits.EncodeParts([Edits.Number(size)] + ([Edits.Slice(smallest)] + [Edits.Slice(largest)]))|
    ensures NoSize(Edits.EncodeParts([Edits.Number(size)] + ([Edits.Slice(smallest)] + [Edits.Slice(largest)]))[..n])
  {
    var p, ps := Edits.Number(size), [Edits.Slice(smallest)] + [Edits.Slice(largest)];
    CutParts(p, ps, n);
    if n < |Edits.EncodePart(p)| {
      CutPart(p, n);
    } else {
      var m := n - |Edits.EncodePart(p)|;
      CutKeys(smallest, largest, m);
      Edits.NumberRoundTrip(size, Edits.EncodeParts(ps)[..m]);
    }
  }

  lemma CutNumbers(f: Edits.FileMetaData, ps: seq<Edits.Part>, n: nat)
    requires Edits.U64(f.number) && Edits.U64(f.fileSize) && FitsSlice(f.smallest) && FitsSlice(f.largest)
    requires ps == [Edits.Number(f.fileSize)] + ([Edits.Slice(f.smallest)] + [Edits.Slice(f.largest)])
    requires n < |Edits.EncodeParts([Edits.Number(f.number)] + ps)|
    ensures NoNumber(Edits.EncodeParts([Edits.Number(f.number)] + ps)[..n])
  {
    var p := Edits.Number(f.number);
    CutParts(p, ps, n);
    if n < |Edits.EncodePart(p)| {
      CutPart(p, n);
    } else {
      var m := n - |Edits.EncodePart(p)|;
      CutSize(f.fileSize, f.smallest, f.largest, m);
      Edits.NumberRoundTrip(f.number, Edits.EncodeParts(ps)[..m]);
    }
  }

  lemma CutLevel(level: nat, n: nat)
    requires n < |EncodeVarint(level)|
    ensures Edits.ParseNewFile(EncodeVarint(level)[..n]).Bad?
  {
    CutNumber(level, n);
  }

  lemma LevelAlone(level: nat, rest: Bytes)
    requires level < Edits.kNumLevels && NoNumber(rest)
    ensures Edits.ParseNewFile(EncodeVarint(level) + rest).Bad?
  {
    Edits.LevelRoundTrip(level, rest);
  }

  lemma CutNewFileBytes(level: nat, f: Edits.FileMetaData, ps: seq<Edits.Part>, more: Bytes, n: nat)
    requires level < Edits.kNumLevels && Edits.U64(f.number) && Edits.U64(f.fileSize) && FitsSlice(f.smallest) && FitsSlice(f.largest)
    requires ps == [Edits.Number(f.fileSize)] + ([Edits.Slice(f.smallest)] + [Edits.Slice(f.largest)])
    requires more == Edits.EncodeParts([Edits.Number(f.number)] + ps) && n < |EncodeVarint(level) + more|
    ensures Edits.ParseNewFile((EncodeVarint(level) + more)[..n]).Bad?
  {
    CutTwo(EncodeVarint(level), more, n);
    if n < |EncodeVarint(level)| {
      CutLevel(level, n);
    } else {
      CutNumbers(f, ps, n - |EncodeVarint(level)|);
      LevelAlone(level, more[..n - |EncodeVarint(level)|]);
    }
  }

  lemma CutNewFile(r: Edits.Record, n: nat)
    requires Edits.RecordOk(r) && r.NewFile? && n < |Edits.FieldsOf(r)|
    ensures Edits.ParseNewFile(Edits.FieldsOf(r)[..n]).Bad?
  {
    var f := r.file;
    var ps := [Edits.Number(f.fileSize)] + ([Edits.Slice(f.smallest)] + [Edits.Slice(f.largest)]);
    NewFileBytes(r, ps);
    CutNewFileBytes(r.level, f, ps, Edits.EncodeParts([Edits.Number(f.number)] + ps), n);
  }

  lemma NewFileBytes(r: Edits.Record, ps: seq<Edits.Part>)
    requires r.NewFile? && ps == [Edits.Number(r.file.fileSize)] + ([Edits.Slice(r.file.smallest)] + [Edits.Slice(r.file.largest)])
    ensures Edits.FieldsOf(r) == EncodeVarint(r.level) + Edits.EncodeParts([Edits.Number(r.file.number)] + ps)
  {
    var p, qs := Edits.Number(r.level), [Edits.Number(r.file.number)] + ps;
    assert Edits.PartsOf(r)[1..] == [p] + qs;
    assert ([p] + qs)[1..] == qs;
  }

  // ---------------------------------------------------------------- a cut edit

  // Nothing is applied when the tag or the fields cannot be parsed.
  predicate Unparsed(s: Bytes) {
    var (ok, tag, rest) := TakeVarint32(s);
    s != [] && (!ok || Edits.ParseFields(tag, rest).Bad?)
  }

  lemma UnparsedIsRefused(e: Edits.Edit, s: Bytes)
    requires Unparsed(s)
    ensures Edits.Decode(e, s).0 == e && Edits.Decode(e, s).1 != Edits.OK
  {
  }

  lemma RecordBytes(r: Edits.Record)
    ensures Edits.EncodeRecord(r) == EncodeVarint(Edits.TagOf(r)) + Edits.FieldsOf(r)
  {
  }

  lemma CutRecord(r: Edits.Record, n: nat)
    requires Edits.RecordOk(r) && 0 < n < |Edits.EncodeRecord(r)|
    ensures Unparsed(Edits.EncodeRecord(r)[..n])
  {
    RecordBytes(r);
    if n >= |EncodeVarint(Edits.TagOf(r))| { CutFields(r, n - |EncodeVarint(Edits.TagOf(r))|); }
    CutTagged(Edits.TagOf(r), Edits.FieldsOf(r), n);
  }

  lemma CutTagged(tag: nat, fields: Bytes, n: nat)
    requires tag < kTwoTo32 && 0 < n < |EncodeVarint(tag) + fields|
    requires n >= |EncodeVarint(tag)| ==> Edits.ParseFields(tag, fields[..n - |EncodeVarint(tag)|]).Bad?
    ensures Unparsed((EncodeVarint(tag) + fields)[..n])
  {
    CutTwo(EncodeVarint(tag), fields, n);
    if n < |EncodeVarint(tag)| { CutTag(tag, n); } else { TagAlone(tag, fields[..n - |EncodeVarint(tag)|]); }
  }

  lemma CutTag(tag: nat, n: nat)
    requires 0 < n < |EncodeVarint(tag)|
    ensures Unparsed(EncodeVarint(tag)[..n])
  {
    CutNumber(tag, n);
  }

  lemma TagAlone(tag: nat, rest: Bytes)
    requires tag < kTwoTo32 && Edits.ParseFields(tag, rest).Bad?
    ensures Unparsed(EncodeVarint(tag) + rest)
  {
    TakeVarint32RoundTrip(tag, rest);
  }

  // An edit whose encoding is cut inside a record is refused, behind the records before it.
  lemma CutEditIsRefused(e: Edits.Edit, rs: seq<Edits.Record>, r: Edits.Record, n: nat)
    requires Edits.RecordsOk(rs) && Edits.RecordOk(r) && 0 < n < |Edits.EncodeRecord(r)|
    ensures var d := Edits.Decode(e, Edits.EncodeRecords(rs) + Edits.EncodeRecord(r)[..n]);
            d.0 == Edits.ApplyAll(e, rs) && d.1 != Edits.OK
  {
    Edits.DecodeApplies(e, rs, Edits.EncodeRecord(r)[..n]);
    CutRecord(r, n);
    UnparsedIsRefused(Edits.ApplyAll(e, rs), Edits.EncodeRecord(r)[..n]);
  }
}
