/**
 Write batches (write_batch.cc): a twelve byte header with a sequence number and a count, followed
 by the operations.
 */
module WriteBatches {
  import opened Coding
  import opened DbFormat
  import opened MemTables
  import opened SkipLists

  const kHeader := 12
  const kMaxCount := 0x8000_0000    // the count is an int

  datatype Op = Put(key: Bytes, value: Bytes) | Delete(key: Bytes)

  predicate OpOk(op: Op) {
    |op.key| + 8 < 0x1_0000_0000 && (op.Put? ==> FitsSlice(op.value))
  }

  predicate OpsOk(ops: seq<Op>) { forall i :: 0 <= i < |ops| ==> OpOk(ops[i]) }

  function EncodeOp(op: Op): (s: Bytes)
    ensures s != []
  {
    match op
    case Put(k, v) => [kTypeValue] + PutLengthPrefixed(k) + PutLengthPrefixed(v)
    case Delete(k) => [kTypeDeletion] + PutLengthPrefixed(k)
  }

  function EncodeOps(ops: seq<Op>): Bytes {
    if ops == [] then [] else EncodeOps(ops[..|ops| - 1]) + EncodeOp(ops[|ops| - 1])
  }

  lemma {:induction false} EncodeOpsOfConcat(a: seq<Op>, b: seq<Op>)
    ensures EncodeOps(a + b) == EncodeOps(a) + EncodeOps(b)
  {
    if b == [] {
      assert a + b == a;
    } else {
      var n := |b| - 1;
      EncodeOpsOfConcat(a, b[..n]);
      assert (a + b)[..|a + b| - 1] == a + b[..n];
      ConcatAssociates(EncodeOps(a), EncodeOps(b[..n]), EncodeOp(b[n]));
    }
  }

  // The three parts of rep_.
  function SequenceField(rep: Bytes): nat
    requires |rep| >= kHeader
  {
    DecodeFixed(rep[..8])
  }

  function CountField(rep: Bytes): nat
    requires |rep| >= kHeader
  {
    DecodeFixed(rep[8..12])
  }

  predicate Holds(rep: Bytes, seqno: nat, ops: seq<Op>) {
    |rep| >= kHeader && SequenceField(rep) == seqno && CountField(rep) == |ops| && rep[kHeader..] == EncodeOps(ops)
  }

  // ---------------------------------------------------------------- parsing

  datatype Status = OK | TooSmall | BadPut | BadDelete | UnknownTag | WrongCount

  // The handler calls that Iterate makes for the data, and how it ends.
  datatype Parsed = Parsed(calls: seq<Op>, status: Status)

  datatype Step = Next(op: Op, rest: Bytes) | Stop(status: Status)

  function ParseOne(input: Bytes): (r: Step)
    requires input != []
    ensures r.Next? ==> |r.rest| < |input|
  {
    if input[0] == kTypeValue then
      var (ok, key, rest) := TakeSlice(input[1..]);
      if !ok then Stop(BadPut) else
      var (ok', value, rest') := TakeSlice(rest);
      if ok' then Next(Put(key, value), rest') else Stop(BadPut)
    else if input[0] == kTypeDeletion then
      var (ok, key, rest) := TakeSlice(input[1..]);
      if ok then Next(Delete(key), rest) else Stop(BadDelete)
    else Stop(UnknownTag)
  }

  function ParseOps(input: Bytes): Parsed
    decreases |input|
  {
    if input == [] then Parsed([], OK)
    else match ParseOne(input)
      case Next(op, rest) => var p := ParseOps(rest); Parsed([op] + p.calls, p.status)
      case Stop(status) => Parsed([], status)
  }

  lemma ParseOneRoundTrip(op: Op, rest: Bytes)
    requires OpOk(op)
    ensures ParseOne(EncodeOp(op) + rest) == Next(op, rest)
  {
    var input := EncodeOp(op) + rest;
    if op.Put? {
      var k, v := PutLengthPrefixed(op.key), PutLengthPrefixed(op.value);
      TailOfThree([kTypeValue], k, v, rest);
      TakeSliceRoundTrip(op.key, v + rest);
      TakeSliceRoundTrip(op.value, rest);
    } else {
      var k := PutLengthPrefixed(op.key);
      TailOfThree([kTypeDeletion], k, [], rest);
      assert k + [] == k && [] + rest == rest;
      TakeSliceRoundTrip(op.key, rest);
    }
  }

  lemma TailOfThree(a: Bytes, b: Bytes, c: Bytes, rest: Bytes)
    requires |a| == 1
    ensures ((a + b + c) + rest)[1..] == b + (c + rest) && ((a + b) + rest)[1..] == b + rest
  {
  }

  // Parsing the encoded operations gives them back in order.
  lemma {:induction false} ParseRoundTrip(ops: seq<Op>)
    requires OpsOk(ops)
    ensures ParseOps(EncodeOps(ops)) == Parsed(ops, OK)
    decreases |ops|
  {
    if ops != [] {
      assert ops == [ops[0]] + ops[1..];
      EncodeOpsOfConcat([ops[0]], ops[1..]);
      assert EncodeOps([ops[0]]) == EncodeOp(ops[0]);
      ParseOneRoundTrip(ops[0], EncodeOps(ops[1..]));
      ParseRoundTrip(ops[1..]);
    }
  }

  // ---------------------------------------------------------------- the class

  class WriteBatch {
    var rep: Bytes
    ghost var seqno: nat
    ghost var ops: seq<Op>       // what has been put in so far

    ghost predicate Valid() reads this {
      Holds(rep, seqno, ops) && OpsOk(ops) && |ops| < kMaxCount
    }

    constructor ()
      ensures Valid() && ops == [] && seqno == 0
    {
      rep := [];
      seqno, ops := 0, [];
      new;
      Clear();
    }

    method Clear()
      modifies this
      ensures Valid() && ops == [] && seqno == 0
    {
      var zeros: Bytes := seq(kHeader, i => 0);
      DecodeZeros(zeros[..8]);
      DecodeZeros(zeros[8..12]);
      rep := zeros;
      seqno, ops := 0, [];
    }

    method Count() returns (n: nat)
      requires Valid()
      ensures n == |ops|
    {
      n := DecodeFixed(rep[8..12]);
    }

    method SetSequence(s: nat)
      requires Valid() && s < 0x1_0000_0000_0000_0000
      modifies this
      ensures Valid() && seqno == s && ops == old(ops)
    {
      var encoded := EncodeFixed(8, s);
      Pow256Of8();
      FixedRoundTrip(8, s);
      ReplaceFront(rep, encoded);
      rep := encoded + rep[8..];
      seqno := s;
    }

    method SetCount(n: nat)
      requires |rep| >= kHeader && n < kMaxCount
      modifies `rep
      ensures |rep| >= kHeader && SequenceField(rep) == SequenceField(old(rep)) && CountField(rep) == n
      ensures rep[kHeader..] == old(rep)[kHeader..]
    {
      var encoded := EncodeFixed(4, n);
      assert Pow256(4) == 0x1_0000_0000;
      FixedRoundTrip(4, n);
      ReplaceMiddle(rep, encoded);
      rep := rep[..8] + encoded + rep[12..];
    }

    method Put(key: Bytes, value: Bytes)
      requires Valid() && |ops| + 1 < kMaxCount && OpOk(Op.Put(key, value))
      modifies this
      ensures Valid() && ops == old(ops) + [Op.Put(key, value)] && seqno == old(seqno)
    {
      var n := Count();
      SetCount(n + 1);
      var k, v := PutLengthPrefixed(key), PutLengthPrefixed(value);
      AppendThree(rep, [kTypeValue], k, v);
      AppendParts(rep, [kTypeValue] + k + v);
      rep := rep + [kTypeValue];
      rep := rep + k;
      rep := rep + v;
      EncodeOneMore(ops, Op.Put(key, value));
      ops := ops + [Op.Put(key, value)];
    }

    method Delete(key: Bytes)
      requires Valid() && |ops| + 1 < kMaxCount && OpOk(Op.Delete(key))
      modifies this
      ensures Valid() && ops == old(ops) + [Op.Delete(key)] && seqno == old(seqno)
    {
      var n := Count();
      SetCount(n + 1);
      var k := PutLengthPrefixed(key);
      ConcatAssociates(rep, [kTypeDeletion], k);
      AppendParts(rep, [kTypeDeletion] + k);
      rep := rep + [kTypeDeletion];
      rep := rep + k;
      EncodeOneMore(ops, Op.Delete(key));
      ops := ops + [Op.Delete(key)];
    }

    // src may be the batch itself.
    method Append(src: WriteBatch)
      requires Valid() && src.Valid() && |ops| + |src.ops| < kMaxCount
      modifies this
      ensures Valid() && ops == old(ops) + old(src.ops) && seqno == old(seqno)
    {
      ghost var more := src.ops;
      EncodeOpsOfConcat(ops, more);
      var n := Count();
      var m := src.Count();
      SetCount(n + m);
      AppendParts(rep, src.rep[kHeader..]);
      rep := rep + src.rep[kHeader..];
      ops := ops + more;
    }
  }

  lemma AppendThree(rep: Bytes, a: Bytes, b: Bytes, c: Bytes)
    ensures rep + (a + b + c) == ((rep + a) + b) + c
  {
  }

  lemma EncodeOneMore(ops: seq<Op>, op: Op)
    ensures EncodeOps(ops + [op]) == EncodeOps(ops) + EncodeOp(op)
  {
    assert (ops + [op])[..|ops|] == ops;
  }

  lemma ReplaceFront(rep: Bytes, a: Bytes)
    requires |rep| >= kHeader && |a| == 8
    ensures var r := a + rep[8..]; r[..8] == a && r[8..12] == rep[8..12] && r[12..] == rep[12..]
  {
  }

  lemma ReplaceMiddle(rep: Bytes, a: Bytes)
    requires |rep| >= kHeader && |a| == 4
    ensures var r := rep[..8] + a + rep[12..]; r[..8] == rep[..8] && r[8..12] == a && r[12..] == rep[12..]
  {
  }

  lemma AppendParts(rep: Bytes, more: Bytes)
    requires |rep| >= kHeader
    ensures var r := rep + more; r[..8] == rep[..8] && r[8..12] == rep[8..12] && r[12..] == rep[12..] + more
  {
  }

  lemma {:induction false} DecodeZeros(s: Bytes)
    requires forall i :: 0 <= i < |s| ==> s[i] == 0
    ensures DecodeFixed(s) == 0
  {
    if s != [] { DecodeZeros(s[1..]); }
  }

  // ---------------------------------------------------------------- Iterate and InsertInto

  // What Iterate does with any contents.
  function IterateOf(rep: Bytes): Parsed {
    if |rep| < kHeader then Parsed([], TooSmall)
    else
      var p := ParseOps(rep[kHeader..]);
      if p.status == OK && |p.calls| != CountField(rep) then Parsed(p.calls, WrongCount) else p
  }

  lemma StopHere(calls: seq<Op>, input: Bytes)
    requires input != [] && ParseOne(input).Stop?
    ensures calls + ParseOps(input).calls == calls && ParseOps(input).status == ParseOne(input).status
  {
    assert ParseOps(input).calls == [];
  }

  // The calls made on the handler, in order.
  method Iterate(rep: Bytes) returns (calls: seq<Op>, status: Status)
    ensures Parsed(calls, status) == IterateOf(rep)
  {
    if |rep| < kHeader {
      return [], TooSmall;
    }
    calls, status := IterateData(rep[kHeader..]);
    if status == OK && |calls| != CountField(rep) {
      status := WrongCount;
    }
  }

  // The loop of Iterate; found is the number of calls.
  method IterateData(data: Bytes) returns (calls: seq<Op>, status: Status)
    ensures Parsed(calls, status) == ParseOps(data)
  {
    calls := [];
    var input := data;
    while input != []
      invariant ParseOps(data).calls == calls + ParseOps(input).calls
      invariant ParseOps(data).status == ParseOps(input).status
      decreases |input|
    {
      match ParseOne(input)
      case Stop(s) =>
        StopHere(calls, input);
        return calls, s;
      case Next(op, more) =>
        ConcatAssociates(calls, [op], ParseOps(more).calls);
        calls := calls + [op];
        input := more;
    }
    assert calls + [] == calls;
    return calls, OK;
  }

  // Any history of Put, Delete and Append is replayed in order, and the count matches.
  lemma IterateRoundTrip(rep: Bytes, seqno: nat, ops: seq<Op>)
    requires Holds(rep, seqno, ops) && OpsOk(ops)
    ensures IterateOf(rep) == Parsed(ops, OK)
  {
    ParseRoundTrip(ops);
  }

  function ItemAt(s: nat, op: Op): Item {
    match op
    case Put(k, v) => Item(k, s, kTypeValue, v)
    case Delete(k) => Item(k, s, kTypeDeletion, [])
  }

  // Operation i is stored at sequence number s + i.
  function ItemsAt(s: nat, ops: seq<Op>): (items: seq<Item>)
    ensures |items| == |ops|
  {
    seq(|ops|, i requires 0 <= i < |ops| => ItemAt(s + i, ops[i]))
  }

  lemma ItemsOneMore(s: nat, ops: seq<Op>, i: nat)
    requires i < |ops|
    ensures ItemsAt(s, ops[..i + 1]) == ItemsAt(s, ops[..i]) + [ItemAt(s + i, ops[i])]
  {
  }

  lemma AddedOneMore(s: nat, ops: seq<Op>, i: nat, was: seq<Item>, items: seq<Item>, items': seq<Item>)
    requires i < |ops| && multiset(items') == multiset(items) + multiset{ItemAt(s + i, ops[i])}
    requires multiset(items) == multiset(was + ItemsAt(s, ops[..i]))
    ensures multiset(items') == multiset(was + ItemsAt(s, ops[..i + 1]))
  {
    ItemsOneMore(s, ops, i);
    ConcatAssociates(was, ItemsAt(s, ops[..i]), [ItemAt(s + i, ops[i])]);
  }

  predicate AllBelow(items: seq<Item>, s: nat) { forall i :: 0 <= i < |items| ==> items[i].seqno < s }

  // MemTableInserter: the handler that InsertInto passes to Iterate.
  class MemTableInserter {
    var sequence: nat
    const mem: MemTable

    constructor (mem: MemTable, s: nat)
      ensures this.mem == mem && sequence == s
    {
      this.mem, sequence := mem, s;
    }

    method Handle(op: Op, height: nat)
      requires mem.Valid() && OpOk(op) && sequence <= kMaxSequenceNumber && 1 <= height <= kMaxHeight && AllBelow(mem.items, sequence)
      modifies this, mem, mem.table
      ensures mem.Valid() && sequence == old(sequence) + 1
      ensures multiset(mem.items) == multiset(old(mem.items)) + multiset{ItemAt(old(sequence), op)}
      ensures AllBelow(mem.items, sequence)
    {
      ghost var was := mem.items;
      match op {
        case Put(key, value) => mem.Add(sequence, kTypeValue, key, value, height);
        case Delete(key) => mem.Add(sequence, kTypeDeletion, key, [], height);
      }
      BelowMore(was, mem.items, ItemAt(sequence, op), sequence);
      sequence := sequence + 1;
    }

    // The calls that Iterate makes.
    method HandleAll(calls: seq<Op>, heights: seq<nat>)
      requires mem.Valid() && OpsOk(calls) && sequence + |calls| <= kMaxSequenceNumber + 1 && |heights| == |calls|
      requires forall i :: 0 <= i < |heights| ==> 1 <= heights[i] <= kMaxHeight
      requires AllBelow(mem.items, sequence)
      modifies this, mem, mem.table
      ensures mem.Valid() && multiset(mem.items) == multiset(old(mem.items) + ItemsAt(old(sequence), calls))
    {
      ghost var s, was := sequence, mem.items;
      var i := 0;
      while i < |calls|
        invariant 0 <= i <= |calls| && mem.Valid() && sequence == s + i && AllBelow(mem.items, sequence)
        invariant multiset(mem.items) == multiset(was + ItemsAt(s, calls[..i]))
      {
        ghost var items := mem.items;
        Handle(calls[i], heights[i]);
        AddedOneMore(s, calls, i, was, items, mem.items);
        i := i + 1;
      }
      assert calls[..i] == calls;
    }
  }

  lemma BelowMore(items: seq<Item>, items': seq<Item>, e: Item, s: nat)
    requires AllBelow(items, s) && e.seqno == s && multiset(items') == multiset(items) + multiset{e}
    ensures AllBelow(items', s + 1)
  {
    forall i | 0 <= i < |items'| ensures items'[i].seqno < s + 1 {
      assert items'[i] in multiset(items');
      assert items'[i] == e || items'[i] in multiset(items);
    }
  }

  method InsertInto(rep: Bytes, mem: MemTable, heights: seq<nat>) returns (status: Status)
    requires mem.Valid() && |rep| >= kHeader
    requires var p := IterateOf(rep);
             OpsOk(p.calls) && DecodeFixed(rep[..8]) + |p.calls| <= kMaxSequenceNumber + 1 && |heights| == |p.calls|
    requires forall i :: 0 <= i < |heights| ==> 1 <= heights[i] <= kMaxHeight
    requires AllBelow(mem.items, DecodeFixed(rep[..8]))
    modifies mem, mem.table
    ensures mem.Valid() && status == IterateOf(rep).status
    ensures multiset(mem.items) == multiset(old(mem.items) + ItemsAt(DecodeFixed(rep[..8]), IterateOf(rep).calls))
  {
    var inserter := new MemTableInserter(mem, DecodeFixed(rep[..8]));
    var calls;
    calls, status := Iterate(rep);
    inserter.HandleAll(calls, heights);
  }

  // ---------------------------------------------------------------- what a reader sees

  // A lookup after some operations, newest first.
  function After(cmp: Comparator, ops: seq<Op>, key: Bytes, before: Lookup): Lookup {
    if ops == [] then before
    else
      var op := ops[|ops| - 1];
      if SameUserKey(cmp, op.key, key) then (if op.Put? then Present(op.value) else Deleted)
      else After(cmp, ops[..|ops| - 1], key, before)
  }

  lemma AddNewest(cmp: Comparator, items: seq<Item>, e: Item, key: Bytes, snapshot: nat, r: Lookup)
    requires AllBelow(items, e.seqno) && LookupIs(cmp, items, key, snapshot, r)
    ensures LookupIs(cmp, items + [e], key, snapshot, if Visible(cmp, e, key, snapshot) then Outcome(e) else r)
  {
    var items' := items + [e];
    if Visible(cmp, e, key, snapshot) {
      assert Newest(cmp, items', key, snapshot, |items|);
    } else if r != Missing {
      var i :| 0 <= i < |items| && Newest(cmp, items, key, snapshot, i) && r == Outcome(items[i]);
      assert Newest(cmp, items', key, snapshot, i);
    }
  }

  // The operations of a batch at s that lie at or below a snapshot.
  function Seen(s: nat, ops: seq<Op>, snapshot: nat): seq<Op> {
    if snapshot < s then [] else if snapshot - s + 1 < |ops| then ops[..snapshot - s + 1] else ops
  }

  lemma SeenOneMore(s: nat, ops: seq<Op>, snapshot: nat)
    requires ops != []
    ensures var k := |ops| - 1;
            Seen(s, ops, snapshot) == if s + k <= snapshot then ops[..k] + [ops[k]] else Seen(s, ops[..k], snapshot)
    ensures s + |ops| - 1 <= snapshot ==> Seen(s, ops[..|ops| - 1], snapshot) == ops[..|ops| - 1]
  {
  }

  // A snapshot sees exactly those operations: none below s, all from s + |ops| - 1 on.
  lemma {:induction false} BatchLookup(cmp: Comparator, items: seq<Item>, s: nat, ops: seq<Op>, key: Bytes, snapshot: nat, r: Lookup)
    requires AllBelow(items, s) && LookupIs(cmp, items, key, snapshot, r)
    ensures LookupIs(cmp, items + ItemsAt(s, ops), key, snapshot, After(cmp, Seen(s, ops, snapshot), key, r))
    decreases |ops|
  {
    if ops == [] {
      assert items + ItemsAt(s, ops) == items;
    } else {
      var k := |ops| - 1;
      var e, more, seen := ItemAt(s + k, ops[k]), items + ItemsAt(s, ops[..k]), Seen(s, ops[..k], snapshot);
      BatchLookup(cmp, items, s, ops[..k], key, snapshot, r);
      AddNewest(cmp, more, e, key, snapshot, After(cmp, seen, key, r));
      ItemsOneMore(s, ops, k);
      assert ops[..k + 1] == ops;
      ConcatAssociates(items, ItemsAt(s, ops[..k]), [e]);
      SeenOneMore(s, ops, snapshot);
      AfterOneMore(cmp, seen, ops[k], key, r);
    }
  }

  lemma AfterOneMore(cmp: Comparator, ops: seq<Op>, op: Op, key: Bytes, r: Lookup)
    ensures After(cmp, ops + [op], key, r) ==
            if SameUserKey(cmp, op.key, key) then Outcome(ItemAt(0, op)) else After(cmp, ops, key, r)
  {
    assert (ops + [op])[..|ops|] == ops;
  }
}
