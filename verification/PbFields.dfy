/**
 Field descriptors (pb.h), the cyclic field iterator (pb_common.c) and the bitmap of required fields
 that pb_decode_noinit keeps (pb_decode.c).
 */
module PbFields {
  import opened Coding

  const PB_SIZE_MAX := 0xFFFF_FFFF          // of a 32 bit pb_size_t
  const PB_MAX_REQUIRED_FIELDS := 64
  const PTR_SIZE := 8

  datatype LType =
    | VARINT | UVARINT | SVARINT | FIXED32 | FIXED64
    | BYTES | STRING | SUBMESSAGE | EXTENSION | FIXED_LENGTH_BYTES

  datatype HType = REQUIRED | OPTIONAL | REPEATED | ONEOF

  datatype AType = STATIC | PTR | CALLBACK

  // A pb_field_t.  Descriptors are sequences of these, without the terminator.
  datatype FieldDesc = FieldDesc(
    tag: nat, ltype: LType, htype: HType, atype: AType,
    dataOffset: nat, sizeOffset: int, dataSize: nat, arraySize: nat)

  predicate TagsOk(fields: seq<FieldDesc>) {
    forall i :: 0 <= i < |fields| ==> fields[i].tag != 0
  }

  // ---------------------------------------------------------------- where fields lie

  // A member of a union that is not its first.
  predicate InUnion(fields: seq<FieldDesc>, i: nat)
    requires i < |fields|
  {
    i > 0 && fields[i - 1].htype == ONEOF && fields[i].htype == ONEOF && fields[i].dataOffset == PB_SIZE_MAX
  }

  // The room a field takes in the struct.
  function Extent(f: FieldDesc): nat {
    if f.atype == STATIC && f.htype == REPEATED then f.dataSize * f.arraySize
    else if f.atype == PTR then PTR_SIZE
    else f.dataSize
  }

  // Offset of a field: the paddings up to it and the fields before it, each union counted once.
  function DataAt(fields: seq<FieldDesc>, i: nat): int
    requires i < |fields|
  {
    if i == 0 then fields[0].dataOffset
    else if InUnion(fields, i) then DataAt(fields, i - 1)
    else DataAt(fields, i - 1) + Extent(fields[i - 1]) + fields[i].dataOffset
  }

  // The first member of the union that a field is in.
  function UnionStart(fields: seq<FieldDesc>, i: nat): (u: nat)
    requires i < |fields|
    ensures u <= i && !InUnion(fields, u) && DataAt(fields, u) == DataAt(fields, i)
  {
    if InUnion(fields, i) then UnionStart(fields, i - 1) else i
  }

  // Offset of the count, has_ or which_ member; a union has one for all its members.
  function SizeAt(fields: seq<FieldDesc>, i: nat): int
    requires i < |fields|
  {
    var u := UnionStart(fields, i);
    DataAt(fields, u) + fields[u].sizeOffset
  }

  // Required fields before a position.
  function RequiredIndex(fields: seq<FieldDesc>, i: nat): (n: nat)
    requires i <= |fields|
    ensures n <= i
  {
    if i == 0 then 0 else RequiredIndex(fields, i - 1) + if fields[i - 1].htype == REQUIRED then 1 else 0
  }

  lemma {:induction false} RequiredIndexGrows(fields: seq<FieldDesc>, i: nat, j: nat)
    requires i < j <= |fields|
    ensures RequiredIndex(fields, i) + (if fields[i].htype == REQUIRED then 1 else 0) <= RequiredIndex(fields, j)
    decreases j
  {
    if i < j - 1 { RequiredIndexGrows(fields, i, j - 1); }
  }

  predicate HasTag(fields: seq<FieldDesc>, tag: nat, i: nat) {
    i < |fields| && fields[i].tag == tag && fields[i].ltype != EXTENSION
  }

  // ---------------------------------------------------------------- pb_field_iter_t

  class FieldIter {
    const fields: seq<FieldDesc>
    const dest: int                 // dest_struct
    var pos: nat                    // |fields| is the terminator
    var requiredFieldIndex: nat
    var pData: int
    var pSize: int

    ghost predicate Valid() reads this {
      TagsOk(fields) &&
      if fields == [] then pos == 0 && requiredFieldIndex == 0 && pData == pSize == dest
      else
        pos < |fields| && requiredFieldIndex == RequiredIndex(fields, pos) &&
        pData == dest + DataAt(fields, pos) && pSize == dest + SizeAt(fields, pos)
    }

    // pb_field_iter_begin
    constructor (fields: seq<FieldDesc>, dest: int)
      requires TagsOk(fields)
      ensures Valid() && this.fields == fields && this.dest == dest && pos == 0
    {
      this.fields, this.dest, pos := fields, dest, 0;
      new;
      var _ := Begin();
    }

    method Begin() returns (nonEmpty: bool)
      requires TagsOk(fields)
      modifies this
      ensures Valid() && pos == 0 && nonEmpty == (fields != [])
    {
      pos, requiredFieldIndex := 0, 0;
      pData := dest + if fields == [] then 0 else fields[0].dataOffset;
      pSize := pData + if fields == [] then 0 else fields[0].sizeOffset;
      nonEmpty := fields != [];
    }

    method Next() returns (more: bool)
      requires Valid()
      modifies this
      ensures Valid() && more == (old(pos) + 1 < |fields|)
      ensures pos == if old(pos) + 1 < |fields| then old(pos) + 1 else 0
    {
      if fields == [] {
        return false;
      }
      var prev := fields[pos];
      pos := pos + 1;
      if pos == |fields| {
        var _ := Begin();
        return false;
      }
      var prevSize := prev.dataSize;
      if prev.htype == ONEOF && fields[pos].htype == ONEOF && fields[pos].dataOffset == PB_SIZE_MAX {
        // Members of a union share an address.
        return true;
      } else if prev.atype == STATIC && prev.htype == REPEATED {
        prevSize := prevSize * prev.arraySize;
      } else if prev.atype == PTR {
        prevSize := PTR_SIZE;
      }
      if prev.htype == REQUIRED {
        requiredFieldIndex := requiredFieldIndex + 1;
      }
      pData := pData + prevSize + fields[pos].dataOffset;
      pSize := pData + fields[pos].sizeOffset;
      return true;
    }

    // From any position, a tag other than 0 is found if and only if some field other than the
    // extension placeholder has it.  An empty descriptor has tag 0, that of its terminator.
    method Find(tag: nat) returns (found: bool)
      requires Valid()
      modifies this
      ensures Valid()
      ensures fields != [] ==> (found <==> exists i :: HasTag(fields, tag, i))
      ensures fields == [] ==> (found <==> tag == 0)
      ensures if found then fields != [] ==> HasTag(fields, tag, pos) else pos == old(pos)
    {
      if fields == [] {
        return tag == 0;
      }
      var start := pos;
      ghost var seen := 0;
      while true
        invariant Valid() && 0 <= seen < |fields|
        invariant pos == if start + seen < |fields| then start + seen else start + seen - |fields|
        invariant forall i :: 0 <= i < |fields| && Passed(|fields|, start, seen, i) ==> !HasTag(fields, tag, i)
        decreases |fields| - seen
      {
        if fields[pos].tag == tag && fields[pos].ltype != EXTENSION {
          assert HasTag(fields, tag, pos);
          return true;
        }
        var _ := Next();
        seen := seen + 1;
        if pos == start {
          return false;
        }
      }
    }
  }

  // Position i is among the first seen ones from start, going round.
  predicate Passed(n: nat, start: nat, seen: nat, i: nat) {
    start <= i < start + seen || start <= i + n < start + seen
  }

  // ---------------------------------------------------------------- the bitmap

  function Pow2(n: nat): (p: nat)
    ensures p > 0
  {
    if n == 0 then 1 else 2 * Pow2(n - 1)
  }

  // A word as its bits, least significant first.
  function WordOf(bits: seq<bool>): nat {
    if bits == [] then 0 else (if bits[0] then 1 else 0) + 2 * WordOf(bits[1..])
  }

  // word |= 1 << k
  function OrBit(word: nat, k: nat): nat {
    if k == 0 then word / 2 * 2 + 1 else word % 2 + 2 * OrBit(word / 2, k - 1)
  }

  lemma {:induction false} OrBitSets(bits: seq<bool>, k: nat)
    requires k < |bits|
    ensures OrBit(WordOf(bits), k) == WordOf(bits[k := true])
  {
    LowBit(bits[0], WordOf(bits[1..]));
    if k > 0 {
      OrBitSets(bits[1..], k - 1);
      assert bits[k := true][1..] == bits[1..][k - 1 := true];
    } else {
      assert bits[0 := true][1..] == bits[1..];
    }
  }

  lemma LowBit(b: bool, w: nat)
    ensures ((if b then 1 else 0) + 2 * w) % 2 == (if b then 1 else 0) && ((if b then 1 else 0) + 2 * w) / 2 == w
  {
  }

  // A word is 2^n - 1 if and only if exactly its first n bits are set.
  lemma {:induction false} LowBits(bits: seq<bool>, n: nat)
    requires n <= |bits|
    ensures WordOf(bits) == Pow2(n) - 1 <==> forall i :: 0 <= i < |bits| ==> bits[i] == (i < n)
  {
    if bits != [] {
      var rest := bits[1..];
      LowBits(rest, if n == 0 then 0 else n - 1);
      assert forall i :: 0 <= i < |rest| ==> rest[i] == bits[i + 1];
      if n == 0 {
        assert (forall i :: 0 <= i < |bits| ==> !bits[i]) <==> !bits[0] && forall i :: 0 <= i < |rest| ==> !rest[i];
      } else {
        assert (forall i :: 0 <= i < |bits| ==> bits[i] == (i < n)) <==>
               bits[0] && forall i :: 0 <= i < |rest| ==> rest[i] == (i < n - 1);
      }
    }
  }

  const ALL_BITS := 0xFFFF_FFFF

  // fields_seen holds 64 flags.
  predicate WordsHold(words: seq<nat>, bits: seq<bool>) {
    |words| == 2 && |bits| == PB_MAX_REQUIRED_FIELDS && words[0] == WordOf(bits[..32]) && words[1] == WordOf(bits[32..])
  }

  method MarkSeen(words: seq<nat>, index: nat, ghost bits: seq<bool>) returns (words': seq<nat>)
    requires WordsHold(words, bits) && index < PB_MAX_REQUIRED_FIELDS
    ensures WordsHold(words', bits[index := true])
  {
    var word, bit := index / 32, index % 32;
    words' := words[word := OrBit(words[word], bit)];
    if word == 0 {
      OrBitSets(bits[..32], bit);
      assert bits[index := true][..32] == bits[..32][bit := true] && bits[index := true][32..] == bits[32..];
    } else {
      OrBitSets(bits[32..], bit);
      assert bits[index := true][..32] == bits[..32] && bits[index := true][32..] == bits[32..][bit := true];
    }
  }

  lemma PowersOf2()
    ensures Pow2(32) == ALL_BITS + 1
  {
    assert Pow2(8) == 256;
    assert Pow2(16) == 256 * 256;
    assert Pow2(24) == 256 * 256 * 256;
  }

  lemma {:induction false} ShiftRight(n: nat, k: nat)
    requires k <= n
    ensures (Pow2(n) - 1) / Pow2(k) == Pow2(n - k) - 1
  {
    if k > 0 {
      ShiftRight(n - 1, k - 1);
      assert Pow2(n) == 2 * Pow2(n - 1) && Pow2(k) == 2 * Pow2(k - 1);
      assert (2 * Pow2(n - 1) - 1) / 2 == Pow2(n - 1) - 1;
      DivideByTwice(2 * Pow2(n - 1) - 1, Pow2(k - 1));
    }
  }

  lemma Divided(a: nat, d: nat)
    requires d > 0
    ensures a == a / d * d + a % d
  {
  }

  lemma TwiceProduct(p: nat, d: nat)
    ensures p * (2 * d) == 2 * (p * d)
  {
  }

  lemma DivideByTwice(a: nat, d: nat)
    requires d > 0
    ensures a / (2 * d) == a / 2 / d
  {
    var half := a / 2;
    Divided(half, d);
    TwiceProduct(half / d, d);
    Quotient(a, 2 * d, half / d, 2 * (half % d) + a % 2);
  }

  // The test at the end of pb_decode_noinit: every one of the first 64 required fields was seen.
  method AllRequiredSeen(iter: FieldIter, words: seq<nat>, ghost bits: seq<bool>) returns (ok: bool)
    requires iter.Valid() && WordsHold(words, bits)
    requires forall k :: 0 <= k < |bits| && bits[k] ==> k < RequiredIndex(iter.fields, |iter.fields|)
    modifies iter
    ensures iter.Valid()
    ensures ok <==> forall k :: 0 <= k < PB_MAX_REQUIRED_FIELDS && k < RequiredIndex(iter.fields, |iter.fields|) ==> bits[k]
  {
    var count := CountRequired(iter);
    if count > PB_MAX_REQUIRED_FIELDS {
      count := PB_MAX_REQUIRED_FIELDS;
    }
    ok := CheckWords(words, count, bits);
  }

  method CheckWords(words: seq<nat>, count: nat, ghost bits: seq<bool>) returns (ok: bool)
    requires WordsHold(words, bits) && count <= PB_MAX_REQUIRED_FIELDS
    requires forall k :: 0 <= k < |bits| && bits[k] ==> k < count
    ensures ok <==> forall k :: 0 <= k < count ==> bits[k]
  {
    var i := 0;
    while i < count / 32
      invariant 0 <= i <= count / 32
      invariant forall k :: 0 <= k < 32 * i ==> bits[k]
    {
      WordMeans(words, bits, i, 32);
      if words[i] != ALL_BITS {
        return false;
      }
      i := i + 1;
    }
    if count % 32 != 0 {
      WordMeans(words, bits, i, count % 32);
      if words[i] != ALL_BITS / Pow2(32 - count % 32) {
        return false;
      }
    }
    return true;
  }

  function WordBits(bits: seq<bool>, i: nat): (w: seq<bool>)
    requires |bits| == PB_MAX_REQUIRED_FIELDS && i < 2
    ensures |w| == 32 && forall j :: 0 <= j < 32 ==> w[j] == bits[32 * i + j]
  {
    if i == 0 then bits[..32] else bits[32..]
  }

  // A word with no bit set from n on.
  lemma WordMeans(words: seq<nat>, bits: seq<bool>, i: nat, n: nat)
    requires WordsHold(words, bits) && i < 2 && 0 < n <= 32
    requires forall k :: 32 * i + n <= k < 32 * i + 32 ==> !bits[k]
    ensures words[i] == ALL_BITS / Pow2(32 - n) <==> forall k :: 32 * i <= k < 32 * i + n ==> bits[k]
    ensures Pow2(32 - n) == 1 <== n == 32
  {
    var w := WordBits(bits, i);
    PowersOf2();
    ShiftRight(32, 32 - n);
    LowBits(w, n);
    if forall k :: 32 * i <= k < 32 * i + n ==> bits[k] {
      assert forall j :: 0 <= j < 32 ==> w[j] == (j < n);
    } else {
      var k :| 32 * i <= k < 32 * i + n && !bits[k];
      assert !w[k - 32 * i];
    }
  }

  // One round through the fields; the index the iterator ends with leaves out the last one.
  method CountRequired(iter: FieldIter) returns (count: nat)
    requires iter.Valid()
    modifies iter
    ensures iter.Valid() && count == RequiredIndex(iter.fields, |iter.fields|)
  {
    count := iter.requiredFieldIndex;
    var lastRequired := iter.fields == [] || iter.fields[iter.pos].htype == REQUIRED;
    ghost var at := iter.pos;
    var more := iter.Next();
    while more
      invariant iter.Valid() && (more ==> iter.pos == at + 1 < |iter.fields|) && (!more ==> iter.pos == 0)
      invariant iter.fields != [] ==> at < |iter.fields| && count == RequiredIndex(iter.fields, at)
      invariant iter.fields != [] ==> lastRequired == (iter.fields[at].htype == REQUIRED) && (!more ==> at + 1 == |iter.fields|)
      invariant iter.fields == [] ==> count == 0 && !more
      decreases |iter.fields| - at, more
    {
      count := iter.requiredFieldIndex;
      lastRequired := iter.fields[iter.pos].htype == REQUIRED;
      at := iter.pos;
      more := iter.Next();
    }
    if lastRequired && iter.fields != [] {
      count := count + 1;
    }
  }
}
