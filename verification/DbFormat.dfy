/**
 Internal keys (dbformat.h, dbformat.cc): a user key followed by eight bytes that pack its sequence
 number and type, ordered by increasing user key and decreasing sequence number.
 */
module DbFormat {
  import opened Coding
  import opened SkipLists

  const kTypeDeletion := 0
  const kTypeValue := 1
  const kValueTypeForSeek := kTypeValue
  const kMaxSequenceNumber := 0x100_0000_0000_0000 - 1

  // user_comparator()->Compare, a total preorder.
  type Comparator = (Bytes, Bytes) -> int

  ghost predicate IsComparator(cmp: Comparator) {
    (forall a, b :: cmp(a, b) < 0 <==> cmp(b, a) > 0) &&
    (forall a, b, c :: cmp(a, b) < 0 && cmp(b, c) <= 0 ==> cmp(a, c) < 0) &&
    (forall a, b, c :: cmp(a, b) == 0 && cmp(b, c) < 0 ==> cmp(a, c) < 0) &&
    (forall a, b, c :: cmp(a, b) == 0 && cmp(b, c) == 0 ==> cmp(a, c) == 0)
  }

  predicate SequenceOk(seqno: nat, kind: nat) { seqno <= kMaxSequenceNumber && kind <= kValueTypeForSeek }

  function PackSequenceAndType(seqno: nat, kind: nat): nat {
    seqno * 256 + kind
  }

  function InternalKey(userKey: Bytes, seqno: nat, kind: nat): (s: Bytes)
    ensures |s| == |userKey| + 8
  {
    userKey + EncodeFixed(8, PackSequenceAndType(seqno, kind))
  }

  datatype ParsedInternalKey = ParsedInternalKey(userKey: Bytes, sequence: nat, kind: nat) | BadKey

  function ParseInternalKey(key: Bytes): ParsedInternalKey {
    if |key| < 8 then BadKey
    else
      var num := Tag(key);
      if num % 256 <= kTypeValue then ParsedInternalKey(ExtractUserKey(key), num / 256, num % 256) else BadKey
  }

  // Callers assert that the key has at least eight bytes.
  function ExtractUserKey(key: Bytes): Bytes {
    if |key| < 8 then [] else key[..|key| - 8]
  }

  function Tag(key: Bytes): nat {
    if |key| < 8 then 0 else DecodeFixed(key[|key| - 8..])
  }

  function ExtractValueType(key: Bytes): nat { Tag(key) % 256 }

  lemma Pow256Of8()
    ensures Pow256(8) == 0x1_0000_0000_0000_0000
  {
    assert Pow256(4) == 0x1_0000_0000;
  }

  lemma InternalKeyParts(userKey: Bytes, seqno: nat, kind: nat)
    requires SequenceOk(seqno, kind)
    ensures ExtractUserKey(InternalKey(userKey, seqno, kind)) == userKey
    ensures Tag(InternalKey(userKey, seqno, kind)) == PackSequenceAndType(seqno, kind)
  {
    Pow256Of8();
    FixedRoundTrip(8, PackSequenceAndType(seqno, kind));
    assert InternalKey(userKey, seqno, kind)[|userKey|..] == EncodeFixed(8, PackSequenceAndType(seqno, kind));
  }

  lemma InternalKeyFields(userKey: Bytes, seqno: nat, kind: nat)
    requires SequenceOk(seqno, kind)
    ensures ExtractUserKey(InternalKey(userKey, seqno, kind)) == userKey
    ensures Tag(InternalKey(userKey, seqno, kind)) % 256 == kind && Tag(InternalKey(userKey, seqno, kind)) / 256 == seqno
  {
    InternalKeyParts(userKey, seqno, kind);
  }

  // Parsing inverts building, and accepts nothing else.
  lemma ParseRoundTrip(userKey: Bytes, seqno: nat, kind: nat)
    requires SequenceOk(seqno, kind)
    ensures ParseInternalKey(InternalKey(userKey, seqno, kind)) == ParsedInternalKey(userKey, seqno, kind)
  {
    InternalKeyParts(userKey, seqno, kind);
  }

  lemma ParseAcceptsOnlyBuilt(key: Bytes)
    ensures var p := ParseInternalKey(key);
            p.ParsedInternalKey? ==> SequenceOk(p.sequence, p.kind) && key == InternalKey(p.userKey, p.sequence, p.kind)
    ensures ParseInternalKey(key) == BadKey <==> |key| < 8 || ExtractValueType(key) > kTypeValue
  {
    if |key| >= 8 {
      Pow256Of8();
      FixedBound(key[|key| - 8..]);
      assert key == key[..|key| - 8] + key[|key| - 8..];
    }
  }

  // InternalKeyComparator::Compare.
  function Compare(cmp: Comparator, a: Bytes, b: Bytes): int {
    var r := cmp(ExtractUserKey(a), ExtractUserKey(b));
    if r == 0 then
      if Tag(a) > Tag(b) then -1 else if Tag(a) < Tag(b) then 1 else 0
    else r
  }

  lemma CompareTurns(cmp: Comparator, a: Bytes, b: Bytes)
    requires IsComparator(cmp)
    ensures Compare(cmp, a, b) < 0 <==> Compare(cmp, b, a) > 0
  {
    var x, y := ExtractUserKey(a), ExtractUserKey(b);
    assert (cmp(x, y) < 0 <==> cmp(y, x) > 0) && (cmp(y, x) < 0 <==> cmp(x, y) > 0);
  }

  lemma CompareChains(cmp: Comparator, a: Bytes, b: Bytes, c: Bytes)
    requires IsComparator(cmp)
    ensures Compare(cmp, a, b) < 0 && Compare(cmp, b, c) <= 0 ==> Compare(cmp, a, c) < 0
    ensures Compare(cmp, a, b) == 0 && Compare(cmp, b, c) < 0 ==> Compare(cmp, a, c) < 0
    ensures Compare(cmp, a, b) == 0 && Compare(cmp, b, c) == 0 ==> Compare(cmp, a, c) == 0
  {
    UserKeysChain(cmp, ExtractUserKey(a), ExtractUserKey(b), ExtractUserKey(c));
  }

  lemma UserKeysChain(cmp: Comparator, x: Bytes, y: Bytes, z: Bytes)
    requires IsComparator(cmp)
    ensures cmp(x, y) < 0 && cmp(y, z) <= 0 ==> cmp(x, z) < 0
    ensures cmp(x, y) == 0 && cmp(y, z) < 0 ==> cmp(x, z) < 0
    ensures cmp(x, y) == 0 && cmp(y, z) == 0 ==> cmp(x, z) == 0
  {
  }

  lemma CompareIsComparator(cmp: Comparator)
    requires IsComparator(cmp)
    ensures IsComparator((a, b) => Compare(cmp, a, b))
  {
    var keyOrder := (a, b) => Compare(cmp, a, b);
    forall a, b ensures keyOrder(a, b) < 0 <==> keyOrder(b, a) > 0 { CompareTurns(cmp, a, b); }
    forall a, b, c ensures keyOrder(a, b) < 0 && keyOrder(b, c) <= 0 ==> keyOrder(a, c) < 0 { CompareChains(cmp, a, b, c); }
    forall a, b, c ensures keyOrder(a, b) == 0 && keyOrder(b, c) < 0 ==> keyOrder(a, c) < 0 { CompareChains(cmp, a, b, c); }
    forall a, b, c ensures keyOrder(a, b) == 0 && keyOrder(b, c) == 0 ==> keyOrder(a, c) == 0 { CompareChains(cmp, a, b, c); }
  }

  // Increasing user key, then decreasing sequence number, then decreasing type.
  lemma CompareOrders(cmp: Comparator, k: Bytes, s: nat, t: nat, k': Bytes, s': nat, t': nat)
    requires SequenceOk(s, t) && SequenceOk(s', t')
    ensures Compare(cmp, InternalKey(k, s, t), InternalKey(k', s', t')) < 0 <==>
              cmp(k, k') < 0 || (cmp(k, k') == 0 && (s > s' || (s == s' && t > t')))
    ensures Compare(cmp, InternalKey(k, s, t), InternalKey(k', s', t')) == 0 <==> cmp(k, k') == 0 && s == s' && t == t'
  {
    InternalKeyParts(k, s, t);
    InternalKeyParts(k', s', t');
  }

  // The key that seeks to the newest version at or below a sequence number: exactly those are at
  // or after it.
  lemma SeekKeySplitsVersions(cmp: Comparator, k: Bytes, s: nat, t: nat, target: Bytes, snapshot: nat)
    requires SequenceOk(s, t) && snapshot <= kMaxSequenceNumber && cmp(k, target) == 0
    ensures Compare(cmp, InternalKey(k, s, t), InternalKey(target, snapshot, kValueTypeForSeek)) < 0 <==> s > snapshot
  {
    CompareOrders(cmp, k, s, t, target, snapshot, kValueTypeForSeek);
  }

  // InternalKeyComparator::FindShortestSeparator, for what the user comparator made of the user key.
  function ShortestSeparator(cmp: Comparator, start: Bytes, limit: Bytes, shortened: Bytes): Bytes {
    if |shortened| < |ExtractUserKey(start)| && cmp(ExtractUserKey(start), shortened) < 0
    then InternalKey(shortened, kMaxSequenceNumber, kValueTypeForSeek) else start
  }

  // A user separator in [start, limit) gives an internal one; so the assertions in the code hold.
  lemma SeparatorSeparates(cmp: Comparator, start: Bytes, limit: Bytes, shortened: Bytes)
    requires IsComparator(cmp) && |start| >= 8 && |limit| >= 8 && Compare(cmp, start, limit) < 0
    requires cmp(ExtractUserKey(start), ExtractUserKey(limit)) < 0 ==> cmp(shortened, ExtractUserKey(limit)) < 0
    requires cmp(ExtractUserKey(start), ExtractUserKey(limit)) == 0 ==> shortened == ExtractUserKey(start)
    ensures var r := ShortestSeparator(cmp, start, limit, shortened);
            Compare(cmp, start, r) <= 0 && Compare(cmp, r, limit) < 0 && |r| <= |start|
  {
    InternalKeyParts(shortened, kMaxSequenceNumber, kValueTypeForSeek);
  }
}
