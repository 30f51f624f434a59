/**
 What pb_decode makes of any well-formed stream: records in any order and number, unknown fields among
 them, on top of any struct.  It fails exactly if an array overflows or a required field is missing,
 at some depth.
 */
module PbStreams {
  import opened Coding
  import opened Options
  import opened PbFields
  import opened PbVarint
  import opened PbMessage
  import opened PbRoundTrip

  // ---------------------------------------------------------------- streams

  // One record of a stream: a value, a packed array, a submessage that is a stream itself, or a field
  // that the descriptor does not have.
  datatype Item = One(i: nat, v: Value) | Run(i: nat, vs: seq<Value>) | Sub(i: nat, inner: seq<Item>) | Stray(u: UnknownField)

  function ItemPayload(fs: seq<Field>, it: Item): Bytes
    requires it.Stray? || it.i < |fs|
    decreases it, 0
  {
    match it
    case One(i, v) => if ValueOk(fs[i], v) then EncValue(fs[i], v) else []
    case Run(i, vs) => if AllOk(fs[i], vs) then PutLengthPrefixed(EncItems(fs[i], vs)) else []
    case Sub(i, inner) => PutLengthPrefixed(Wire(fs[i].sub, inner))
    case Stray(u) => UnknownPayload(u)
  }

  function ItemType(fs: seq<Field>, it: Item): nat
    requires it.Stray? || it.i < |fs|
  {
    match it
    case One(i, _) => WireType(fs[i])
    case Run(_, _) => PB_WT_STRING
    case Sub(_, _) => PB_WT_STRING
    case Stray(u) => UnknownType(u)
  }

  function ItemBytes(fs: seq<Field>, it: Item): Bytes
    decreases it, 1
  {
    if it.Stray? then EncUnknown(it.u)
    else if it.i < |fs| then EncTag(ItemType(fs, it), fs[it.i].d.tag) + ItemPayload(fs, it)
    else []
  }

  function Wire(fs: seq<Field>, its: seq<Item>): Bytes
    decreases its
  {
    if its == [] then [] else ItemBytes(fs, its[0]) + Wire(fs, its[1..])
  }

  predicate ItemOk(fs: seq<Field>, it: Item)
    decreases it
  {
    match it
    case One(i, v) => i < |fs| && fs[i].d.ltype != SUBMESSAGE && ValueOk(fs[i], v)
    case Run(i, vs) => i < |fs| && fs[i].d.htype == REPEATED && Packable(fs[i]) && AllOk(fs[i], vs) && |EncItems(fs[i], vs)| < TWO_32
    case Sub(i, inner) =>
      i < |fs| && fs[i].d.ltype == SUBMESSAGE && ItemsOk(fs[i].sub, inner) && |Wire(fs[i].sub, inner)| < TWO_32
    case Stray(u) => UnknownOk(fs, u)
  }

  predicate ItemsOk(fs: seq<Field>, its: seq<Item>)
    decreases its
  {
    its == [] || (ItemOk(fs, its[0]) && ItemsOk(fs, its[1..]))
  }

  // ---------------------------------------------------------------- what a stream means

  // What a value is decoded on top of: what the struct holds, but for arrays and unions.
  function Current(f: Field, s: Slot): Value {
    if f.d.htype in {REQUIRED, OPTIONAL} && HasFlag(f) == s.Maybe? && (s.Plain? || s.Maybe?) then s.v else Default(f)
  }

  function ItemsIn(s: Slot): seq<Value> { if s.Many? then s.items else [] }

  // The field with one more value.
  function With(f: Field, s: Slot, v: Value): Slot {
    match f.d.htype
    case REQUIRED => Plain(v)
    case OPTIONAL => if HasFlag(f) then Maybe(true, v) else Plain(v)
    case REPEATED => Many(ItemsIn(s) + [v])
    case ONEOF => Choice(Some(v))
  }

  function SlotsOf(f: Field, v: Value): (slots: seq<Slot>)
    ensures |slots| == |f.sub|
  {
    if v.Msg? && |v.slots| == |f.sub| then v.slots else Defaults(f.sub)
  }

  // The struct after one record ...
  function Put(fs: seq<Field>, slots: seq<Slot>, it: Item): (r: seq<Slot>)
    requires |slots| == |fs|
    ensures |r| == |fs|
    decreases it
  {
    if it.Stray? || it.i >= |fs| then slots
    else
      var f, s := fs[it.i], slots[it.i];
      match it
      case One(i, v) => Store(fs, slots, i, With(f, s, v))
      case Run(i, vs) => Store(fs, slots, i, Many(ItemsIn(s) + vs))
      case Sub(i, inner) => Store(fs, slots, i, With(f, s, Msg(Absorb(f.sub, SlotsOf(f, Current(f, s)), inner))))
  }

  // ... and after all: the last value wins, arrays grow, submessages are merged.
  function Absorb(fs: seq<Field>, slots: seq<Slot>, its: seq<Item>): (r: seq<Slot>)
    requires |slots| == |fs|
    ensures |r| == |fs|
    decreases its
  {
    if its == [] then slots else Absorb(fs, Put(fs, slots, its[0]), its[1..])
  }

  // No array gets more than it holds.
  predicate ItemFits(fs: seq<Field>, slots: seq<Slot>, it: Item)
    requires |slots| == |fs|
    decreases it
  {
    if it.Stray? || it.i >= |fs| then true
    else
      var f, s := fs[it.i], slots[it.i];
      match it
      case One(_, _) => f.d.htype == REPEATED ==> |ItemsIn(s)| < f.d.arraySize
      case Run(_, vs) => vs == [] || |ItemsIn(s)| + |vs| <= f.d.arraySize
      case Sub(_, inner) =>
        (f.d.htype == REPEATED ==> |ItemsIn(s)| < f.d.arraySize) && AllFit(f.sub, SlotsOf(f, Current(f, s)), inner)
  }

  predicate AllFit(fs: seq<Field>, slots: seq<Slot>, its: seq<Item>)
    requires |slots| == |fs|
    decreases its
  {
    its == [] || (ItemFits(fs, slots, its[0]) && AllFit(fs, Put(fs, slots, its[0]), its[1..]))
  }

  predicate IsOf(it: Item, j: nat) { !it.Stray? && it.i == j }

  // Some record of each of the first 64 required fields.
  ghost predicate HasRequired(fs: seq<Field>, its: seq<Item>) {
    forall j :: 0 <= j < |fs| && fs[j].d.htype == REQUIRED && RequiredIndex(Descs(fs), j) < PB_MAX_REQUIRED_FIELDS ==>
      exists k :: 0 <= k < |its| && IsOf(its[k], j)
  }

  ghost predicate ItemComplete(fs: seq<Field>, it: Item)
    decreases it
  {
    it.Sub? && it.i < |fs| ==> HasRequired(fs[it.i].sub, it.inner) && InnerComplete(fs[it.i].sub, it.inner)
  }

  ghost predicate InnerComplete(fs: seq<Field>, its: seq<Item>)
    decreases its
  {
    its == [] || (ItemComplete(fs, its[0]) && InnerComplete(fs, its[1..]))
  }

  // No required field is missing, at any depth.
  ghost predicate Complete(fs: seq<Field>, its: seq<Item>) { HasRequired(fs, its) && InnerComplete(fs, its) }

  // ---------------------------------------------------------------- one record

  lemma {:induction false} PackedDecodes(f: Field, done: seq<Value>, vs: seq<Value>)
    requires Packable(f) && AllOk(f, vs)
    ensures DecPacked(f, done, EncItems(f, vs)) == if vs == [] || |done| + |vs| <= f.d.arraySize then Some(done + vs) else None
    decreases |vs|
  {
    if vs != [] {
      IntRoundTrip(f, vs[0], EncItems(f, vs[1..]));
      PackedDecodes(f, done + [vs[0]], vs[1..]);
      assert done + [vs[0]] + vs[1..] == done + vs;
      if vs[1..] == [] { assert EncItems(f, vs[1..]) == []; }
    } else {
      assert done + vs == done;
    }
  }

  lemma OneDecodes(f: Field, current: Value, v: Value, rest: Bytes)
    requires FieldOk(f) && f.d.ltype != SUBMESSAGE && ValueOk(f, v)
    ensures DecValue(f, current, EncValue(f, v) + rest) == Got(v, rest)
  {
    if Packable(f) { IntRoundTrip(f, v, rest); } else { DataRoundTrip(f, v, rest); }
  }

  // What a value does to its field.
  lemma ValueDecodes(f: Field, s: Slot, wireType: nat, bytes: Bytes, got: Got<Value>)
    requires f.d.htype == REPEATED ==> !(wireType == PB_WT_STRING && Packable(f))
    requires DecValue(f, Current(f, s), bytes) == got
    ensures DecField(f, s, wireType, bytes) ==
            if (f.d.htype == REPEATED ==> |ItemsIn(s)| < f.d.arraySize) && got.Got? then Got(With(f, s, got.value), got.rest) else Fail
  {
  }

  lemma RunDecodes(f: Field, s: Slot, vs: seq<Value>, rest: Bytes)
    requires f.d.htype == REPEATED && Packable(f) && AllOk(f, vs) && |EncItems(f, vs)| < TWO_32
    ensures DecField(f, s, PB_WT_STRING, PutLengthPrefixed(EncItems(f, vs)) + rest) ==
            if vs == [] || |ItemsIn(s)| + |vs| <= f.d.arraySize then Got(Many(ItemsIn(s) + vs), rest) else Fail
  {
    PrefixedRoundTrip(EncItems(f, vs), rest);
    PackedDecodes(f, ItemsIn(s), vs);
  }

  lemma SubDecodes(f: Field, current: Value, body: Bytes, rest: Bytes)
    requires f.d.ltype == SUBMESSAGE && |body| < TWO_32
    ensures DecValue(f, current, PutLengthPrefixed(body) + rest) ==
            var m := DecMsg(f.sub, SlotsOf(f, current), body); if m.Some? then Got(Msg(m.value), rest) else Fail
  {
    PrefixedRoundTrip(body, rest);
  }

  lemma FieldStep(fs: seq<Field>, slots: seq<Slot>, seen: set<nat>, s: Bytes, tag: nat, wireType: nat, after: Bytes, i: nat)
    requires |slots| == |fs| && s != [] && DecTag(s) == Tag(tag, wireType, after) && FindTag(fs, tag) == i < |fs|
    ensures DecLoop(fs, slots, seen, s) ==
            var d := DecField(fs[i], slots[i], wireType, after);
            if d.Got? then DecLoop(fs, Store(fs, slots, i, d.value), Mark(fs, seen, i), d.rest) else Bad
  {
  }

  function Marked(fs: seq<Field>, seen: set<nat>, it: Item): set<nat> {
    if it.Stray? || it.i >= |fs| then seen else Mark(fs, seen, it.i)
  }

  ghost predicate Accepted(fs: seq<Field>, slots: seq<Slot>, it: Item)
    requires |slots| == |fs|
  {
    ItemFits(fs, slots, it) && ItemComplete(fs, it)
  }

  // The field of a record, given what its submessage decodes to.
  lemma ItemField(fs: seq<Field>, slots: seq<Slot>, it: Item, rest: Bytes)
    requires DescOk(fs) && |slots| == |fs| && ItemOk(fs, it) && !it.Stray?
    requires it.Sub? ==>
               var f := fs[it.i];
               var start := SlotsOf(f, Current(f, slots[it.i]));
               DecMsg(f.sub, start, Wire(f.sub, it.inner)) ==
               if AllFit(f.sub, start, it.inner) && Complete(f.sub, it.inner) then Some(Absorb(f.sub, start, it.inner)) else None
    ensures var d := DecField(fs[it.i], slots[it.i], ItemType(fs, it), ItemPayload(fs, it) + rest);
            (d.Got? <==> Accepted(fs, slots, it)) && (d.Got? ==> d.rest == rest && Store(fs, slots, it.i, d.value) == Put(fs, slots, it))
  {
    var f, s := fs[it.i], slots[it.i];
    assert FieldOk(f);
    match it
    case One(i, v) =>
      OneDecodes(f, Current(f, s), v, rest);
      ValueDecodes(f, s, WireType(f), EncValue(f, v) + rest, Got(v, rest));
    case Run(i, vs) => RunDecodes(f, s, vs, rest);
    case Sub(i, inner) =>
      SubDecodes(f, Current(f, s), Wire(f.sub, inner), rest);
      ValueDecodes(f, s, PB_WT_STRING, ItemPayload(fs, it) + rest, DecValue(f, Current(f, s), ItemPayload(fs, it) + rest));
  }

  // One record takes the decoder on, or makes it fail.
  lemma {:induction false} ItemDecodes(fs: seq<Field>, slots: seq<Slot>, seen: set<nat>, it: Item, rest: Bytes)
    requires DescOk(fs) && |slots| == |fs| && ItemOk(fs, it)
    ensures DecLoop(fs, slots, seen, ItemBytes(fs, it) + rest) ==
            if Accepted(fs, slots, it) then DecLoop(fs, Put(fs, slots, it), Marked(fs, seen, it), rest) else Bad
    decreases it
  {
    if it.Stray? {
      UnknownIsSkipped(fs, slots, seen, it.u, rest);
    } else {
      var f, payload := fs[it.i], ItemPayload(fs, it);
      assert FieldOk(f);
      if it.Sub? { StreamDecodes(f.sub, SlotsOf(f, Current(f, slots[it.i])), it.inner); }
      ConcatAssociates(EncTag(ItemType(fs, it), f.d.tag), payload, rest);
      TagRoundTrip(ItemType(fs, it), f.d.tag, payload + rest);
      FindTagOfField(fs, it.i, 0);
      ItemField(fs, slots, it, rest);
      FieldStep(fs, slots, seen, ItemBytes(fs, it) + rest, f.d.tag, ItemType(fs, it), payload + rest, it.i);
    }
  }

  // ---------------------------------------------------------------- a stream

  ghost function Seen(fs: seq<Field>, seen: set<nat>, its: seq<Item>): set<nat>
    decreases |its|
  {
    if its == [] then seen else Seen(fs, Marked(fs, seen, its[0]), its[1..])
  }

  lemma {:induction false} LoopDecodes(fs: seq<Field>, slots: seq<Slot>, seen: set<nat>, its: seq<Item>)
    requires DescOk(fs) && |slots| == |fs| && ItemsOk(fs, its)
    ensures DecLoop(fs, slots, seen, Wire(fs, its)) ==
            if AllFit(fs, slots, its) && InnerComplete(fs, its) then Decoded(Absorb(fs, slots, its), Seen(fs, seen, its)) else Bad
    decreases its, 0
  {
    if its != [] {
      ItemDecodes(fs, slots, seen, its[0], Wire(fs, its[1..]));
      LoopDecodes(fs, Put(fs, slots, its[0]), Marked(fs, seen, its[0]), its[1..]);
    }
  }

  lemma SameIndex(ds: seq<FieldDesc>, i: nat, j: nat)
    requires i < |ds| && j < |ds| && ds[i].htype == ds[j].htype == REQUIRED && RequiredIndex(ds, i) == RequiredIndex(ds, j)
    ensures i == j
  {
    if i < j { RequiredIndexGrows(ds, i, j); }
    if j < i { RequiredIndexGrows(ds, j, i); }
  }

  // A required field has been seen exactly if it was before or there is a record of it.
  lemma {:induction false} SeenIff(fs: seq<Field>, seen: set<nat>, its: seq<Item>, j: nat)
    requires j < |fs| && fs[j].d.htype == REQUIRED && RequiredIndex(Descs(fs), j) < PB_MAX_REQUIRED_FIELDS
    ensures RequiredIndex(Descs(fs), j) in Seen(fs, seen, its) <==>
            RequiredIndex(Descs(fs), j) in seen || exists k :: 0 <= k < |its| && IsOf(its[k], j)
    decreases |its|
  {
    if its != [] {
      var it := its[0];
      SeenIff(fs, Marked(fs, seen, it), its[1..], j);
      if !it.Stray? && it.i < |fs| && fs[it.i].d.htype == REQUIRED && RequiredIndex(Descs(fs), it.i) == RequiredIndex(Descs(fs), j) {
        SameIndex(Descs(fs), it.i, j);
      }
      if k :| 0 <= k < |its| && IsOf(its[k], j) {
        if k > 0 { assert IsOf(its[1..][k - 1], j); }
      }
      if k :| 0 <= k < |its[1..]| && IsOf(its[1..][k], j) { assert IsOf(its[k + 1], j); }
    }
  }

  lemma AllSeenIff(fs: seq<Field>, its: seq<Item>)
    ensures AllSeen(fs, Seen(fs, {}, its)) <==> HasRequired(fs, its)
  {
    if AllSeen(fs, Seen(fs, {}, its)) {
      forall j | 0 <= j < |fs| && fs[j].d.htype == REQUIRED && RequiredIndex(Descs(fs), j) < PB_MAX_REQUIRED_FIELDS
        ensures exists k :: 0 <= k < |its| && IsOf(its[k], j)
      {
        RequiredIndexGrows(Descs(fs), j, |fs|);
        SeenIff(fs, {}, its, j);
      }
    }
    if HasRequired(fs, its) {
      forall k | 0 <= k < PB_MAX_REQUIRED_FIELDS && k < RequiredIndex(Descs(fs), |fs|) ensures k in Seen(fs, {}, its) {
        var j := RequiredAt(Descs(fs), |fs|, k);
        SeenIff(fs, {}, its, j);
      }
    }
  }

  // Decoding a well-formed stream onto any struct gives what the records make of it, and succeeds if and
  // only if no array overflows and no required field is missing, at every depth.
  lemma {:induction false} StreamDecodes(fs: seq<Field>, slots: seq<Slot>, its: seq<Item>)
    requires DescOk(fs) && |slots| == |fs| && ItemsOk(fs, its)
    ensures DecMsg(fs, slots, Wire(fs, its)) ==
            if AllFit(fs, slots, its) && Complete(fs, its) then Some(Absorb(fs, slots, its)) else None
    decreases its, 1
  {
    LoopDecodes(fs, slots, {}, its);
    AllSeenIff(fs, its);
  }

  // So a message without one of the first 64 required fields, at any depth, is refused, and one that has
  // them is not.
  lemma RequiredIff(fs: seq<Field>, its: seq<Item>)
    requires DescOk(fs) && ItemsOk(fs, its) && AllFit(fs, Defaults(fs), its)
    ensures DecMsg(fs, Defaults(fs), Wire(fs, its)).Some? <==> Complete(fs, its)
  {
    StreamDecodes(fs, Defaults(fs), its);
  }
}
