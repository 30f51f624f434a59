/**
 Which fields pb_encode leaves out, and that leaving them out loses nothing where defaults are zero.
 */
module PbZero {
  import opened Coding
  import opened Options
  import opened PbFields
  import opened PbVarint
  import opened PbMessage
  import opened PbRoundTrip

  // ---------------------------------------------------------------- what is not written

  // A single value without a has_ flag is left out if it is zero or empty; a submessage, if nothing in it
  // would be written.
  predicate Empty(f: Field, v: Value)
    requires ValueOk(f, v)
  {
    if f.d.ltype == SUBMESSAGE then EncFields(f.sub, v.slots, 0) == [] else v == Int(0) || v == Data([])
  }

  lemma VarintIsSome(n: nat)
    ensures EncodeVarint(n) != []
  {
  }

  lemma TaggedIsSome(f: Field, v: Value)
    requires ValueOk(f, v)
    ensures EncTag(WireType(f), f.d.tag) + EncValue(f, v) != []
  {
    VarintIsSome(f.d.tag * 8 + WireType(f));
  }

  lemma {:induction false} FieldsEmptyIff(fs: seq<Field>, slots: seq<Slot>, i: nat)
    requires SlotsOk(fs, slots) && i <= |fs|
    ensures EncFields(fs, slots, i) == [] <==> forall j :: i <= j < |fs| ==> ZeroSlot(fs[j], slots[j])
    decreases slots, |fs| - i
  {
    if i < |fs| {
      assert SlotOk(fs[i], slots[i]);
      WritesNothing(fs[i], slots[i]);
      FieldsEmptyIff(fs, slots, i + 1);
    }
  }

  // The test that decides about a value.
  lemma {:induction false} ZeroIsEmpty(f: Field, v: Value)
    requires ValueOk(f, v)
    ensures ZeroValue(f, v) <==> Empty(f, v)
    decreases v, 0
  {
    if f.d.ltype == SUBMESSAGE { FieldsEmptyIff(f.sub, v.slots, 0); }
  }

  lemma {:induction false} WritesNothing(f: Field, s: Slot)
    requires SlotOk(f, s)
    ensures EncSlot(f, s) == [] <==> ZeroSlot(f, s)
    decreases s
  {
    match s
    case Plain(v) => TaggedIsSome(f, v);
    case Maybe(has, v) => if has { TaggedIsSome(f, v); }
    case Many(items) => if items != [] { ArrayIsSome(f, items); }
    case Choice(chosen) => if chosen.Some? { TaggedIsSome(f, chosen.value); }
  }

  lemma ArrayIsSome(f: Field, items: seq<Value>)
    requires items != [] && AllOk(f, items)
    ensures EncTagged(f, items) != [] && EncTag(PB_WT_STRING, f.d.tag) + PutLengthPrefixed(EncItems(f, items)) != []
  {
    VarintIsSome(f.d.tag * 8 + WireType(f));
    VarintIsSome(f.d.tag * 8 + PB_WT_STRING);
  }

  // A field writes nothing exactly if it is an absent optional field, an empty array, a oneof member not
  // chosen, or a single value without a has_ flag that is zero or empty.
  lemma WritesNothingIff(f: Field, s: Slot)
    requires SlotOk(f, s)
    ensures EncSlot(f, s) == [] <==>
            match s
            case Plain(v) => f.d.htype != REQUIRED && Empty(f, v)
            case Maybe(has, _) => !has
            case Many(items) => items == []
            case Choice(chosen) => chosen == None
  {
    WritesNothing(f, s);
    if s.Plain? { ZeroIsEmpty(f, s.v); }
  }

  // ---------------------------------------------------------------- zero defaults

  // The defaults of the field are zero or empty, at every depth.
  predicate ZeroInit(f: Field)
    decreases f
  {
    match f.d.ltype
    case SUBMESSAGE => ZeroInits(f.sub)
    case BYTES => f.init == Data([])
    case STRING => f.init == Data([])
    case FIXED_LENGTH_BYTES => f.init == Data(ZeroBytes(f.d.dataSize))
    case _ => f.init == Int(0)
  }

  predicate ZeroInits(fs: seq<Field>)
    decreases fs
  {
    forall i {:trigger ZeroInit(fs[i])} :: 0 <= i < |fs| ==> ZeroInit(fs[i])
  }

  // What an absent optional field holds, at every depth, is its default.
  predicate AbsentSlot(f: Field, s: Slot)
    decreases s
  {
    match s
    case Plain(v) => AbsentValue(f, v)
    case Maybe(has, v) => if has then AbsentValue(f, v) else v == Default(f)
    case Many(items) => AbsentItems(f, items)
    case Choice(chosen) => chosen.Some? ==> AbsentValue(f, chosen.value)
  }

  predicate AbsentItems(f: Field, vs: seq<Value>)
    decreases vs
  {
    vs == [] || (AbsentValue(f, vs[0]) && AbsentItems(f, vs[1..]))
  }

  predicate AbsentValue(f: Field, v: Value)
    decreases v
  {
    f.d.ltype == SUBMESSAGE && v.Msg? ==> AbsentDefaults(f.sub, v.slots)
  }

  predicate AbsentDefaults(fs: seq<Field>, slots: seq<Slot>)
    decreases slots
  {
    |slots| == |fs| && forall i {:trigger AbsentSlot(fs[i], slots[i])} :: 0 <= i < |fs| ==> AbsentSlot(fs[i], slots[i])
  }

  lemma {:induction false} ZeroIsDefault(f: Field, v: Value)
    requires ZeroInit(f) && ValueOk(f, v) && AbsentValue(f, v) && ZeroValue(f, v)
    ensures v == Default(f)
    decreases v
  {
    match f.d.ltype
    case SUBMESSAGE =>
      forall i | 0 <= i < |f.sub| ensures v.slots[i] == DefaultSlot(f.sub[i]) {
        assert ZeroInit(f.sub[i]) && SlotOk(f.sub[i], v.slots[i]) && AbsentSlot(f.sub[i], v.slots[i]) && ZeroSlot(f.sub[i], v.slots[i]);
        if v.slots[i].Plain? { ZeroIsDefault(f.sub[i], v.slots[i].v); }
      }
      assert v.slots == Defaults(f.sub);
    case FIXED_LENGTH_BYTES => assert v.b == ZeroBytes(0);
    case _ =>
  }

  lemma {:induction false} NothingMasked(fs: seq<Field>, m: seq<Slot>)
    requires ZeroInits(fs) && SlotsOk(fs, m) && AbsentDefaults(fs, m)
    ensures Settled(fs, m)
    decreases m
  {
    forall i | 0 <= i < |fs| ensures SettledSlot(fs[i], m[i]) {
      assert ZeroInit(fs[i]) && SlotOk(fs[i], m[i]) && AbsentSlot(fs[i], m[i]);
      SlotNotMasked(fs[i], m[i]);
    }
  }

  lemma {:induction false} SlotNotMasked(f: Field, s: Slot)
    requires ZeroInit(f) && SlotOk(f, s) && AbsentSlot(f, s)
    ensures SettledSlot(f, s)
    decreases s
  {
    match s
    case Plain(v) =>
      ValueNotMasked(f, v);
      if ZeroValue(f, v) { ZeroIsDefault(f, v); }
    case Maybe(has, v) => if has { ValueNotMasked(f, v); }
    case Many(items) => ItemsNotMasked(f, items);
    case Choice(chosen) => if chosen.Some? { ValueNotMasked(f, chosen.value); }
  }

  lemma {:induction false} ItemsNotMasked(f: Field, vs: seq<Value>)
    requires ZeroInit(f) && AllOk(f, vs) && AbsentItems(f, vs)
    ensures SettledItems(f, vs)
    decreases vs
  {
    if vs != [] {
      ValueNotMasked(f, vs[0]);
      ItemsNotMasked(f, vs[1..]);
    }
  }

  lemma {:induction false} ValueNotMasked(f: Field, v: Value)
    requires ZeroInit(f) && ValueOk(f, v) && AbsentValue(f, v)
    ensures SettledValue(f, v)
    decreases v
  {
    if f.d.ltype == SUBMESSAGE { NothingMasked(f.sub, v.slots); }
  }

  // Under a descriptor whose defaults are zero or empty, every message in range comes back as it was.
  lemma ZeroDefaultsRoundTrip(fs: seq<Field>, m: seq<Slot>)
    requires DescOk(fs) && ZeroInits(fs) && SlotsOk(fs, m) && AbsentDefaults(fs, m) && |EncFields(fs, m, 0)| < TWO_32
    ensures DecMsg(fs, Defaults(fs), EncFields(fs, m, 0)) == Some(m)
  {
    MessageRoundTrip(fs, m);
    NothingMasked(fs, m);
    RestoredExactly(fs, m);
  }
}
