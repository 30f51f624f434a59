/**
 Readers and writers with different descriptors: a reader takes the fields that it knows and skips the
 others, whatever their types.
 */
module PbEvolution {
  import opened Coding
  import opened Options
  import opened PbFields
  import opened PbVarint
  import opened PbMessage
  import opened PbRoundTrip
  import opened PbStreams

  // The same kind of field, wherever it is kept in the struct and whatever its default.
  predicate Alike(w: Field, f: Field)
    decreases w
  {
    w.d.tag == f.d.tag && w.d.ltype == f.d.ltype && w.d.htype == f.d.htype && w.d.dataSize == f.d.dataSize &&
    (w.d.ltype == SUBMESSAGE ==> Compatible(w.sub, f.sub))
  }

  // Every field of the writer is alike in the reader, or unknown to it.
  predicate Compatible(ws: seq<Field>, fs: seq<Field>)
    decreases ws
  {
    forall i {:trigger ws[i]} :: 0 <= i < |ws| ==> var j := FindTag(fs, ws[i].d.tag); j < |fs| ==> Alike(ws[i], fs[j])
  }

  function BytesOf(v: Value): Bytes { if v.Data? then v.b else [] }

  // A record as a reader sees it that does not know the field.
  function AsUnknown(ws: seq<Field>, it: Item): UnknownField
    requires ItemOk(ws, it) && !it.Stray?
  {
    var f := ws[it.i];
    match it
    case Run(_, vs) => UnknownString(f.d.tag, EncItems(f, vs))
    case Sub(_, inner) => UnknownString(f.d.tag, Wire(f.sub, inner))
    case One(_, v) =>
      match f.d.ltype
      case VARINT => UnknownVarint(f.d.tag, ToU64(v.i))
      case UVARINT => UnknownVarint(f.d.tag, v.i)
      case SVARINT => UnknownVarint(f.d.tag, ZigZag(v.i))
      case FIXED32 => Unknown32(f.d.tag, EncodeFixed(4, v.i))
      case FIXED64 => Unknown64(f.d.tag, EncodeFixed(8, v.i))
      case STRING => UnknownString(f.d.tag, TillNul(v.b, f.d.dataSize))
      case _ => UnknownString(f.d.tag, BytesOf(v))
  }

  // It is a well-formed unknown field with just the bytes of the record.
  lemma UnknownRecord(ws: seq<Field>, it: Item, fs: seq<Field>)
    requires DescOk(ws) && ItemOk(ws, it) && !it.Stray? && FindTag(fs, ws[it.i].d.tag) == |fs| && DescOk(fs)
    ensures UnknownOk(fs, AsUnknown(ws, it)) && EncUnknown(AsUnknown(ws, it)) == ItemBytes(ws, it)
  {
    assert FieldOk(ws[it.i]);
    NoSuchTag(fs, ws[it.i].d.tag, 0);
    if it.One? && ws[it.i].d.ltype == STRING { TillNulOfString(it.v.b, ws[it.i].d.dataSize); }
  }

  lemma {:induction false} NoSuchTag(fs: seq<Field>, tag: nat, from: nat)
    requires DescOk(fs) && from <= |fs| && FindTag(fs, tag, from) == |fs|
    ensures forall i :: from <= i < |fs| ==> fs[i].d.tag != tag
    decreases |fs| - from
  {
    if from < |fs| {
      assert FieldOk(fs[from]);
      NoSuchTag(fs, tag, from + 1);
    }
  }

  // ---------------------------------------------------------------- what the reader makes of the records

  // Records whose fields the writer does not know either must be unknown to the reader.
  predicate Readable(ws: seq<Field>, fs: seq<Field>, it: Item)
    decreases it
  {
    ItemOk(ws, it) && (it.Stray? ==> UnknownOk(fs, it.u)) &&
    (it.Sub? ==> var j := FindTag(fs, ws[it.i].d.tag); j < |fs| ==> AllReadable(ws[it.i].sub, fs[j].sub, it.inner))
  }

  predicate AllReadable(ws: seq<Field>, fs: seq<Field>, its: seq<Item>)
    decreases its
  {
    its == [] || (Readable(ws, fs, its[0]) && AllReadable(ws, fs, its[1..]))
  }

  function ReadItem(ws: seq<Field>, fs: seq<Field>, it: Item): Item
    requires Readable(ws, fs, it)
    decreases it
  {
    if it.Stray? then it
    else
      var j := FindTag(fs, ws[it.i].d.tag);
      if j == |fs| then Stray(AsUnknown(ws, it))
      else match it
        case One(_, v) => One(j, v)
        case Run(_, vs) => Run(j, vs)
        case Sub(i, inner) => Sub(j, ReadItems(ws[i].sub, fs[j].sub, inner))
  }

  function ReadItems(ws: seq<Field>, fs: seq<Field>, its: seq<Item>): seq<Item>
    requires AllReadable(ws, fs, its)
    decreases its
  {
    if its == [] then [] else [ReadItem(ws, fs, its[0])] + ReadItems(ws, fs, its[1..])
  }

  lemma SameValue(w: Field, f: Field, v: Value)
    requires w.d.ltype == f.d.ltype != SUBMESSAGE && w.d.dataSize == f.d.dataSize && ValueOk(w, v)
    ensures ValueOk(f, v) && EncValue(f, v) == EncValue(w, v) && WireType(f) == WireType(w)
  {
  }

  lemma {:induction false} SameValues(w: Field, f: Field, vs: seq<Value>)
    requires w.d.ltype == f.d.ltype != SUBMESSAGE && w.d.dataSize == f.d.dataSize && AllOk(w, vs)
    ensures AllOk(f, vs) && EncItems(f, vs) == EncItems(w, vs)
    decreases |vs|
  {
    if vs != [] {
      SameValue(w, f, vs[0]);
      SameValues(w, f, vs[1..]);
    }
  }

  lemma {:induction false} ReadRecord(ws: seq<Field>, fs: seq<Field>, it: Item)
    requires DescOk(ws) && DescOk(fs) && Compatible(ws, fs) && Readable(ws, fs, it)
    ensures ItemOk(fs, ReadItem(ws, fs, it)) && ItemBytes(fs, ReadItem(ws, fs, it)) == ItemBytes(ws, it)
    decreases it, 0
  {
    if !it.Stray? {
      var w := ws[it.i];
      assert FieldOk(w);
      var j := FindTag(fs, w.d.tag);
      if j == |fs| {
        UnknownRecord(ws, it, fs);
      } else {
        assert FieldOk(fs[j]) && Alike(w, fs[j]);
        match it
        case One(_, v) => SameValue(w, fs[j], v);
        case Run(_, vs) => SameValues(w, fs[j], vs);
        case Sub(_, inner) => SameStream(w.sub, fs[j].sub, inner);
      }
    }
  }

  // The bytes are those of the records that the reader knows, with unknown fields for the others.
  lemma {:induction false} SameStream(ws: seq<Field>, fs: seq<Field>, its: seq<Item>)
    requires DescOk(ws) && DescOk(fs) && Compatible(ws, fs) && AllReadable(ws, fs, its)
    ensures ItemsOk(fs, ReadItems(ws, fs, its)) && Wire(fs, ReadItems(ws, fs, its)) == Wire(ws, its)
    decreases its, 0
  {
    if its != [] {
      ReadRecord(ws, fs, its[0]);
      SameStream(ws, fs, its[1..]);
      var all := ReadItems(ws, fs, its);
      assert all[1..] == ReadItems(ws, fs, its[1..]);
    }
  }

  // What one descriptor writes another one reads: its own fields, at every depth, as if only they had been
  // written.
  lemma ReaderSkips(ws: seq<Field>, fs: seq<Field>, slots: seq<Slot>, its: seq<Item>)
    requires DescOk(ws) && DescOk(fs) && Compatible(ws, fs) && AllReadable(ws, fs, its) && |slots| == |fs|
    ensures var known := ReadItems(ws, fs, its);
            DecMsg(fs, slots, Wire(ws, its)) == if AllFit(fs, slots, known) && Complete(fs, known) then Some(Absorb(fs, slots, known)) else None
  {
    SameStream(ws, fs, its);
    StreamDecodes(fs, slots, ReadItems(ws, fs, its));
  }

  // ---------------------------------------------------------------- a reader that lacks fields

  function Picked<T>(all: seq<T>, places: seq<nat>): (r: seq<T>)
    requires forall j :: 0 <= j < |places| ==> places[j] < |all|
    ensures |r| == |places| && forall j :: 0 <= j < |places| ==> r[j] == all[places[j]]
  {
    seq(|places|, j requires 0 <= j < |places| => all[places[j]])
  }

  predicate Rising(places: seq<nat>, n: nat) {
    (forall j :: 0 <= j < |places| ==> places[j] < n) && forall j, k :: 0 <= j < k < |places| ==> places[j] < places[k]
  }

  lemma PickedOk(ws: seq<Field>, m: seq<Slot>, places: seq<nat>)
    requires DescOk(ws) && SlotsOk(ws, m) && Rising(places, |ws|)
    ensures DescOk(Picked(ws, places)) && SlotsOk(Picked(ws, places), Picked(m, places))
  {
    var fs, m' := Picked(ws, places), Picked(m, places);
    forall j | 0 <= j < |fs| ensures FieldOk(fs[j]) && SlotOk(fs[j], m'[j]) {
      assert FieldOk(ws[places[j]]) && SlotOk(ws[places[j]], m[places[j]]);
    }
    forall i, j | 0 <= i < j < |fs| && SameOneof(fs[i], fs[j]) ensures m'[i] == Choice(None) || m'[j] == Choice(None) {
      assert SameOneof(ws[places[i]], ws[places[j]]);
    }
  }

  predicate Within(fs: seq<Field>, ws: seq<Field>) { forall j :: 0 <= j < |fs| ==> fs[j] in ws }

  // A piece as an unknown field.
  lemma PieceUnknown(ws: seq<Field>, p: Piece, fs: seq<Field>) returns (u: UnknownField)
    requires DescOk(ws) && PieceOk(ws, p) && Within(fs, ws)
    requires p.Known? ==> forall j :: 0 <= j < |fs| ==> fs[j].d.tag != ws[p.r.i].d.tag
    ensures UnknownOk(fs, u) && EncUnknown(u) == PieceBytes(ws, p)
  {
    if p.Unknown? {
      u := p.u;
    } else {
      var f := ws[p.r.i];
      assert FieldOk(f);
      if p.r.Packed? { u := UnknownString(f.d.tag, EncItems(f, p.r.items)); }
      else if f.d.ltype == SUBMESSAGE { u := UnknownString(f.d.tag, StreamOf(f.sub, p.inner)); }
      else {
        u := AsUnknown(ws, One(p.r.i, p.r.v));
        if f.d.ltype == STRING { TillNulOfString(p.r.v.b, f.d.dataSize); }
      }
    }
  }

  // The pieces of a field that the reader lacks.
  lemma {:induction false} PiecesUnknown(ws: seq<Field>, ps: seq<Piece>, i: nat, fs: seq<Field>) returns (qs: seq<Piece>)
    requires DescOk(ws) && PiecesOk(ws, ps) && i < |ws| && forall k :: 0 <= k < |Knowns(ps)| ==> Knowns(ps)[k].i == i
    requires Within(fs, ws)
    requires forall j :: 0 <= j < |fs| ==> fs[j].d.tag != ws[i].d.tag
    ensures Makes(fs, [], StreamOf(ws, ps), qs)
    decreases |ps|
  {
    if ps == [] {
      qs := [];
    } else {
      if ps[0].Known? { assert Knowns(ps)[0] == ps[0].r; }
      assert Knowns(ps) == KnownIn(ps[0]) + Knowns(ps[1..]);
      forall k | 0 <= k < |Knowns(ps[1..])| ensures Knowns(ps[1..])[k].i == i {
        assert Knowns(ps[1..])[k] == Knowns(ps)[k + |KnownIn(ps[0])|];
      }
      var u := PieceUnknown(ws, ps[0], fs);
      var rest := PiecesUnknown(ws, ps[1..], i, fs);
      qs := [Piece.Unknown(u)] + rest;
      assert qs[1..] == rest && [] + Knowns(rest) == Knowns(rest);
    }
  }

  // What the writer puts for the fields from i on are the records of those of the reader from j on, with
  // unknown fields between.
  lemma {:induction false} PickedMake(ws: seq<Field>, m: seq<Slot>, places: seq<nat>, fs: seq<Field>, m': seq<Slot>, i: nat, j: nat)
    returns (ps: seq<Piece>)
    requires DescOk(ws) && SlotsOk(ws, m) && Rising(places, |ws|) && fs == Picked(ws, places) && m' == Picked(m, places) && SlotsOk(fs, m')
    requires i <= |ws| && j <= |places| && (forall k :: 0 <= k < j ==> places[k] < i) && (forall k :: j <= k < |places| ==> i <= places[k])
    requires |EncFields(ws, m, i)| < TWO_32
    ensures Makes(fs, Recs(fs, m', j), EncFields(ws, m, i), ps)
    decreases |ws| - i
  {
    if i == |ws| {
      ps := [];
    } else {
      assert SlotOk(ws[i], m[i]);
      if j < |places| && places[j] == i {
        var first := SlotMakes(fs, j, m'[j]);
        var rest := PickedMake(ws, m, places, fs, m', i + 1, j + 1);
        MakesConcat(fs, RecsOfSlot(fs[j], j, m'[j]), EncSlot(ws[i], m[i]), first, Recs(fs, m', j + 1), EncFields(ws, m, i + 1), rest);
        ps := first + rest;
      } else {
        var first := SlotUnknown(ws, m, i, places, fs, j);
        var rest := PickedMake(ws, m, places, fs, m', i + 1, j);
        MakesConcat(fs, [], EncSlot(ws[i], m[i]), first, Recs(fs, m', j), EncFields(ws, m, i + 1), rest);
        assert [] + Recs(fs, m', j) == Recs(fs, m', j);
        ps := first + rest;
      }
    }
  }

  lemma SlotUnknown(ws: seq<Field>, m: seq<Slot>, i: nat, places: seq<nat>, fs: seq<Field>, j: nat) returns (ps: seq<Piece>)
    requires DescOk(ws) && |m| == |ws| && Rising(places, |ws|) && fs == Picked(ws, places)
    requires i < |ws| && SlotOk(ws[i], m[i]) && |EncSlot(ws[i], m[i])| < TWO_32
    requires j <= |places| && (forall k :: 0 <= k < j ==> places[k] < i) && (forall k :: j <= k < |places| ==> i < places[k])
    ensures Makes(fs, [], EncSlot(ws[i], m[i]), ps)
  {
    var made := SlotMakes(ws, i, m[i]);
    forall k | 0 <= k < |fs| ensures fs[k].d.tag != ws[i].d.tag && fs[k] in ws {
      assert places[k] != i && ws[places[k]] == fs[k];
      if places[k] < i { assert ws[places[k]].d.tag != ws[i].d.tag; } else { assert ws[i].d.tag != ws[places[k]].d.tag; }
    }
    ps := PiecesUnknown(ws, made, i, fs);
  }

  // A reader whose descriptor lacks some of the writer's fields gets the message without them.
  lemma ReaderLacks(ws: seq<Field>, m: seq<Slot>, places: seq<nat>)
    requires DescOk(ws) && SlotsOk(ws, m) && |EncFields(ws, m, 0)| < TWO_32 && Rising(places, |ws|)
    ensures var fs := Picked(ws, places); DecMsg(fs, Defaults(fs), EncFields(ws, m, 0)) == Some(RestoredSlots(fs, Picked(m, places)))
  {
    PickedOk(ws, m, places);
    var ps := PickedMake(ws, m, places, Picked(ws, places), Picked(m, places), 0, 0);
    NoisyRoundTrip(Picked(ws, places), Picked(m, places), ps);
  }
}
