/**
 The fields of the wire format as a grammar, groups included, and that skipping consumes exactly
 one of them.
 */
module Fields {
  import opened GoInts
  import opened Varint
  import opened Wire
  import L = LaxFields
  import Seqs

  datatype WireField =
    | VarintValue(num: nat, value: nat)
    | Fixed64(num: nat, raw: bytes)
    | Delimited(num: nat, payload: bytes)
    | Group(num: nat, members: seq<WireField>)
    | Fixed32(num: nat, raw: bytes)

  const MAX_FIELD_NUMBER := 0x1FFF_FFFF

  predicate Wf(f: WireField) {
    && 1 <= f.num <= MAX_FIELD_NUMBER
    && match f
       case VarintValue(_, v) => v < TWO_64
       case Fixed64(_, raw) => |raw| == 8
       case Delimited(_, p) => |p| < TWO_63
       case Group(_, members) => AllWf(members)
       case Fixed32(_, raw) => |raw| == 4
  }

  predicate AllWf(fs: seq<WireField>) {
    forall i :: 0 <= i < |fs| ==> Wf(fs[i])
  }

  function WireType(f: WireField): nat {
    match f
    case VarintValue(_, _) => 0
    case Fixed64(_, _) => 1
    case Delimited(_, _) => 2
    case Group(_, _) => 3
    case Fixed32(_, _) => 5
  }

  function TagOf(num: nat, wireType: nat): bytes {
    Varint.Encode(num * 8 + wireType)
  }

  function Body(f: WireField): bytes
    decreases f, 0
  {
    match f
    case VarintValue(_, v) => Varint.Encode(v)
    case Fixed64(_, raw) => raw
    case Delimited(_, p) => Varint.Encode(|p|) + p
    case Group(num, members) => EncodeAll(members) + TagOf(num, 4)
    case Fixed32(_, raw) => raw
  }

  function EncodeField(f: WireField): bytes
    decreases f, 1
  {
    TagOf(f.num, WireType(f)) + Body(f)
  }

  function EncodeAll(fs: seq<WireField>): bytes
    decreases fs, 0
  {
    if fs == [] then [] else EncodeField(fs[0]) + EncodeAll(fs[1..])
  }

  // ----- As fields of the lax grammar -----

  /** The same field with its tags and varints as bytes. */
  function Lax(f: WireField): (r: L.LaxField)
    ensures r.tag == TagOf(f.num, WireType(f))
    decreases f, 0
  {
    var tag := TagOf(f.num, WireType(f));
    match f
    case VarintValue(_, v) => L.Scalar(tag, Varint.Encode(v))
    case Fixed64(_, raw) => L.Fixed(tag, raw)
    case Delimited(_, p) => L.Delimited(tag, Varint.Encode(|p|), p)
    case Group(num, members) => L.Group(tag, LaxMembers(members), TagOf(num, 4))
    case Fixed32(_, raw) => L.Fixed(tag, raw)
  }

  function LaxMembers(fs: seq<WireField>): (r: seq<L.LaxField>)
    decreases fs, 0
  {
    if fs == [] then [] else [Lax(fs[0])] + LaxMembers(fs[1..])
  }

  lemma {:induction false} EncodedIsVarint(v: nat)
    requires v < TWO_64
    ensures L.IsVarint(Varint.Encode(v)) && Read(Varint.Encode(v)).value == v
  {
    ReadEncode64(v, []);
    Seqs.RightUnit(Varint.Encode(v));
  }

  lemma {:induction false} TagIsTag(num: nat, wireType: nat)
    requires 1 <= num <= MAX_FIELD_NUMBER && wireType < 8
    ensures L.IsTag(TagOf(num, wireType), wireType) && Read(TagOf(num, wireType)).value == num * 8 + wireType
  {
    hide Read, Varint.Encode;
    var tag := num * 8 + wireType;
    EncodedIsVarint(tag);
    assert tag % TWO_64 == tag && tag % 8 == wireType;
  }

  /** Every field of the strict grammar is one of the lax grammar, with the same bytes. */
  lemma {:induction false} StrictIsLax(f: WireField)
    requires Wf(f)
    ensures L.LaxWf(Lax(f)) && L.LaxBytes(Lax(f)) == EncodeField(f)
    decreases f, 1
  {
    hide Read, TagOf, Varint.Encode;
    TagIsTag(f.num, WireType(f));
    match f
    case VarintValue(_, v) => EncodedIsVarint(v);
    case Delimited(_, p) => EncodedIsVarint(|p|);
    case Group(num, members) =>
      TagIsTag(num, 4);
      StrictAreLax(members);
    case _ =>
  }

  lemma {:induction false} StrictAreLax(fs: seq<WireField>)
    requires AllWf(fs)
    ensures L.AllLaxWf(LaxMembers(fs)) && L.LaxAll(LaxMembers(fs)) == EncodeAll(fs)
    decreases fs, 0
  {
    hide Lax, EncodeField, L.LaxBytes, L.LaxWf;
    if fs != [] {
      StrictIsLax(fs[0]);
      StrictAreLax(fs[1..]);
      L.AllOfOneMore(Lax(fs[0]), LaxMembers(fs[1..]));
    }
  }

  /** Wherever a whole field stands, at whatever group depth, skipping moves exactly past it: over the
      balanced members of a group and its end tag. */
  lemma {:induction false} SkipWhole(d: bytes, i: nat, depth: nat, f: WireField)
    requires Wf(f) && L.StandsAt(d, i, EncodeField(f)) && |d| < TWO_63
    ensures SkipFrom(d, i, depth) == L.Past(d, i + |EncodeField(f)|, depth)
  {
    hide SkipFrom, EncodeField, Lax, Wf, L.LaxBytes, L.LaxWf;
    StrictIsLax(f);
    L.SkipLax(d, i, depth, Lax(f));
  }

  /** Whole fields with numbers a message does not declare, in any order and of any kind, are what
      the decoder keeps as unknown bytes. */
  lemma {:induction false} UndeclaredFieldsUnrecognised(schema: Schema, fs: seq<WireField>)
    requires AllWf(fs) && forall i :: 0 <= i < |fs| ==> schema(fs[i].num).Unknown?
    requires |EncodeAll(fs)| < TWO_63
    ensures Unrecognised(schema, EncodeAll(fs))
    decreases |fs|
  {
    hide Next, EncodeField;
    if fs != [] {
      var first, rest := EncodeField(fs[0]), EncodeAll(fs[1..]);
      NextUndeclared(schema, fs[0]);
      UndeclaredFieldsUnrecognised(schema, fs[1..]);
      UnrecognisedField(schema, first, rest);
    }
  }

  lemma {:induction false} StandsAtStart(d: bytes)
    ensures L.StandsAt(d, 0, d)
  {
  }

  lemma {:induction false} NextUndeclared(schema: Schema, f: WireField)
    requires Wf(f) && schema(f.num).Unknown? && |EncodeField(f)| < TWO_63
    ensures Next(schema, EncodeField(f)) == Field(Raw(EncodeField(f)), |EncodeField(f)|)
  {
    hide SkipFrom, Body, Read, Varint.Encode, L.StandsAt;
    var d, wireType := EncodeField(f), WireType(f);
    assert d[0..] == d && d[..|d|] == d;
    StandsAtStart(d);
    SkipWhole(d, 0, 0, f);
    L.AtParts(d, 0, TagOf(f.num, wireType), Body(f));
    TagIsTag(f.num, wireType);
    L.ReadStanding(d, 0, TagOf(f.num, wireType));
    var tag := f.num * 8 + wireType;
    assert tag % TWO_64 == tag && tag / 8 % TWO_32 == f.num;
  }
}
