/**
 The bytes of the five messages, written out: every field under its own tag, in order, a zero value not at all,
 and what each message does not declare kept as it is.
 */
module Layout {
  import opened GoInts
  import opened Varint
  import opened Wire
  import opened Messages
  import opened Wrappers
  import F = Fields

  /** A length-delimited field behind the tag `tag`, if it is not empty. */
  function Part(tag: byte, p: bytes): bytes {
    if p == [] then [] else [tag] + (Varint.Encode(|p|) + p)
  }

  /** The same, whether it is empty or not. */
  function Whole(tag: byte, p: bytes): bytes {
    [tag] + (Varint.Encode(|p|) + p)
  }

  lemma {:induction false} TopicLayout(m: Topic)
    ensures EncodeTopic(m)
            == Part(0x0a, m.fields.spaceKey) + Part(0x12, m.fields.topic) + Part(0x1a, m.fields.signature) + m.unknown
  {
  }

  lemma {:induction false} MessageLayout(m: Message)
    ensures EncodeMessage(m)
            == Part(0x0a, m.fields.keyId) + Part(0x12, m.fields.payload) + Part(0x1a, m.fields.signature) + m.unknown
  {
  }

  /** The platform is written as the varint of its 64-bit two's complement, unless it is zero. */
  lemma {:induction false} SetTokenLayout(m: SetTokenRequest)
    ensures var p := m.fields.platform;
            EncodeSetToken(m)
            == (if p == 0 then [] else [0x08] + Varint.Encode(if p < 0 then p + TWO_64 else p))
               + Part(0x12, m.fields.token) + m.unknown
  {
  }

  lemma {:induction false} TopicsLayout(m: Topics)
    ensures m.fields.topics == [] ==> EncodeTopics(m) == m.unknown
    ensures m.fields.topics != [] ==>
              var first, rest := m.fields.topics[0], m.(fields := TopicsFields(m.fields.topics[1..]));
              EncodeTopics(m) == Whole(0x0a, if first.None? then [] else EncodeTopic(first.value)) + EncodeTopics(rest)
  {
  }

  lemma {:induction false} NotifyLayout(m: NotifyRequest)
    ensures EncodeNotify(m)
            == (if m.fields.topics.None? then [] else Whole(0x0a, EncodeTopics(m.fields.topics.value)))
               + (if m.fields.message.None? then [] else Whole(0x12, EncodeMessage(m.fields.message.value)))
               + Part(0x1a, m.fields.groupId) + m.unknown
  {
    hide EncodeTopics, EncodeMessage;
  }

  lemma {:induction false} KeepsUndeclared<M>(schema: Schema, apply: Handler<M>, m: Proto<M>, f: F.WireField)
    requires F.Wf(f) && schema(f.num).Unknown? && |F.EncodeField(f)| < TWO_63
    ensures Observe(Parse(schema, apply, m, F.EncodeField(f)))
            == Decoded(m.(unknown := m.unknown + F.EncodeField(f)), None)
  {
    hide Next, F.EncodeField;
    F.NextUndeclared(schema, f);
    ParseOne(schema, apply, m, F.EncodeField(f));
  }

  /** Each message knows the fields with its own numbers only: any other field is kept as it is. */
  lemma {:induction false} OthersKept(t: Topic, m: Message, s: SetTokenRequest, l: Topics, n: NotifyRequest,
                                      f: F.WireField)
    requires F.Wf(f) && |F.EncodeField(f)| < TWO_63
    ensures var d := F.EncodeField(f);
            && (f.num > 3 ==>
                  && DecodeTopic(t, d) == Decoded(t.(unknown := t.unknown + d), None)
                  && DecodeMessage(m, d) == Decoded(m.(unknown := m.unknown + d), None)
                  && DecodeNotify(n, d) == Decoded(n.(unknown := n.unknown + d), None))
            && (f.num > 2 ==> DecodeSetToken(s, d) == Decoded(s.(unknown := s.unknown + d), None))
            && (f.num > 1 ==> DecodeTopics(l, d) == Decoded(l.(unknown := l.unknown + d), None))
  {
    hide Parse, F.EncodeField, F.Wf;
    if f.num > 3 {
      KeepsUndeclared(ThreeSchema, StoreTopic, t, f);
      KeepsUndeclared(ThreeSchema, StoreMessage, m, f);
      KeepsUndeclared(ThreeSchema, StoreNotify, n, f);
    }
    if f.num > 2 { KeepsUndeclared(SetTokenSchema, StoreSetToken, s, f); }
    if f.num > 1 { KeepsUndeclared(TopicsSchema, StoreTopics, l, f); }
  }

  lemma {:induction false} WrongTypeRefused(schema: Schema, num: nat, wireType: nat, s: bytes)
    requires 1 <= num <= 15 && wireType < 8 && wireType != 4
    requires (schema(num).LengthDelimited? && wireType != 2) || (schema(num).VarintField? && wireType != 0)
    ensures Next(schema, [num * 8 + wireType] + s) == Bad(Failed(WrongWireType(num, wireType)))
  {
    ReadTagByte(num * 8 + wireType, s);
  }

  /** A field with a number the message declares but the wire type of another shape ends the decoding with the
      message as it was. */
  lemma {:induction false} WrongTypeFails(t: Topic, m: Message, q: SetTokenRequest, l: Topics, n: NotifyRequest,
                                          num: nat, wireType: nat, s: bytes)
    requires 1 <= num <= 3 && wireType < 8 && wireType != 4
    ensures var d, err := [(num * 8 + wireType) as byte] + s, Some(WrongWireType(num, wireType));
            && (wireType != 2 ==>
                  && DecodeTopic(t, d) == Decoded(t, err)
                  && DecodeMessage(m, d) == Decoded(m, err)
                  && DecodeNotify(n, d) == Decoded(n, err))
            && (num == 1 && wireType != 2 ==> DecodeTopics(l, d) == Decoded(l, err))
            && (num == 1 && wireType != 0 ==> DecodeSetToken(q, d) == Decoded(q, err))
            && (num == 2 && wireType != 2 ==> DecodeSetToken(q, d) == Decoded(q, err))
  {
    hide Next;
    if wireType != 2 {
      WrongTypeRefused(ThreeSchema, num, wireType, s);
      if num == 1 { WrongTypeRefused(TopicsSchema, num, wireType, s); }
      if num == 2 { WrongTypeRefused(SetTokenSchema, num, wireType, s); }
    }
    if num == 1 && wireType != 0 { WrongTypeRefused(SetTokenSchema, num, wireType, s); }
  }

  // ----- One field decoded, in success and failure -----

  /** A topic of a list is appended even when it fails to decode, as far as it was decoded. */
  lemma {:induction false} TopicsField(m: Topics, p: bytes)
    requires |p| < TWO_63
    ensures var r := DecodeTopic(NEW_TOPIC, p);
            DecodeTopics(m, Whole(0x0a, p))
            == Decoded(m.(fields := TopicsFields(m.fields.topics + [Some(r.msg)])), r.err)
  {
    hide Next, DecodeTopic;
    WholeIsTagged(1, p);
    ParseStores(TopicsSchema, StoreTopics, m, 1, p);
  }

  /** An embedded message is merged into what is there and stays as far as it was decoded. */
  lemma {:induction false} NotifyFields12(m: NotifyRequest, p: bytes)
    requires |p| < TWO_63
    ensures var r := DecodeTopics(m.fields.topics.GetOr(NEW_TOPICS), p);
            DecodeNotify(m, Whole(0x0a, p)) == Decoded(m.(fields := m.fields.(topics := Some(r.msg))), r.err)
    ensures var r := DecodeMessage(m.fields.message.GetOr(NEW_MESSAGE), p);
            DecodeNotify(m, Whole(0x12, p)) == Decoded(m.(fields := m.fields.(message := Some(r.msg))), r.err)
  {
    hide Next, DecodeTopics, DecodeMessage;
    WholeIsTagged(1, p);
    WholeIsTagged(2, p);
    ParseStores(ThreeSchema, StoreNotify, m, 1, p);
    ParseStores(ThreeSchema, StoreNotify, m, 2, p);
  }

  lemma {:induction false} WholeIsTagged(num: nat, p: bytes)
    requires 1 <= num <= 15
    ensures Whole(num * 8 + 2, p) == Tagged(num, p)
  {
  }

  lemma {:induction false} ParseStores<M>(schema: Schema, apply: Handler<M>, m: Proto<M>, num: nat, p: bytes)
    requires 1 <= num <= 15 && schema(num).LengthDelimited? && |p| < TWO_63
    ensures var o := Store(apply, m, Payload(num, p));
            && (o.stop.Done? ==> Parse(schema, apply, m, Tagged(num, p)) == o)
            && (o.stop.Failed? ==> Parse(schema, apply, m, Tagged(num, p)) == o)
  {
    hide Next;
    NextTagged(schema, num, p);
    var o := Store(apply, m, Payload(num, p));
    if o.stop.Done? { ParseOne(schema, apply, m, Tagged(num, p)); }
  }

  /** A platform whose varint breaks off is left cut short, with the error of the varint. */
  lemma {:induction false} PlatformCutShort(m: SetTokenRequest, d: bytes)
    requires forall i :: 0 <= i < |d| ==> d[i] >= 128
    ensures var read := if |d| < 10 then d else d[..10];
            DecodeSetToken(m, [0x08] + d)
            == Decoded(m.(fields := m.fields.(platform := AsInt32(Value(read) % TWO_32))),
                       Some(if |d| < 10 then UnexpectedEOF else IntOverflow))
  {
    hide Read;
    ReadTagByte(0x08, d);
    ReadFails(d, 0);
    var s := [0x08] + d;
    assert s[1..] == d;
    assert NumberAt(s, 1, 1) == Broken(1, Partial(d), Read(d).error);
    assert Next(SetTokenSchema, s) == NumberAt(s, 1, 1);
  }
}
