/**
 Decoding what was encoded, and encoding what was decoded.
 */
module RoundTrip {
  import opened GoInts
  import opened Wrappers
  import opened Wire
  import opened Messages
  import Seqs

  // ----- What an encoder may be given -----

  ghost predicate TopicWf(m: Topic) {
    Unrecognised(ThreeSchema, m.unknown)
  }

  ghost predicate MessageWf(m: Message) {
    Unrecognised(ThreeSchema, m.unknown)
  }

  ghost predicate SetTokenWf(m: SetTokenRequest) {
    Unrecognised(SetTokenSchema, m.unknown)
  }

  ghost predicate ListWf(ts: seq<Option<Topic>>) {
    forall i :: 0 <= i < |ts| && ts[i].Some? ==> TopicWf(ts[i].value)
  }

  ghost predicate TopicsWf(m: Topics) {
    ListWf(m.fields.topics) && Unrecognised(TopicsSchema, m.unknown)
  }

  ghost predicate NotifyWf(m: NotifyRequest) {
    && (m.fields.topics.Some? ==> TopicsWf(m.fields.topics.value))
    && (m.fields.message.Some? ==> MessageWf(m.fields.message.value))
    && Unrecognised(ThreeSchema, m.unknown)
  }

  // ----- Messages with three length-delimited fields -----

  ghost predicate Sets<F>(apply: Handler<F>, m: Proto<F>, num: nat, p: bytes, m': Proto<F>)
  {
    if p == [] then m' == m else Store(apply, m, Payload(num, p)) == Outcome(m', Done)
  }

  lemma {:induction false} ParseOptional<F>(schema: Schema, apply: Handler<F>, m: Proto<F>, num: nat, p: bytes,
                                            m': Proto<F>)
    requires 1 <= num <= 15 && schema(num).LengthDelimited? && |p| < TWO_63
    requires Sets(apply, m, num, p, m')
    ensures Parse(schema, apply, m, Optional(num, p)) == Outcome(m', Done)
  {
    hide Next, Tagged;
    if p != [] {
      NextTagged(schema, num, p);
      ParseOne(schema, apply, m, Tagged(num, p));
    }
  }

  lemma {:induction false} ParseThree<F>(apply: Handler<F>, m: seq<Proto<F>>, a: bytes, b: bytes, c: bytes)
    requires |a| < TWO_63 && |b| < TWO_63 && |c| < TWO_63
    requires |m| == 4 && Sets(apply, m[0], 1, a, m[1]) && Sets(apply, m[1], 2, b, m[2]) && Sets(apply, m[2], 3, c, m[3])
    ensures Parse(ThreeSchema, apply, m[0], EncodeThree(a, b, c)) == Outcome(m[3], Done)
  {
    hide Parse, Optional;
    ParseOptional(ThreeSchema, apply, m[0], 1, a, m[1]);
    ParseOptional(ThreeSchema, apply, m[1], 2, b, m[2]);
    ParseOptional(ThreeSchema, apply, m[2], 3, c, m[3]);
    ParseTwo(ThreeSchema, apply, m[0], Optional(1, a), Optional(2, b));
    ParseTwo(ThreeSchema, apply, m[0], Optional(1, a) + Optional(2, b), Optional(3, c));
  }

  /** The declared fields first, then the unknown ones. */
  lemma {:induction false} ParseWithUnknown<F>(schema: Schema, apply: Handler<F>, fields: bytes, m: Proto<F>, f: F,
                                               unknown: bytes)
    requires m.unknown == [] && Parse(schema, apply, m, fields) == Outcome(Proto(f, []), Done)
    requires Unrecognised(schema, unknown)
    ensures Observe(Parse(schema, apply, m, fields + unknown)) == Decoded(Proto(f, unknown), None)
  {
    hide Parse, Unrecognised;
    ParseUnrecognised(schema, apply, Proto(f, []), unknown);
    Seqs.RightUnit(unknown);
    ParseTwo(schema, apply, m, fields, unknown);
  }

  lemma {:induction false} TopicRoundTrip(m: Topic)
    requires TopicWf(m) && |EncodeTopic(m)| < TWO_63
    ensures DecodeTopic(NEW_TOPIC, EncodeTopic(m)) == Decoded(m, None)
  {
    hide Parse, Unrecognised;
    var f := m.fields;
    ThreeSizes(f.spaceKey, f.topic, f.signature);
    ParseThree(StoreTopic,
               [NEW_TOPIC, Proto(TopicFields(f.spaceKey, [], []), []),
                Proto(TopicFields(f.spaceKey, f.topic, []), []), Proto(f, [])],
               f.spaceKey, f.topic, f.signature);
    ParseWithUnknown(ThreeSchema, StoreTopic, EncodeTopicFields(f), NEW_TOPIC, f, m.unknown);
  }

  lemma {:induction false} MessageRoundTrip(m: Message)
    requires MessageWf(m) && |EncodeMessage(m)| < TWO_63
    ensures DecodeMessage(NEW_MESSAGE, EncodeMessage(m)) == Decoded(m, None)
  {
    hide Parse, Unrecognised;
    var f := m.fields;
    ThreeSizes(f.keyId, f.payload, f.signature);
    ParseThree(StoreMessage,
               [NEW_MESSAGE, Proto(MessageFields(f.keyId, [], []), []),
                Proto(MessageFields(f.keyId, f.payload, []), []), Proto(f, [])],
               f.keyId, f.payload, f.signature);
    ParseWithUnknown(ThreeSchema, StoreMessage, EncodeMessageFields(f), NEW_MESSAGE, f, m.unknown);
  }

  lemma {:induction false} ThreeSizes(a: bytes, b: bytes, c: bytes)
    ensures |a| + |b| + |c| <= |EncodeThree(a, b, c)|
  {
  }

  // ----- The varint field -----

  /** Every int32, negative ones included, survives sign extension to ten bytes and the cut back to
      32 bits. */
  lemma {:induction false} PlatformRoundTrip(p: int32)
    ensures AsInt32(SignExtend(p) % TWO_32) == p
  {
    if p < 0 {
      RemainderIs(p + TWO_64, TWO_32, TWO_32 - 1, p + TWO_32);
    } else {
      RemainderIs(p, TWO_32, 0, p);
    }
  }

  /** Only the token's length is limited: the platform always takes at most eleven bytes. */
  lemma {:induction false} SetTokenRoundTrip(m: SetTokenRequest)
    requires SetTokenWf(m) && |m.fields.token| < TWO_63
    ensures DecodeSetToken(NEW_SET_TOKEN, EncodeSetToken(m)) == Decoded(m, None)
  {
    hide Next, Unrecognised;
    var f, n := m.fields, SignExtend(m.fields.platform);
    var m1 := Proto(SetTokenFields(f.platform, []), []);
    if f.platform != 0 {
      PlatformRoundTrip(f.platform);
      NextTaggedNumber(SetTokenSchema, 1, n);
      ParseOne(SetTokenSchema, StoreSetToken, NEW_SET_TOKEN, TaggedNumber(1, n));
    }
    assert Parse(SetTokenSchema, StoreSetToken, NEW_SET_TOKEN, EncodePlatform(f.platform)) == Outcome(m1, Done);
    hide Parse;
    ParseOptional(SetTokenSchema, StoreSetToken, m1, 2, f.token, Proto(f, []));
    ParseTwo(SetTokenSchema, StoreSetToken, NEW_SET_TOKEN, EncodePlatform(f.platform), Optional(2, f.token));
    ParseWithUnknown(SetTokenSchema, StoreSetToken, EncodeSetTokenFields(f), NEW_SET_TOKEN, f, m.unknown);
  }

  // ----- Lists -----

  /** A nil list element comes back as an empty one. */
  function Denil(t: Option<Topic>): Option<Topic> {
    Some(t.GetOr(NEW_TOPIC))
  }

  function DenilAll(ts: seq<Option<Topic>>): seq<Option<Topic>> {
    seq(|ts|, i requires 0 <= i < |ts| => Denil(ts[i]))
  }

  lemma {:induction false} ElementRoundTrip(t: Option<Topic>)
    requires t.Some? ==> TopicWf(t.value)
    requires |EncodeElement(t)| < TWO_63
    ensures DecodeTopic(NEW_TOPIC, EncodeElement(t)) == Decoded(Denil(t).value, None)
  {
    if t.Some? { TopicRoundTrip(t.value); }
  }

  /** Whatever is decoded into a list is appended, in order, to what it holds, and undeclared fields to its
      unknown bytes: the outcome is that of decoding into a fresh list. */
  lemma {:induction false} ParseAppends(m: Topics, d: bytes)
    ensures var into, anew := Parse(TopicsSchema, StoreTopics, m, d), Parse(TopicsSchema, StoreTopics, NEW_TOPICS, d);
            && into.stop == anew.stop
            && into.msg.fields.topics == m.fields.topics + anew.msg.fields.topics
            && into.msg.unknown == m.unknown + anew.msg.unknown
    decreases |d|
  {
    hide Next, DecodeTopic;
    AppendsNothing(m);
    if d != [] && Next(TopicsSchema, d).Field? {
      NextLocal(TopicsSchema, d, []);
      var Field(t, n) := Next(TopicsSchema, d);
      var m1, n1 := Store(StoreTopics, m, t).msg, Store(StoreTopics, NEW_TOPICS, t).msg;
      StoreAppends(m, t);
      if Store(StoreTopics, m, t).stop.Done? {
        var rest := Parse(TopicsSchema, StoreTopics, NEW_TOPICS, d[n..]).msg;
        ParseAppends(m1, d[n..]);
        ParseAppends(n1, d[n..]);
        Seqs.ConcatAssoc(m.fields.topics, n1.fields.topics, rest.fields.topics);
        Seqs.ConcatAssoc(m.unknown, n1.unknown, rest.unknown);
      }
    } else if d != [] {
      NoVarint(d);
    }
  }

  lemma {:induction false} AppendsNothing(m: Topics)
    ensures m.fields.topics + NEW_TOPICS.fields.topics == m.fields.topics && m.unknown + NEW_TOPICS.unknown == m.unknown
  {
  }

  lemma {:induction false} NoVarint(d: bytes)
    ensures !Next(TopicsSchema, d).Broken?
  {
  }

  lemma {:induction false} StoreAppends(m: Topics, t: Token)
    ensures var into, anew := Store(StoreTopics, m, t), Store(StoreTopics, NEW_TOPICS, t);
            && into.stop == anew.stop
            && into.msg.fields.topics == m.fields.topics + anew.msg.fields.topics
            && into.msg.unknown == m.unknown + anew.msg.unknown
  {
    hide DecodeTopic;
    AppendsNothing(m);
    if t.Raw? {
      Seqs.RightUnit(t.raw);
    } else if t.Payload? && t.num == 1 {
      Seqs.RightUnit([Some(DecodeTopic(NEW_TOPIC, t.payload).msg)]);
    }
  }

  /** The canonical encoding of a list decodes to its elements, nil ones as empty, appended in order. */
  lemma {:induction false} ParseList(m: Topics, ts: seq<Option<Topic>>)
    requires ListWf(ts) && |EncodeList(ts)| < TWO_63
    ensures Parse(TopicsSchema, StoreTopics, m, EncodeList(ts))
            == Outcome(Proto(TopicsFields(m.fields.topics + DenilAll(ts)), m.unknown), Done)
    decreases |ts|
  {
    hide Next, Parse, DecodeTopic, EncodeElement, TopicWf;
    if ts == [] {
      ParseNoElement(m);
      Seqs.RightUnit(m.fields.topics);
      assert DenilAll(ts) == [];
    } else {
      var element, rest := EncodeElement(ts[0]), ts[1..];
      var m1 := Proto(TopicsFields(m.fields.topics + [Denil(ts[0])]), m.unknown);
      ParseElement(m, ts[0], m1);
      ParseList(m1, rest);
      ParseTwo(TopicsSchema, StoreTopics, m, Tagged(1, element), EncodeList(rest));
      assert DenilAll(ts) == [Denil(ts[0])] + DenilAll(rest);
      Seqs.ConcatAssoc(m.fields.topics, [Denil(ts[0])], DenilAll(rest));
    }
  }

  lemma {:induction false} ParseNoElement(m: Topics)
    ensures Parse(TopicsSchema, StoreTopics, m, []) == Outcome(m, Done)
  {
  }

  lemma {:induction false} ParseElement(m: Topics, t: Option<Topic>, m': Topics)
    requires t.Some? ==> TopicWf(t.value)
    requires |EncodeElement(t)| < TWO_63
    requires m' == Proto(TopicsFields(m.fields.topics + [Denil(t)]), m.unknown)
    ensures Parse(TopicsSchema, StoreTopics, m, Tagged(1, EncodeElement(t))) == Outcome(m', Done)
  {
    hide Next, Parse, DecodeTopic, EncodeElement;
    ElementRoundTrip(t);
    NextTagged(TopicsSchema, 1, EncodeElement(t));
    assert Store(StoreTopics, m, Payload(1, EncodeElement(t))) == Outcome(m', Done);
    ParseOne(TopicsSchema, StoreTopics, m, Tagged(1, EncodeElement(t)));
  }

  function DenilTopics(m: Topics): Topics {
    m.(fields := TopicsFields(DenilAll(m.fields.topics)))
  }

  lemma {:induction false} TopicsRoundTrip(m: Topics)
    requires TopicsWf(m) && |EncodeTopics(m)| < TWO_63
    ensures DecodeTopics(NEW_TOPICS, EncodeTopics(m)) == Decoded(DenilTopics(m), None)
  {
    hide Parse, Unrecognised;
    ParseList(NEW_TOPICS, m.fields.topics);
    var f := DenilTopics(m).fields;
    Seqs.RightUnit(f.topics);
    ParseWithUnknown(TopicsSchema, StoreTopics, EncodeTopicsFields(m.fields), NEW_TOPICS, f, m.unknown);
  }

  // ----- The whole request -----

  function DenilNotify(m: NotifyRequest): NotifyRequest {
    m.(fields := m.fields.(topics := if m.fields.topics.None? then None else Some(DenilTopics(m.fields.topics.value))))
  }

  lemma {:induction false} ParseEmbedded(m: NotifyRequest, num: nat, p: bytes, m': NotifyRequest)
    requires 1 <= num <= 2 && |p| < TWO_63
    requires Store(StoreNotify, m, Payload(num, p)) == Outcome(m', Done)
    ensures Parse(ThreeSchema, StoreNotify, m, Tagged(num, p)) == Outcome(m', Done)
  {
    hide Next, Parse;
    NextTagged(ThreeSchema, num, p);
    ParseOne(ThreeSchema, StoreNotify, m, Tagged(num, p));
  }

  /** What decoding the encoding of any request yields. */
  lemma {:induction false} NotifyDecodesDenilled(m: NotifyRequest)
    requires NotifyWf(m) && |EncodeNotify(m)| < TWO_63
    ensures DecodeNotify(NEW_NOTIFY, EncodeNotify(m)) == Decoded(DenilNotify(m), None)
  {
    hide Parse, Unrecognised, DecodeTopics, DecodeMessage, EncodeTopics, EncodeMessage;
    var f, g := m.fields, DenilNotify(m).fields;
    var m1: NotifyRequest := Proto(NotifyFields(g.topics, None, []), []);
    var m2: NotifyRequest := Proto(NotifyFields(g.topics, f.message, []), []);
    var a := if f.topics.None? then [] else Tagged(1, EncodeTopics(f.topics.value));
    var b := if f.message.None? then [] else Tagged(2, EncodeMessage(f.message.value));
    assert |a| + |b| + |Optional(3, f.groupId)| < TWO_63;
    ParseNothing(NEW_NOTIFY);
    ParseNothing(m1);
    if f.topics.Some? {
      TopicsRoundTrip(f.topics.value);
      ParseEmbedded(NEW_NOTIFY, 1, EncodeTopics(f.topics.value), m1);
    }
    if f.message.Some? {
      MessageRoundTrip(f.message.value);
      ParseEmbedded(m1, 2, EncodeMessage(f.message.value), m2);
    }
    ParseOptional(ThreeSchema, StoreNotify, m2, 3, f.groupId, Proto(g, []));
    ParseTwo(ThreeSchema, StoreNotify, NEW_NOTIFY, a, b);
    ParseTwo(ThreeSchema, StoreNotify, NEW_NOTIFY, a + b, Optional(3, f.groupId));
    ParseWithUnknown(ThreeSchema, StoreNotify, EncodeNotifyFields(f), NEW_NOTIFY, g, m.unknown);
  }

  lemma {:induction false} ParseNothing(m: NotifyRequest)
    ensures Parse(ThreeSchema, StoreNotify, m, []) == Outcome(m, Done)
  {
  }

  predicate NoNil(m: NotifyRequest) {
    m.fields.topics.Some? ==>
      var ts := m.fields.topics.value.fields.topics;
      forall i :: 0 <= i < |ts| ==> ts[i].Some?
  }

  /** The round trip: a request comes back from its own encoding exactly when no list element is nil. */
  lemma {:induction false} NotifyRoundTrip(m: NotifyRequest)
    requires NotifyWf(m) && |EncodeNotify(m)| < TWO_63
    ensures DecodeNotify(NEW_NOTIFY, EncodeNotify(m)) == Decoded(m, None) <==> NoNil(m)
  {
    NotifyDecodesDenilled(m);
    if m.fields.topics.Some? {
      var ts := m.fields.topics.value.fields.topics;
      if NoNil(m) {
        assert DenilAll(ts) == ts;
      } else {
        var i :| 0 <= i < |ts| && ts[i].None?;
        assert DenilAll(ts)[i] != ts[i];
      }
    }
  }
}
