/**
 The five message types that cover every shape of the generated codec, as values: their canonical
 encoding and the meaning of parsing into them.
 */
module Messages {
  import opened GoInts
  import opened Wrappers
  import opened Wire
  import Seqs

  type int32 = i: int | -TWO_31 <= i < TWO_31

  datatype TopicFields = TopicFields(spaceKey: bytes, topic: bytes, signature: bytes)
  datatype MessageFields = MessageFields(keyId: bytes, payload: bytes, signature: bytes)
  datatype SetTokenFields = SetTokenFields(platform: int32, token: bytes)
  /** List elements are references in the source, so one may be nil. */
  datatype TopicsFields = TopicsFields(topics: seq<Option<Topic>>)
  datatype NotifyFields = NotifyFields(topics: Option<Topics>, message: Option<Message>, groupId: bytes)

  type Topic = Proto<TopicFields>
  type Message = Proto<MessageFields>
  type SetTokenRequest = Proto<SetTokenFields>
  type Topics = Proto<TopicsFields>
  type NotifyRequest = Proto<NotifyFields>

  const NEW_TOPIC: Topic := Proto(TopicFields([], [], []), [])
  const NEW_MESSAGE: Message := Proto(MessageFields([], [], []), [])
  const NEW_SET_TOKEN: SetTokenRequest := Proto(SetTokenFields(0, []), [])
  const NEW_TOPICS: Topics := Proto(TopicsFields([]), [])
  const NEW_NOTIFY: NotifyRequest := Proto(NotifyFields(None, None, []), [])

  // ----- Encoding -----

  function EncodeThree(a: bytes, b: bytes, c: bytes): bytes {
    Optional(1, a) + Optional(2, b) + Optional(3, c)
  }

  function EncodeTopicFields(f: TopicFields): bytes {
    EncodeThree(f.spaceKey, f.topic, f.signature)
  }

  function EncodeTopic(m: Topic): bytes {
    EncodeTopicFields(m.fields) + m.unknown
  }

  function EncodeMessageFields(f: MessageFields): bytes {
    EncodeThree(f.keyId, f.payload, f.signature)
  }

  function EncodeMessage(m: Message): bytes {
    EncodeMessageFields(m.fields) + m.unknown
  }

  function EncodePlatform(p: int32): bytes {
    if p == 0 then [] else TaggedNumber(1, SignExtend(p))
  }

  function EncodeSetTokenFields(f: SetTokenFields): bytes {
    EncodePlatform(f.platform) + Optional(2, f.token)
  }

  function EncodeSetToken(m: SetTokenRequest): bytes {
    EncodeSetTokenFields(m.fields) + m.unknown
  }

  /** A nil element is written like an empty one. */
  function EncodeElement(t: Option<Topic>): bytes {
    if t.None? then [] else EncodeTopic(t.value)
  }

  function EncodeList(ts: seq<Option<Topic>>): bytes {
    if ts == [] then [] else Tagged(1, EncodeElement(ts[0])) + EncodeList(ts[1..])
  }

  lemma {:induction false} EncodeListConcat(a: seq<Option<Topic>>, b: seq<Option<Topic>>)
    ensures EncodeList(a + b) == EncodeList(a) + EncodeList(b)
    decreases |a|
  {
    if a == [] {
      Seqs.RightUnit(b);
      Seqs.RightUnit(EncodeList(b));
    } else {
      assert (a + b)[0] == a[0] && (a + b)[1..] == a[1..] + b;
      EncodeListConcat(a[1..], b);
      Seqs.ConcatAssoc(Tagged(1, EncodeElement(a[0])), EncodeList(a[1..]), EncodeList(b));
    }
  }

  lemma {:induction false} EncodeListAppend(ts: seq<Option<Topic>>, t: Option<Topic>)
    ensures EncodeList(ts + [t]) == EncodeList(ts) + Tagged(1, EncodeElement(t))
  {
    EncodeListConcat(ts, [t]);
    Seqs.RightUnit(Tagged(1, EncodeElement(t)));
  }

  function EncodeTopicsFields(f: TopicsFields): bytes {
    EncodeList(f.topics)
  }

  function EncodeTopics(m: Topics): bytes {
    EncodeTopicsFields(m.fields) + m.unknown
  }

  function EncodeNotifyFields(f: NotifyFields): bytes {
    (if f.topics.None? then [] else Tagged(1, EncodeTopics(f.topics.value)))
    + (if f.message.None? then [] else Tagged(2, EncodeMessage(f.message.value)))
    + Optional(3, f.groupId)
  }

  function EncodeNotify(m: NotifyRequest): bytes {
    EncodeNotifyFields(m.fields) + m.unknown
  }

  // ----- Decoding -----

  function ThreeSchema(num: int): Shape {
    if 1 <= num <= 3 then LengthDelimited else Unknown
  }

  function StoreTopic(f: TopicFields, t: Token): Outcome<TopicFields> {
    match t
    case Payload(1, p) => Outcome(f.(spaceKey := p), Done)
    case Payload(2, p) => Outcome(f.(topic := p), Done)
    case Payload(3, p) => Outcome(f.(signature := p), Done)
    case _ => Outcome(f, Done)
  }

  /** UnmarshalVT of a Topic: what `m` holds afterwards and the error. */
  function DecodeTopic(m: Topic, d: bytes): Decoded<Topic> {
    Observe(Parse(ThreeSchema, StoreTopic, m, d))
  }

  function StoreMessage(f: MessageFields, t: Token): Outcome<MessageFields> {
    match t
    case Payload(1, p) => Outcome(f.(keyId := p), Done)
    case Payload(2, p) => Outcome(f.(payload := p), Done)
    case Payload(3, p) => Outcome(f.(signature := p), Done)
    case _ => Outcome(f, Done)
  }

  function DecodeMessage(m: Message, d: bytes): Decoded<Message> {
    Observe(Parse(ThreeSchema, StoreMessage, m, d))
  }

  function SetTokenSchema(num: int): Shape {
    if num == 1 then VarintField else if num == 2 then LengthDelimited else Unknown
  }

  function StoreSetToken(f: SetTokenFields, t: Token): Outcome<SetTokenFields> {
    match t
    case Number(1, v) => Outcome(f.(platform := AsInt32(v % TWO_32)), Done)
    case Payload(2, p) => Outcome(f.(token := p), Done)
    case _ => Outcome(f, Done)
  }

  function DecodeSetToken(m: SetTokenRequest, d: bytes): Decoded<SetTokenRequest> {
    Observe(Parse(SetTokenSchema, StoreSetToken, m, d))
  }

  function TopicsSchema(num: int): Shape {
    if num == 1 then LengthDelimited else Unknown
  }

  /** A new element is appended before its payload is parsed, so it stays when that fails. */
  function StoreTopics(f: TopicsFields, t: Token): Outcome<TopicsFields> {
    match t
    case Payload(1, p) =>
      var r := DecodeTopic(NEW_TOPIC, p);
      Outcome(TopicsFields(f.topics + [Some(r.msg)]), Nested(r.err))
    case _ => Outcome(f, Done)
  }

  function DecodeTopics(m: Topics, d: bytes): Decoded<Topics> {
    Observe(Parse(TopicsSchema, StoreTopics, m, d))
  }

  /** An embedded message that is already there is parsed into, not replaced. */
  function StoreNotify(f: NotifyFields, t: Token): Outcome<NotifyFields> {
    match t
    case Payload(1, p) =>
      var r := DecodeTopics(f.topics.GetOr(NEW_TOPICS), p);
      Outcome(f.(topics := Some(r.msg)), Nested(r.err))
    case Payload(2, p) =>
      var r := DecodeMessage(f.message.GetOr(NEW_MESSAGE), p);
      Outcome(f.(message := Some(r.msg)), Nested(r.err))
    case Payload(3, p) => Outcome(f.(groupId := p), Done)
    case _ => Outcome(f, Done)
  }

  function DecodeNotify(m: NotifyRequest, d: bytes): Decoded<NotifyRequest> {
    Observe(Parse(ThreeSchema, StoreNotify, m, d))
  }
}
