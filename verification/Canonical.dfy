/**
 What the decoder does to inputs no encoder wrote: repeated fields, split messages, longer
 varints. Concatenated inputs merge, and re-encoding what was decoded is a normal form that is
 never longer than the input.
 */
module Canonical {
  import opened GoInts
  import opened Wrappers
  import opened Varint
  import opened Wire
  import opened Messages
  import opened RoundTrip
  import Seqs

  // ----- Concatenation is merge -----

  /** Decoding `a` and then `b` is decoding `a + b`: the same message on success and on failure, and
      the same error too, exactly unless a field end announced in `b` overflows an int64 only
      because `a` stands before it. */
  lemma {:induction false} ConcatIsMerge<F>(schema: Schema, apply: Handler<F>, m: Proto<F>, a: bytes, b: bytes)
    requires Observe(Parse(schema, apply, m, a)).err == None
    ensures var m' := Observe(Parse(schema, apply, m, a)).msg;
            var whole, second := Observe(Parse(schema, apply, m, a + b)), Observe(Parse(schema, apply, m', b));
            && Alike(whole, second)
            && (whole == second <==> !OverflowsAfter(Parse(schema, apply, m', b).stop, |a|))
  {
    hide Parse;
    ParseConcat(schema, apply, m, a, b);
    var tail := Parse(schema, apply, Parse(schema, apply, m, a).msg, b);
    ShiftObserved(tail.msg, tail.stop, |a|);
  }

  lemma {:induction false} NoHandlerAnnounces()
    ensures NeverBeyond(StoreTopic) && NeverBeyond(StoreMessage) && NeverBeyond(StoreSetToken)
    ensures NeverBeyond(StoreTopics) && NeverBeyond(StoreNotify)
  {
    hide DecodeTopic, DecodeTopics, DecodeMessage;
  }

  /** The same, read off the bytes: the errors differ exactly if `b` is some fields that decode and then one
      that announces an end less than 2^63 from the start of `b`, but not from the start of `a`. */
  lemma {:induction false} ConcatOnBytes<F(!new)>(schema: Schema, apply: Handler<F>, m: Proto<F>, a: bytes, b: bytes)
    requires NeverBeyond(apply) && Observe(Parse(schema, apply, m, a)).err == None
    ensures var m' := Observe(Parse(schema, apply, m, a)).msg;
            Observe(Parse(schema, apply, m, a + b)) != Observe(Parse(schema, apply, m', b))
            <==> EndStraddles(schema, apply, m', b, 0, |a|)
  {
    hide Parse, EndStraddles;
    ConcatIsMerge(schema, apply, m, a, b);
    SameSideOnBytes(schema, apply, Observe(Parse(schema, apply, m, a)).msg, b, 0, |a|);
  }

  /** A length prefix of 2^63 - 11. */
  const HUGE_LENGTH: bytes := [0xf5, 0xff, 0xff, 0xff, 0xff, 0xff, 0xff, 0xff, 0x7f]

  lemma {:induction false} ReadHuge(s: bytes)
    ensures Read(HUGE_LENGTH + s) == Ok(TWO_63 - 11, 9)
  {
    assert TWO_63 - 11 < TWO_64;
    assert Varint.Encode(TWO_63 - 11) == HUGE_LENGTH by {
      var v := TWO_63 - 11;
      assert v / 128 == 0xFF_FFFF_FFFF_FFFF && v % 128 == 0x75;
      Ones(8);
    }
    ReadEncode64(TWO_63 - 11, s);
  }

  function Repeat(b: byte, n: nat): bytes {
    if n == 0 then [] else [b] + Repeat(b, n - 1)
  }

  lemma {:induction false} SevenMore(n: nat)
    ensures Pow2(7 * (n + 1)) == 128 * Pow2(7 * n) && Pow2(0) == 1
  {
    Pow2Add(7, 7 * n);
    assert Pow2(7) == 128;
  }

  lemma {:induction false} Ones(n: nat)
    requires 1 <= n <= 8
    ensures Varint.Encode(Pow2(7 * n) - 1) == Repeat(0xff, n - 1) + [0x7f]
  {
    hide Pow2;
    SevenMore(n - 1);
    if n > 1 {
      Ones(n - 1);
      SevenMore(n - 2);
      EncodeAllOnes(Pow2(7 * (n - 1)) - 1);
    }
  }

  /** Seven more bits, all set, take one more byte. */
  lemma {:induction false} EncodeAllOnes(v: nat)
    requires v > 0
    ensures Varint.Encode(128 * v + 127) == [0xff] + Varint.Encode(v)
  {
    assert (128 * v + 127) / 128 == v && (128 * v + 127) % 128 == 127;
  }

  lemma {:induction false} NextHuge()
    ensures Next(TopicsSchema, [0x0a] + HUGE_LENGTH) == Bad(Beyond(TWO_63 - 1))
  {
    hide Read;
    var d: bytes := [0x0a] + HUGE_LENGTH;
    ReadTagByte(0x0a, HUGE_LENGTH);
    ReadHuge([]);
    Seqs.RightUnit(HUGE_LENGTH);
    assert d[1..] == HUGE_LENGTH && |d| == 10;
    assert (TWO_63 - 11) % TWO_64 == TWO_63 - 11;
    assert DelimitedAt(d, 1, 1) == Bad(Beyond(TWO_63 - 1));
  }

  /** The two kinds of length error do get exchanged: behind an empty topic, a truncated field that
      was an unexpected end of input becomes an invalid length. */
  lemma {:induction false} ConcatExchangesLengthErrors()
    ensures var a, b := [0x0a, 0x00], [0x0a] + HUGE_LENGTH;
            var first := DecodeTopics(NEW_TOPICS, a);
            && first.err == None
            && DecodeTopics(first.msg, b).err == Some(UnexpectedEOF)
            && DecodeTopics(NEW_TOPICS, a + b).err == Some(InvalidLength)
  {
    hide Next, Parse;
    var a, b := [0x0a, 0x00], [0x0a] + HUGE_LENGTH;
    var m := Proto(TopicsFields([Some(NEW_TOPIC)]), []);
    assert Tagged(1, []) == a;
    NextTagged(TopicsSchema, 1, []);
    ParseEmptyTopic();
    Seqs.RightUnit([Some(NEW_TOPIC)]);
    assert Store(StoreTopics, NEW_TOPICS, Payload(1, [])) == Outcome(m, Done);
    ParseOne(TopicsSchema, StoreTopics, NEW_TOPICS, a);
    assert Parse(TopicsSchema, StoreTopics, NEW_TOPICS, a) == Outcome(m, Done);
    NextHuge();
    ParseBad(m, b);
    assert Parse(TopicsSchema, StoreTopics, m, b) == Outcome(m, Beyond(TWO_63 - 1));
    ParseConcat(TopicsSchema, StoreTopics, NEW_TOPICS, a, b);
    assert Parse(TopicsSchema, StoreTopics, NEW_TOPICS, a + b) == Outcome(m, Beyond(TWO_63 + 1));
    ConcatIsMerge(TopicsSchema, StoreTopics, NEW_TOPICS, a, b);
  }

  lemma {:induction false} ParseEmptyTopic()
    ensures DecodeTopic(NEW_TOPIC, []) == Decoded(NEW_TOPIC, None)
  {
  }

  lemma {:induction false} ParseBad(m: Topics, d: bytes)
    requires d != [] && Next(TopicsSchema, d).Bad?
    ensures Parse(TopicsSchema, StoreTopics, m, d) == Outcome(m, Next(TopicsSchema, d).stop)
  {
  }

  // ----- Split sub-messages, repeated scalars -----

  /** Two occurrences of the topics field have the effect of one that holds both payloads: the same message
      always, and the same error exactly unless an announced end, behind these fields or inside the second
      payload, overflows an int64 on one side only. */
  lemma {:induction false} SplitTopics(m: NotifyRequest, p: bytes, q: bytes, x: bytes, y: bytes, z: bytes, s: bytes)
    requires Next(ThreeSchema, x) == Field(Payload(1, p), |x|)
    requires Next(ThreeSchema, y) == Field(Payload(1, q), |y|)
    requires Next(ThreeSchema, z) == Field(Payload(1, p + q), |z|)
    requires DecodeTopics(m.fields.topics.GetOr(NEW_TOPICS), p).err == None
    ensures var first := DecodeTopics(m.fields.topics.GetOr(NEW_TOPICS), p).msg;
            var second := DecodeTopics(first, q);
            var merged := m.(fields := m.fields.(topics := Some(second.msg)));
            var split, joined := DecodeNotify(m, x + (y + s)), DecodeNotify(m, z + s);
            && Alike(split, joined)
            && (split == joined
                <==> if second.err == None then !EndStraddles(ThreeSchema, StoreNotify, merged, s, |x| + |y|, |z|)
                     else !EndStraddles(TopicsSchema, StoreTopics, first, q, 0, |p|))
  {
    hide Next, Parse, EndStraddles;
    ConcatIsMerge(TopicsSchema, StoreTopics, m.fields.topics.GetOr(NEW_TOPICS), p, q);
    var first := DecodeTopics(m.fields.topics.GetOr(NEW_TOPICS), p).msg;
    var merged := m.(fields := m.fields.(topics := Some(DecodeTopics(first, q).msg)));
    NoHandlerAnnounces();
    SameSideOnBytes(ThreeSchema, StoreNotify, merged, s, |x| + |y|, |z|);
    SameSideOnBytes(TopicsSchema, StoreTopics, first, q, 0, |p|);
    ParseMerged(ThreeSchema, StoreNotify, m, x, y, z, s);
  }

  /** The same for the message field. */
  lemma {:induction false} SplitMessage(m: NotifyRequest, p: bytes, q: bytes, x: bytes, y: bytes, z: bytes, s: bytes)
    requires Next(ThreeSchema, x) == Field(Payload(2, p), |x|)
    requires Next(ThreeSchema, y) == Field(Payload(2, q), |y|)
    requires Next(ThreeSchema, z) == Field(Payload(2, p + q), |z|)
    requires DecodeMessage(m.fields.message.GetOr(NEW_MESSAGE), p).err == None
    ensures var first := DecodeMessage(m.fields.message.GetOr(NEW_MESSAGE), p).msg;
            var second := DecodeMessage(first, q);
            var merged := m.(fields := m.fields.(message := Some(second.msg)));
            var split, joined := DecodeNotify(m, x + (y + s)), DecodeNotify(m, z + s);
            && Alike(split, joined)
            && (split == joined
                <==> if second.err == None then !EndStraddles(ThreeSchema, StoreNotify, merged, s, |x| + |y|, |z|)
                     else !EndStraddles(ThreeSchema, StoreMessage, first, q, 0, |p|))
  {
    hide Next, Parse, EndStraddles;
    ConcatIsMerge(ThreeSchema, StoreMessage, m.fields.message.GetOr(NEW_MESSAGE), p, q);
    var first := DecodeMessage(m.fields.message.GetOr(NEW_MESSAGE), p).msg;
    var merged := m.(fields := m.fields.(message := Some(DecodeMessage(first, q).msg)));
    NoHandlerAnnounces();
    SameSideOnBytes(ThreeSchema, StoreNotify, merged, s, |x| + |y|, |z|);
    SameSideOnBytes(ThreeSchema, StoreMessage, first, q, 0, |p|);
    ParseMerged(ThreeSchema, StoreNotify, m, x, y, z, s);
  }

  /** Of two occurrences of a bytes or string field the last one wins: the same message always, and the same
      error exactly unless an announced end overflows an int64 only because the first one stands before it. */
  lemma {:induction false} LastTopicFieldWins(m: Topic, num: int, p: bytes, q: bytes, x: bytes, y: bytes, s: bytes)
    requires Next(ThreeSchema, x) == Field(Payload(num, p), |x|)
    requires Next(ThreeSchema, y) == Field(Payload(num, q), |y|)
    ensures var last := Proto(StoreTopic(m.fields, Payload(num, q)).msg, m.unknown);
            var both, one := DecodeTopic(m, x + (y + s)), DecodeTopic(m, y + s);
            && Alike(both, one)
            && (both == one <==> !EndStraddles(ThreeSchema, StoreTopic, last, s, |x| + |y|, |y|))
  {
    hide Next, Parse, EndStraddles;
    NoHandlerAnnounces();
    SameSideOnBytes(ThreeSchema, StoreTopic, Proto(StoreTopic(m.fields, Payload(num, q)).msg, m.unknown), s,
                    |x| + |y|, |y|);
    ParseMerged(ThreeSchema, StoreTopic, m, x, y, y, s);
  }

  lemma {:induction false} LastMessageFieldWins(m: Message, num: int, p: bytes, q: bytes, x: bytes, y: bytes, s: bytes)
    requires Next(ThreeSchema, x) == Field(Payload(num, p), |x|)
    requires Next(ThreeSchema, y) == Field(Payload(num, q), |y|)
    ensures var last := Proto(StoreMessage(m.fields, Payload(num, q)).msg, m.unknown);
            var both, one := DecodeMessage(m, x + (y + s)), DecodeMessage(m, y + s);
            && Alike(both, one)
            && (both == one <==> !EndStraddles(ThreeSchema, StoreMessage, last, s, |x| + |y|, |y|))
  {
    hide Next, Parse, EndStraddles;
    NoHandlerAnnounces();
    SameSideOnBytes(ThreeSchema, StoreMessage, Proto(StoreMessage(m.fields, Payload(num, q)).msg, m.unknown), s,
                    |x| + |y|, |y|);
    ParseMerged(ThreeSchema, StoreMessage, m, x, y, y, s);
  }

  lemma {:induction false} LastGroupIdWins(m: NotifyRequest, p: bytes, q: bytes, x: bytes, y: bytes, s: bytes)
    requires Next(ThreeSchema, x) == Field(Payload(3, p), |x|)
    requires Next(ThreeSchema, y) == Field(Payload(3, q), |y|)
    ensures var last := m.(fields := m.fields.(groupId := q));
            var both, one := DecodeNotify(m, x + (y + s)), DecodeNotify(m, y + s);
            && Alike(both, one)
            && (both == one <==> !EndStraddles(ThreeSchema, StoreNotify, last, s, |x| + |y|, |y|))
  {
    hide Next, Parse, EndStraddles;
    NoHandlerAnnounces();
    SameSideOnBytes(ThreeSchema, StoreNotify, m.(fields := m.fields.(groupId := q)), s, |x| + |y|, |y|);
    ParseMerged(ThreeSchema, StoreNotify, m, x, y, y, s);
  }

  // ----- Canonicalisation never grows -----

  ghost function TopicSize(f: TopicFields): nat {
    |EncodeTopicFields(f)|
  }

  ghost function MessageSize(f: MessageFields): nat {
    |EncodeMessageFields(f)|
  }

  ghost function TopicsSize(f: TopicsFields): nat {
    |EncodeTopicsFields(f)|
  }

  ghost function NotifySize(f: NotifyFields): nat {
    |EncodeNotifyFields(f)|
  }

  lemma {:induction false} OptionalSize(num: nat, p: bytes)
    requires 1 <= num <= 15
    ensures |Optional(num, p)| <= MinimalSize(Payload(num, p))
  {
  }

  lemma {:induction false} TopicGrowth(m: Topic, d: bytes)
    requires DecodeTopic(m, d).err == None
    ensures |EncodeTopic(DecodeTopic(m, d).msg)| <= |EncodeTopic(m)| + |d|
  {
    hide Parse, Optional, MinimalSize;
    forall f: TopicFields, t: Token | !t.Raw? && StoreTopic(f, t).stop.Done?
      ensures TopicSize(StoreTopic(f, t).msg) <= TopicSize(f) + MinimalSize(t)
    {
      if t.Payload? && 1 <= t.num <= 3 { OptionalSize(t.num, t.payload); }
    }
    ParseGrowth(ThreeSchema, StoreTopic, TopicSize, m, d);
  }

  lemma {:induction false} MessageGrowth(m: Message, d: bytes)
    requires DecodeMessage(m, d).err == None
    ensures |EncodeMessage(DecodeMessage(m, d).msg)| <= |EncodeMessage(m)| + |d|
  {
    hide Parse, Optional, MinimalSize;
    forall f: MessageFields, t: Token | !t.Raw? && StoreMessage(f, t).stop.Done?
      ensures MessageSize(StoreMessage(f, t).msg) <= MessageSize(f) + MinimalSize(t)
    {
      if t.Payload? && 1 <= t.num <= 3 { OptionalSize(t.num, t.payload); }
    }
    ParseGrowth(ThreeSchema, StoreMessage, MessageSize, m, d);
  }

  lemma {:induction false} TopicsGrowByField()
    ensures GrowsByField(StoreTopics, TopicsSize)
  {
    hide DecodeTopic, EncodeTopic, Varint.Encode;
    forall f: TopicsFields, t: Token | !t.Raw? && StoreTopics(f, t).stop.Done?
      ensures TopicsSize(StoreTopics(f, t).msg) <= TopicsSize(f) + MinimalSize(t)
    {
      if t.Payload? && t.num == 1 {
        var e := DecodeTopic(NEW_TOPIC, t.payload).msg;
        TopicGrowth(NEW_TOPIC, t.payload);
        NewSizes();
        LengthMonotone(|EncodeTopic(e)|, |t.payload|);
        EncodeListAppend(f.topics, Some(e));
      }
    }
  }

  lemma {:induction false} NewSizes()
    ensures EncodeTopic(NEW_TOPIC) == [] && EncodeMessage(NEW_MESSAGE) == [] && EncodeTopics(NEW_TOPICS) == []
  {
  }

  lemma {:induction false} TopicsGrowth(m: Topics, d: bytes)
    requires DecodeTopics(m, d).err == None
    ensures |EncodeTopics(DecodeTopics(m, d).msg)| <= |EncodeTopics(m)| + |d|
  {
    hide Parse;
    TopicsGrowByField();
    ParseGrowth(TopicsSchema, StoreTopics, TopicsSize, m, d);
  }

  /** Merging a payload into a sub-message costs no more than writing it apart. */
  lemma {:induction false} EmbeddedGrowth(num: nat, present: bool, before: bytes, after: bytes, p: bytes)
    requires 1 <= num <= 15 && |after| <= |before| + |p| && (!present ==> before == [])
    ensures |Tagged(num, after)| <= (if present then |Tagged(num, before)| else 0) + 1 + |Varint.Encode(|p|)| + |p|
  {
    LengthMonotone(|after|, |before| + |p|);
    LengthSubadditive(|before|, |p|);
  }

  lemma {:induction false} NotifyGrowsByField()
    ensures GrowsByField(StoreNotify, NotifySize)
  {
    hide DecodeTopics, DecodeMessage, EncodeTopics, EncodeMessage, Varint.Encode;
    NewSizes();
    forall f: NotifyFields, t: Token | !t.Raw? && StoreNotify(f, t).stop.Done?
      ensures NotifySize(StoreNotify(f, t).msg) <= NotifySize(f) + MinimalSize(t)
    {
      if t.Payload? && t.num == 1 {
        var m := f.topics.GetOr(NEW_TOPICS);
        TopicsGrowth(m, t.payload);
        EmbeddedGrowth(1, f.topics.Some?, EncodeTopics(m), EncodeTopics(DecodeTopics(m, t.payload).msg), t.payload);
      } else if t.Payload? && t.num == 2 {
        var m := f.message.GetOr(NEW_MESSAGE);
        MessageGrowth(m, t.payload);
        EmbeddedGrowth(2, f.message.Some?, EncodeMessage(m), EncodeMessage(DecodeMessage(m, t.payload).msg), t.payload);
      }
    }
  }

  lemma {:induction false} NotifyGrowth(m: NotifyRequest, d: bytes)
    requires DecodeNotify(m, d).err == None
    ensures |EncodeNotify(DecodeNotify(m, d).msg)| <= |EncodeNotify(m)| + |d|
  {
    hide Parse;
    NotifyGrowsByField();
    ParseGrowth(ThreeSchema, StoreNotify, NotifySize, m, d);
  }

  // ----- Normal form -----

  ghost predicate TopicsInv(f: TopicsFields) {
    ListWf(f.topics) && forall i :: 0 <= i < |f.topics| ==> f.topics[i].Some?
  }

  ghost predicate NotifyInv(f: NotifyFields) {
    && (f.topics.Some? ==> TopicsWf(f.topics.value) && TopicsInv(f.topics.value.fields))
    && (f.message.Some? ==> MessageWf(f.message.value))
  }

  ghost predicate Anything<F>(f: F) {
    true
  }

  lemma {:induction false} TopicStaysWf(m: Topic, d: bytes)
    requires TopicWf(m) && DecodeTopic(m, d).err == None
    ensures TopicWf(DecodeTopic(m, d).msg)
  {
    hide Parse, Unrecognised;
    assert Keeps(StoreTopic, Anything<TopicFields>);
    ParseKeeps(ThreeSchema, StoreTopic, Anything<TopicFields>, m, d);
  }

  lemma {:induction false} MessageStaysWf(m: Message, d: bytes)
    requires MessageWf(m) && DecodeMessage(m, d).err == None
    ensures MessageWf(DecodeMessage(m, d).msg)
  {
    hide Parse, Unrecognised;
    assert Keeps(StoreMessage, Anything<MessageFields>);
    ParseKeeps(ThreeSchema, StoreMessage, Anything<MessageFields>, m, d);
  }

  lemma {:induction false} TopicsStayWf(m: Topics, d: bytes)
    requires TopicsWf(m) && TopicsInv(m.fields) && DecodeTopics(m, d).err == None
    ensures var m' := DecodeTopics(m, d).msg; TopicsWf(m') && TopicsInv(m'.fields)
  {
    hide Parse, Unrecognised, DecodeTopic;
    assert Keeps(StoreTopics, TopicsInv) by {
      forall f: TopicsFields, t: Token | TopicsInv(f) && !t.Raw? && StoreTopics(f, t).stop.Done?
        ensures TopicsInv(StoreTopics(f, t).msg)
      {
        if t.Payload? && t.num == 1 {
          NewWf();
          TopicStaysWf(NEW_TOPIC, t.payload);
        }
      }
    }
    ParseKeeps(TopicsSchema, StoreTopics, TopicsInv, m, d);
  }

  lemma {:induction false} NewWf()
    ensures TopicWf(NEW_TOPIC) && MessageWf(NEW_MESSAGE) && TopicsWf(NEW_TOPICS) && TopicsInv(NEW_TOPICS.fields)
  {
  }

  /** Whatever bytes a request was decoded from, it is one the encoder may be given: no nil list
      elements, and whole undeclared fields as unknown bytes at every level. */
  lemma {:induction false} NotifyStaysWf(m: NotifyRequest, d: bytes)
    requires NotifyWf(m) && NoNil(m) && DecodeNotify(m, d).err == None
    ensures NotifyWf(DecodeNotify(m, d).msg) && NoNil(DecodeNotify(m, d).msg)
  {
    hide Parse, Unrecognised, DecodeTopics, DecodeMessage;
    assert Keeps(StoreNotify, NotifyInv) by {
      forall f: NotifyFields, t: Token | NotifyInv(f) && !t.Raw? && StoreNotify(f, t).stop.Done?
        ensures NotifyInv(StoreNotify(f, t).msg)
      {
        NewWf();
        if t.Payload? && t.num == 1 {
          TopicsStayWf(f.topics.GetOr(NEW_TOPICS), t.payload);
        } else if t.Payload? && t.num == 2 {
          MessageStaysWf(f.message.GetOr(NEW_MESSAGE), t.payload);
        }
      }
    }
    ParseKeeps(ThreeSchema, StoreNotify, NotifyInv, m, d);
  }

  /** Re-encoding whatever decoded, and decoding that, gives the same request, in no more bytes. */
  lemma {:induction false} NotifyNormalForm(x: bytes)
    requires |x| < TWO_63 && DecodeNotify(NEW_NOTIFY, x).err == None
    ensures var m := DecodeNotify(NEW_NOTIFY, x).msg;
            |EncodeNotify(m)| <= |x| && DecodeNotify(NEW_NOTIFY, EncodeNotify(m)) == Decoded(m, None)
  {
    hide Parse, Unrecognised;
    var m := DecodeNotify(NEW_NOTIFY, x).msg;
    assert Unrecognised(ThreeSchema, []) by { NewWf(); }
    NotifyStaysWf(NEW_NOTIFY, x);
    NotifyGrowth(NEW_NOTIFY, x);
    assert EncodeNotify(NEW_NOTIFY) == [];
    NotifyRoundTrip(m);
  }

  lemma {:induction false} TopicNormalForm(x: bytes)
    requires |x| < TWO_63 && DecodeTopic(NEW_TOPIC, x).err == None
    ensures var m := DecodeTopic(NEW_TOPIC, x).msg;
            |EncodeTopic(m)| <= |x| && DecodeTopic(NEW_TOPIC, EncodeTopic(m)) == Decoded(m, None)
  {
    hide Parse, Unrecognised;
    NewWf();
    NewSizes();
    TopicStaysWf(NEW_TOPIC, x);
    TopicGrowth(NEW_TOPIC, x);
    TopicRoundTrip(DecodeTopic(NEW_TOPIC, x).msg);
  }

  lemma {:induction false} MessageNormalForm(x: bytes)
    requires |x| < TWO_63 && DecodeMessage(NEW_MESSAGE, x).err == None
    ensures var m := DecodeMessage(NEW_MESSAGE, x).msg;
            |EncodeMessage(m)| <= |x| && DecodeMessage(NEW_MESSAGE, EncodeMessage(m)) == Decoded(m, None)
  {
    hide Parse, Unrecognised;
    NewWf();
    NewSizes();
    MessageStaysWf(NEW_MESSAGE, x);
    MessageGrowth(NEW_MESSAGE, x);
    MessageRoundTrip(DecodeMessage(NEW_MESSAGE, x).msg);
  }

  lemma {:induction false} TopicsNormalForm(x: bytes)
    requires |x| < TWO_63 && DecodeTopics(NEW_TOPICS, x).err == None
    ensures var m := DecodeTopics(NEW_TOPICS, x).msg;
            |EncodeTopics(m)| <= |x| && DecodeTopics(NEW_TOPICS, EncodeTopics(m)) == Decoded(m, None)
  {
    hide Parse, Unrecognised;
    NewWf();
    NewSizes();
    var m := DecodeTopics(NEW_TOPICS, x).msg;
    TopicsStayWf(NEW_TOPICS, x);
    TopicsGrowth(NEW_TOPICS, x);
    TopicsRoundTrip(m);
    assert DenilAll(m.fields.topics) == m.fields.topics;
  }

  // ----- The varint field is different -----

  ghost function SetTokenSize(f: SetTokenFields): nat {
    |EncodeSetTokenFields(f)|
  }

  /** The fewest bytes a platform can be sent in: a negative one is written in eleven, but a varint of five
      bytes behind the tag is enough for it. */
  ghost function PlatformSent(p: int32): nat {
    if p < 0 then 6 else |EncodePlatform(p)|
  }

  ghost function SetTokenSentSize(f: SetTokenFields): nat {
    PlatformSent(f.platform) + |Optional(2, f.token)|
  }

  lemma {:induction false} NegativeSizes(v: nat)
    requires TWO_31 <= v
    ensures 5 <= |Varint.Encode(v)|
    ensures v < TWO_64 && v >= TWO_64 - TWO_31 ==> |Varint.Encode(v)| == 10
  {
    LengthMonotone(TWO_31, v);
    FiveBytes();
    if v < TWO_64 && v >= TWO_64 - TWO_31 {
      ReadEncode64(v, []);
      LengthMonotone(TWO_63, v);
      Top();
    }
  }

  lemma {:induction false} FiveBytes()
    ensures |Varint.Encode(TWO_31)| == 5
  {
    assert TWO_31 / 128 == 0x100_0000 && 0x100_0000 / 128 == 0x2_0000 && 0x2_0000 / 128 == 0x400 && 0x400 / 128 == 8;
    assert |Varint.Encode(0x400)| == 2;
    assert |Varint.Encode(0x100_0000)| == 4;
  }

  lemma {:induction false} Top()
    ensures |Varint.Encode(TWO_63)| == 10
  {
    assert TWO_63 / 128 == 0x100_0000_0000_0000;
    Powers(8);
  }

  lemma {:induction false} Powers(n: nat)
    requires n <= 8
    ensures |Varint.Encode(Pow2(7 * n))| == n + 1
  {
    hide Pow2;
    if n == 0 {
      SevenMore(0);
    } else {
      SevenMore(n - 1);
      Powers(n - 1);
    }
  }

  lemma {:induction false} SetTokenSizes(f: SetTokenFields)
    ensures SetTokenSentSize(f) <= SetTokenSize(f) <= SetTokenSentSize(f) + 5
    ensures f.platform < 0 ==> SetTokenSize(f) == SetTokenSentSize(f) + 5
  {
    if f.platform < 0 { NegativeSizes(SignExtend(f.platform)); }
  }

  /** The fewest bytes in which the value that `t` stores can be sent. */
  ghost function Needed(t: Token): nat {
    match t
    case Number(1, v) => PlatformSent(AsInt32(v % TWO_32))
    case Payload(2, p) => |Optional(2, p)|
    case Raw(raw) => |raw|
    case _ => 0
  }

  /** The bytes of the value that `t` overwrites. */
  ghost function Overwritten(f: SetTokenFields, t: Token): nat {
    match t
    case Number(1, _) => PlatformSent(f.platform)
    case Payload(2, _) => |Optional(2, f.token)|
    case _ => 0
  }

  lemma {:induction false} NeededIsLeast(t: Token)
    ensures Needed(t) <= MinimalSize(t)
  {
    hide Optional, Varint.Encode;
    if t.Number? && t.num == 1 {
      if AsInt32(t.number % TWO_32) < 0 {
        NegativeSizes(t.number);
      } else {
        LengthOfRemainder(t.number, TWO_32);
      }
    } else if t.Payload? && t.num == 2 {
      OptionalSize(2, t.payload);
    }
  }

  /** What re-encoding saves on the input `d`, field by field: the values that later fields overwrite, and
      the bytes of each field that its value does not need. */
  ghost function Saved(f: SetTokenFields, d: bytes): nat
    decreases |d|
  {
    if d == [] || !Next(SetTokenSchema, d).Field? then 0
    else
      NextLocal(SetTokenSchema, d, []);
      var Field(t, n) := Next(SetTokenSchema, d);
      NeededIsLeast(t);
      Overwritten(f, t) + (n - Needed(t)) + Saved(if t.Raw? then f else StoreSetToken(f, t).msg, d[n..])
  }

  /** The last platform in `d`. */
  ghost function LastPlatform(d: bytes): Option<nat>
    decreases |d|
  {
    if d == [] || !Next(SetTokenSchema, d).Field? then None
    else
      NextLocal(SetTokenSchema, d, []);
      var Field(t, n) := Next(SetTokenSchema, d);
      var later := LastPlatform(d[n..]);
      if later.None? && t.Number? then Some(t.number) else later
  }

  lemma {:induction false} SentAccounting(m: SetTokenRequest, d: bytes)
    requires Parse(SetTokenSchema, StoreSetToken, m, d).stop.Done?
    ensures var m' := Parse(SetTokenSchema, StoreSetToken, m, d).msg;
            && SetTokenSentSize(m'.fields) + |m'.unknown| + Saved(m.fields, d)
               == SetTokenSentSize(m.fields) + |m.unknown| + |d|
            && m'.fields.platform
               == if LastPlatform(d).None? then m.fields.platform else AsInt32(LastPlatform(d).value % TWO_32)
    decreases |d|
  {
    hide Next, Optional, EncodePlatform;
    if d != [] {
      FieldFirst(m, d);
      var Field(t, n) := Next(SetTokenSchema, d);
      NextLocal(SetTokenSchema, d, []);
      SentAccounting(Store(StoreSetToken, m, t).msg, d[n..]);
    }
  }

  lemma {:induction false} FieldFirst(m: SetTokenRequest, d: bytes)
    requires d != [] && Parse(SetTokenSchema, StoreSetToken, m, d).stop.Done?
    ensures var step := Next(SetTokenSchema, d); step.Field? && (step.token.Number? ==> step.token.num == 1)
  {
  }

  /** The whole account for the one message with a varint field: what is written back and what is saved make
      up what was there and what came in, and five bytes for sign extension when the platform turns
      negative, less five when it turns back. */
  lemma {:induction false} SetTokenAccounting(m: SetTokenRequest, d: bytes)
    requires DecodeSetToken(m, d).err == None
    ensures var m' := DecodeSetToken(m, d).msg;
            |EncodeSetToken(m')| + Saved(m.fields, d)
            == |EncodeSetToken(m)| + |d|
               + (if m'.fields.platform < 0 then 5 else 0) - (if m.fields.platform < 0 then 5 else 0)
  {
    hide Parse;
    SentAccounting(m, d);
    SetTokenSizes(m.fields);
    SetTokenSizes(DecodeSetToken(m, d).msg.fields);
  }

  /** So re-encoding adds more than came in exactly if the platform was not negative, the last one in the
      input is, and less than five bytes are saved. */
  lemma {:induction false} SetTokenGrowth(m: SetTokenRequest, d: bytes)
    requires DecodeSetToken(m, d).err == None
    ensures var size, before := |EncodeSetToken(DecodeSetToken(m, d).msg)|, |EncodeSetToken(m)|;
            && size <= before + |d| + 5
            && (size > before + |d|
                <==> && m.fields.platform >= 0 && Saved(m.fields, d) < 5
                     && LastPlatform(d).Some? && LastPlatform(d).value % TWO_32 >= TWO_31)
  {
    hide Parse, Saved, LastPlatform;
    SetTokenAccounting(m, d);
    SentAccounting(m, d);
  }

  lemma {:induction false} LongVarint(v: nat)
    requires v < TWO_64
    ensures |Varint.Encode(v)| <= 10
  {
    ReadEncode64(v, []);
  }

  /** A request with one platform, as any sender may write it, and perhaps a token grows exactly if the
      platform is negative and was not sent in ten bytes. */
  lemma {:induction false} SentRequestGrows(v: nat, p: bytes)
    requires v < TWO_64 && |p| < TWO_63
    ensures var x := TaggedNumber(1, v) + Optional(2, p);
            var r := DecodeSetToken(NEW_SET_TOKEN, x);
            && r.err == None
            && (|EncodeSetToken(r.msg)| > |x| <==> TWO_31 <= v % TWO_32 && |Varint.Encode(v)| < 10)
  {
    hide Next, Parse, Varint.Encode, Optional, LastPlatform, Saved;
    var f := SetTokenFields(AsInt32(v % TWO_32), p);
    ParseSent(v, p);
    var x := TaggedNumber(1, v) + Optional(2, p);
    assert DecodeSetToken(NEW_SET_TOKEN, x) == Decoded(Proto(f, []), None);
    LongVarint(v);
    if f.platform < 0 {
      NegativeSizes(SignExtend(f.platform));
    } else {
      LengthOfRemainder(v, TWO_32);
    }
  }

  lemma {:induction false} ParseSent(v: nat, p: bytes)
    requires v < TWO_64 && |p| < TWO_63
    ensures Parse(SetTokenSchema, StoreSetToken, NEW_SET_TOKEN, TaggedNumber(1, v) + Optional(2, p))
            == Outcome(Proto(SetTokenFields(AsInt32(v % TWO_32), p), []), Done)
  {
    hide Next, Varint.Encode, Parse;
    var a := TaggedNumber(1, v);
    var m := Proto(SetTokenFields(AsInt32(v % TWO_32), []), []);
    NextTaggedNumber(SetTokenSchema, 1, v);
    ParseOne(SetTokenSchema, StoreSetToken, NEW_SET_TOKEN, a);
    if p == [] {
      Seqs.RightUnit(a);
    } else {
      NextTagged(SetTokenSchema, 2, p);
      ParseOne(SetTokenSchema, StoreSetToken, m, Tagged(2, p));
      ParseTwo(SetTokenSchema, StoreSetToken, NEW_SET_TOKEN, a, Tagged(2, p));
    }
  }

  /** The five bytes are needed: a platform sent in six bytes is written back in eleven. */
  lemma {:induction false} SetTokenGrows()
    ensures var x := TaggedNumber(1, TWO_31);
            var r := DecodeSetToken(NEW_SET_TOKEN, x);
            r.err == None && |EncodeSetToken(r.msg)| == |x| + 5
  {
    hide Next, Parse, Varint.Encode;
    var x := TaggedNumber(1, TWO_31);
    NextTaggedNumber(SetTokenSchema, 1, TWO_31);
    ParseOne(SetTokenSchema, StoreSetToken, NEW_SET_TOKEN, x);
    NegativeSizes(TWO_31);
    NegativeSizes(SignExtend(-TWO_31));
    FiveBytes();
  }

  ghost function TokenLength(f: SetTokenFields): nat {
    |f.token|
  }

  /** Nothing is written for a fresh request, so no field is written that holds its zero value. */
  lemma {:induction false} NewSetTokenSize()
    ensures EncodeSetToken(NEW_SET_TOKEN) == []
  {
  }

  /** Re-encoding whatever decoded, and decoding that, gives the same request, in no more bytes, or in at most
      five more if its platform is negative. */
  lemma {:induction false} SetTokenNormalForm(x: bytes)
    requires |x| < TWO_63 && DecodeSetToken(NEW_SET_TOKEN, x).err == None
    ensures var m := DecodeSetToken(NEW_SET_TOKEN, x).msg;
            && DecodeSetToken(NEW_SET_TOKEN, EncodeSetToken(m)) == Decoded(m, None)
            && |EncodeSetToken(m)| <= |x| + if m.fields.platform < 0 then 5 else 0
  {
    hide Parse, Unrecognised, EncodeSetToken;
    assert Unrecognised(SetTokenSchema, []) by { NothingUnrecognised(SetTokenSchema); }
    assert GrowsByField(StoreSetToken, TokenLength);
    ParseGrowth(SetTokenSchema, StoreSetToken, TokenLength, NEW_SET_TOKEN, x);
    assert Keeps(StoreSetToken, Anything<SetTokenFields>);
    ParseKeeps(SetTokenSchema, StoreSetToken, Anything<SetTokenFields>, NEW_SET_TOKEN, x);
    SetTokenRoundTrip(DecodeSetToken(NEW_SET_TOKEN, x).msg);
    NewSetTokenSize();
    SetTokenAccounting(NEW_SET_TOKEN, x);
  }

  lemma {:induction false} NothingUnrecognised(schema: Schema)
    ensures Unrecognised(schema, [])
  {
  }
}
