/**
 The generated message structs and their SizeVT, MarshalToSizedBufferVT, MarshalVT and UnmarshalVT,
 each proved against the values of module Messages. The slice `dAtA[:i]` of a buffer is the array
 with its end `i`.
 */
module PushApi {
  import opened GoInts
  import opened Wrappers
  import opened Varint
  import opened Wire
  import opened Buffers
  import M = Messages
  import Seqs

  class Topic {
    var spaceKey: bytes
    var topic: bytes
    var signature: bytes
    var unknownFields: bytes

    ghost function Val(): M.Topic
      reads this
    {
      Proto(M.TopicFields(spaceKey, topic, signature), unknownFields)
    }

    constructor ()
      ensures Val() == M.NEW_TOPIC
    {
      spaceKey, topic, signature, unknownFields := [], [], [], [];
    }

    static method SizeVT(m: Topic?) returns (n: nat)
      ensures n == |M.EncodeElement(Opt(m))|
    {
      if m == null { return 0; }
      var a := SizeOfOptional(1, |m.spaceKey|, m.spaceKey);
      var b := SizeOfOptional(2, |m.topic|, m.topic);
      var c := SizeOfOptional(3, |m.signature|, m.signature);
      n := a + b + c + |m.unknownFields|;
    }

    static method MarshalToSizedBufferVT(m: Topic?, dAtA: array<byte>, end: nat) returns (n: nat)
      requires |M.EncodeElement(Opt(m))| <= end <= dAtA.Length
      modifies dAtA
      ensures var b := M.EncodeElement(Opt(m)); n == |b| && Framed(dAtA[..], old(dAtA[..]), end - n, end, b)
    {
      if m == null { return 0; }
      var i := PutThree(dAtA, end, m.spaceKey, m.topic, m.signature, m.unknownFields);
      n := end - i;
    }

    static method MarshalVT(m: Topic?) returns (dAtA: array<byte>)
      ensures fresh(dAtA) && dAtA[..] == M.EncodeElement(Opt(m))
    {
      hide Framed, M.EncodeElement;
      var size := SizeVT(m);
      dAtA := new byte[size];
      ghost var empty := dAtA[..];
      var n := MarshalToSizedBufferVT(m, dAtA, size);
      FramedAll(dAtA[..], empty, size, M.EncodeElement(Opt(m)));
    }

    method UnmarshalVT(dAtA: bytes) returns (err: Option<Error>)
      requires |dAtA| < TWO_63
      modifies this
      ensures Decoded(Val(), err) == M.DecodeTopic(old(Val()), dAtA)
    {
      hide Parse, Store, ReadTag, DelimitedAt, RawAt;
      var l, iNdEx := |dAtA|, 0;
      ParseStart(M.ThreeSchema, M.StoreTopic, Val(), dAtA);
      while iNdEx < l
        invariant iNdEx <= l
        invariant Parse(M.ThreeSchema, M.StoreTopic, old(Val()), dAtA)
               == After(M.ThreeSchema, M.StoreTopic, Val(), iNdEx, dAtA[iNdEx..])
      {
        var preIndex := iNdEx;
        var fieldNum, wireType, postIndex;
        ghost var before := Val();
        AfterStep(M.ThreeSchema, M.StoreTopic, before, dAtA, preIndex);
        err, fieldNum, wireType, iNdEx := DecodeTag(dAtA, iNdEx);
        if err.Some? { return; }
        if 1 <= fieldNum <= 3 {
          if wireType != 2 { return Some(WrongWireType(fieldNum, wireType)); }
          err, iNdEx, postIndex := DecodeLength(dAtA, preIndex, fieldNum, iNdEx);
          if err.Some? { return; }
          if fieldNum == 1 {
            spaceKey := dAtA[iNdEx..postIndex];
          } else if fieldNum == 2 {
            topic := dAtA[iNdEx..postIndex];
          } else {
            signature := dAtA[iNdEx..postIndex];
          }
          iNdEx := postIndex;
        } else {
          err, iNdEx := DecodeUnknown(dAtA, preIndex);
          if err.Some? { return; }
          unknownFields := unknownFields + dAtA[preIndex..iNdEx];
        }
        StoredIs(M.StoreTopic, before, Next(M.ThreeSchema, dAtA[preIndex..]).token, Val());
      }
      ParseEnd(M.ThreeSchema, M.StoreTopic, Val(), dAtA, iNdEx);
      return None;
    }
  }

  ghost function Opt(m: Topic?): Option<M.Topic>
    reads m
  {
    if m == null then None else Some(m.Val())
  }

  lemma {:induction false} ParseStart<F>(schema: Schema, apply: Handler<F>, m: Proto<F>, d: bytes)
    ensures After(schema, apply, m, 0, d[0..]) == Parse(schema, apply, m, d)
  {
    assert d[0..] == d;
  }

  lemma {:induction false} ParseEnd<F>(schema: Schema, apply: Handler<F>, m: Proto<F>, d: bytes, i: nat)
    requires i == |d|
    ensures After(schema, apply, m, i, d[i..]) == Outcome(m, Done)
  {
  }

  lemma {:induction false} StoredIs<F>(apply: Handler<F>, m: Proto<F>, t: Token, m': Proto<F>)
    requires if t.Raw? then m' == m.(unknown := m.unknown + t.raw)
             else apply(m.fields, t) == Outcome(m'.fields, Done) && m'.unknown == m.unknown
    ensures Store(apply, m, t) == Outcome(m', Done)
  {
  }

  /** Three optional fields, last to first, before the unknown ones. */
  method PutThree(dAtA: array<byte>, end: nat, a: bytes, b: bytes, c: bytes, unknown: bytes) returns (i: nat)
    requires |M.EncodeThree(a, b, c) + unknown| <= end <= dAtA.Length
    modifies dAtA
    ensures i == end - |M.EncodeThree(a, b, c) + unknown|
    ensures Framed(dAtA[..], old(dAtA[..]), i, end, M.EncodeThree(a, b, c) + unknown)
  {
    hide Optional, Framed;
    ghost var s0 := dAtA[..];
    i := CopyBefore(dAtA, end, unknown);
    ghost var i1, s1 := i, dAtA[..];
    i := PutOptional(dAtA, i, 3, c);
    ghost var i2, s2 := i, dAtA[..];
    FramedChain(s2, s1, s0, i2, i1, end, Optional(3, c), unknown);
    i := PutOptional(dAtA, i, 2, b);
    ghost var i3, s3 := i, dAtA[..];
    FramedChain(s3, s2, s0, i3, i2, end, Optional(2, b), Optional(3, c) + unknown);
    i := PutOptional(dAtA, i, 1, a);
    FramedChain(dAtA[..], s3, s0, i, i3, end, Optional(1, a), Optional(2, b) + (Optional(3, c) + unknown));
    assert Optional(1, a) + (Optional(2, b) + (Optional(3, c) + unknown)) == M.EncodeThree(a, b, c) + unknown;
  }

  class Message {
    var keyId: bytes
    var payload: bytes
    var signature: bytes
    var unknownFields: bytes

    ghost function Val(): M.Message
      reads this
    {
      Proto(M.MessageFields(keyId, payload, signature), unknownFields)
    }

    constructor ()
      ensures Val() == M.NEW_MESSAGE
    {
      keyId, payload, signature, unknownFields := [], [], [], [];
    }

    static method SizeVT(m: Message?) returns (n: nat)
      ensures n == |EncodingOf(m)|
    {
      if m == null { return 0; }
      var a := SizeOfOptional(1, |m.keyId|, m.keyId);
      var b := SizeOfOptional(2, |m.payload|, m.payload);
      var c := SizeOfOptional(3, |m.signature|, m.signature);
      n := a + b + c + |m.unknownFields|;
    }

    static ghost function EncodingOf(m: Message?): bytes
      reads m
    {
      if m == null then [] else M.EncodeMessage(m.Val())
    }

    static method MarshalToSizedBufferVT(m: Message?, dAtA: array<byte>, end: nat) returns (n: nat)
      requires |EncodingOf(m)| <= end <= dAtA.Length
      modifies dAtA
      ensures var b := EncodingOf(m); n == |b| && Framed(dAtA[..], old(dAtA[..]), end - n, end, b)
    {
      if m == null { return 0; }
      var i := PutThree(dAtA, end, m.keyId, m.payload, m.signature, m.unknownFields);
      n := end - i;
    }

    static method MarshalVT(m: Message?) returns (dAtA: array<byte>)
      ensures fresh(dAtA) && dAtA[..] == EncodingOf(m)
    {
      hide Framed, EncodingOf;
      var size := SizeVT(m);
      dAtA := new byte[size];
      ghost var empty := dAtA[..];
      var n := MarshalToSizedBufferVT(m, dAtA, size);
      FramedAll(dAtA[..], empty, size, EncodingOf(m));
    }

    method UnmarshalVT(dAtA: bytes) returns (err: Option<Error>)
      requires |dAtA| < TWO_63
      modifies this
      ensures Decoded(Val(), err) == M.DecodeMessage(old(Val()), dAtA)
    {
      hide Parse, Store, ReadTag, DelimitedAt, RawAt;
      var l, iNdEx := |dAtA|, 0;
      ParseStart(M.ThreeSchema, M.StoreMessage, Val(), dAtA);
      while iNdEx < l
        invariant iNdEx <= l
        invariant Parse(M.ThreeSchema, M.StoreMessage, old(Val()), dAtA)
               == After(M.ThreeSchema, M.StoreMessage, Val(), iNdEx, dAtA[iNdEx..])
      {
        var preIndex := iNdEx;
        var fieldNum, wireType, postIndex;
        ghost var before := Val();
        AfterStep(M.ThreeSchema, M.StoreMessage, before, dAtA, preIndex);
        err, fieldNum, wireType, iNdEx := DecodeTag(dAtA, iNdEx);
        if err.Some? { return; }
        if 1 <= fieldNum <= 3 {
          if wireType != 2 { return Some(WrongWireType(fieldNum, wireType)); }
          err, iNdEx, postIndex := DecodeLength(dAtA, preIndex, fieldNum, iNdEx);
          if err.Some? { return; }
          if fieldNum == 1 {
            keyId := dAtA[iNdEx..postIndex];
          } else if fieldNum == 2 {
            payload := dAtA[iNdEx..postIndex];
          } else {
            signature := dAtA[iNdEx..postIndex];
          }
          iNdEx := postIndex;
        } else {
          err, iNdEx := DecodeUnknown(dAtA, preIndex);
          if err.Some? { return; }
          unknownFields := unknownFields + dAtA[preIndex..iNdEx];
        }
        StoredIs(M.StoreMessage, before, Next(M.ThreeSchema, dAtA[preIndex..]).token, Val());
      }
      ParseEnd(M.ThreeSchema, M.StoreMessage, Val(), dAtA, iNdEx);
      return None;
    }
  }

  class SetTokenRequest {
    var platform: M.int32
    var token: bytes
    var unknownFields: bytes

    ghost function Val(): M.SetTokenRequest
      reads this
    {
      Proto(M.SetTokenFields(platform, token), unknownFields)
    }

    constructor ()
      ensures Val() == M.NEW_SET_TOKEN
    {
      platform, token, unknownFields := 0, [], [];
    }

    static ghost function EncodingOf(m: SetTokenRequest?): bytes
      reads m
    {
      if m == null then [] else M.EncodeSetToken(m.Val())
    }

    static method SizeVT(m: SetTokenRequest?) returns (n: nat)
      ensures n == |EncodingOf(m)|
    {
      if m == null { return 0; }
      n := 0;
      if m.platform != 0 {
        var s := SizeOfVarint(SignExtend(m.platform));
        n := 1 + s;
      }
      var b := SizeOfOptional(2, |m.token|, m.token);
      n := n + b + |m.unknownFields|;
    }

    static method MarshalToSizedBufferVT(m: SetTokenRequest?, dAtA: array<byte>, end: nat) returns (n: nat)
      requires |EncodingOf(m)| <= end <= dAtA.Length
      modifies dAtA
      ensures var b := EncodingOf(m); n == |b| && Framed(dAtA[..], old(dAtA[..]), end - n, end, b)
    {
      if m == null { return 0; }
      hide Optional, Framed, M.EncodePlatform;
      ghost var s0, token, platform := dAtA[..], Optional(2, m.token), M.EncodePlatform(m.platform);
      var i := CopyBefore(dAtA, end, m.unknownFields);
      ghost var i1, s1 := i, dAtA[..];
      i := PutOptional(dAtA, i, 2, m.token);
      ghost var i2, s2 := i, dAtA[..];
      FramedChain(s2, s1, s0, i2, i1, end, token, m.unknownFields);
      i := PutPlatform(dAtA, i, m.platform);
      FramedChain(dAtA[..], s2, s0, i, i2, end, platform, token + m.unknownFields);
      Seqs.ConcatAssoc(platform, token, m.unknownFields);
      n := end - i;
    }

    static method PutPlatform(dAtA: array<byte>, end: nat, p: M.int32) returns (i: nat)
      requires |M.EncodePlatform(p)| <= end <= dAtA.Length
      modifies dAtA
      ensures i == end - |M.EncodePlatform(p)| && Framed(dAtA[..], old(dAtA[..]), i, end, M.EncodePlatform(p))
    {
      i := end;
      if p != 0 {
        i := PutVarint(dAtA, i, SignExtend(p));
        ghost var i1, s1 := i, dAtA[..];
        i := PutByte(dAtA, i, 0x8);
        FramedChain(dAtA[..], s1, old(dAtA[..]), i, i1, end, [0x8], Varint.Encode(SignExtend(p)));
      } else {
        FramedNothing(dAtA[..], end);
      }
    }

    static method MarshalVT(m: SetTokenRequest?) returns (dAtA: array<byte>)
      ensures fresh(dAtA) && dAtA[..] == EncodingOf(m)
    {
      hide Framed, EncodingOf;
      var size := SizeVT(m);
      dAtA := new byte[size];
      ghost var empty := dAtA[..];
      var n := MarshalToSizedBufferVT(m, dAtA, size);
      FramedAll(dAtA[..], empty, size, EncodingOf(m));
    }

    /** The platform is overwritten group by group, so a varint that breaks off leaves it cut short. */
    method IntoPlatform(dAtA: bytes, ghost preIndex: nat, start: nat) returns (err: Option<Error>, iNdEx: nat)
      requires preIndex <= start <= |dAtA|
      modifies this`platform
      ensures match NumberAt(dAtA[preIndex..], 1, start - preIndex)
              case Broken(num, v, e) =>
                err == Some(e) && num == 1 && Val() == Store(M.StoreSetToken, old(Val()), Number(1, v)).msg
              case Field(t, n) =>
                && err == None && preIndex <= iNdEx == preIndex + n <= |dAtA|
                && Outcome(Val(), Done) == Store(M.StoreSetToken, old(Val()), t)
              case Bad(_) => false
    {
      hide Pow2, Read, Partial;
      Pow2Values();
      Seqs.DropDrop(dAtA, preIndex, start - preIndex);
      var u;
      err, u, iNdEx := Varint.Decode(dAtA, start, 32);
      platform := AsInt32(u);
    }

    /** One turn of the loop below, from `preIndex`. */
    method UnmarshalField(dAtA: bytes, preIndex: nat) returns (err: Option<Error>, iNdEx: nat)
      requires preIndex < |dAtA| < TWO_63
      modifies this
      ensures var o := After(M.SetTokenSchema, M.StoreSetToken, old(Val()), preIndex, dAtA[preIndex..]);
              if err.Some? then Observe(o) == Decoded(Val(), err)
              else
                && preIndex < iNdEx <= |dAtA|
                && o == After(M.SetTokenSchema, M.StoreSetToken, Val(), iNdEx, dAtA[iNdEx..])
    {
      hide Parse, Store, ReadTag, DelimitedAt, NumberAt, RawAt, After;
      ghost var before := Val();
      AfterStep(M.SetTokenSchema, M.StoreSetToken, before, dAtA, preIndex);
      var fieldNum, wireType, postIndex;
      err, fieldNum, wireType, iNdEx := DecodeTag(dAtA, preIndex);
      if err.Some? { return; }
      if fieldNum == 1 {
        if wireType != 0 { return Some(WrongWireType(fieldNum, wireType)), iNdEx; }
        err, iNdEx := IntoPlatform(dAtA, preIndex, iNdEx);
      } else if fieldNum == 2 {
        if wireType != 2 { return Some(WrongWireType(fieldNum, wireType)), iNdEx; }
        err, iNdEx, postIndex := DecodeLength(dAtA, preIndex, fieldNum, iNdEx);
        if err.Some? { return; }
        token := dAtA[iNdEx..postIndex];
        iNdEx := postIndex;
        StoredIs(M.StoreSetToken, before, Payload(2, token), Val());
      } else {
        err, iNdEx := DecodeUnknown(dAtA, preIndex);
        if err.Some? { return; }
        unknownFields := unknownFields + dAtA[preIndex..iNdEx];
        StoredIs(M.StoreSetToken, before, Raw(dAtA[preIndex..iNdEx]), Val());
      }
    }

    method UnmarshalVT(dAtA: bytes) returns (err: Option<Error>)
      requires |dAtA| < TWO_63
      modifies this
      ensures Decoded(Val(), err) == M.DecodeSetToken(old(Val()), dAtA)
    {
      hide Parse, After;
      var l, iNdEx := |dAtA|, 0;
      ParseStart(M.SetTokenSchema, M.StoreSetToken, Val(), dAtA);
      while iNdEx < l
        invariant iNdEx <= l
        invariant Parse(M.SetTokenSchema, M.StoreSetToken, old(Val()), dAtA)
               == After(M.SetTokenSchema, M.StoreSetToken, Val(), iNdEx, dAtA[iNdEx..])
      {
        err, iNdEx := UnmarshalField(dAtA, iNdEx);
        if err.Some? { return; }
      }
      ParseEnd(M.SetTokenSchema, M.StoreSetToken, Val(), dAtA, iNdEx);
      return None;
    }
  }

  class Topics {
    var topics: seq<Topic?>
    var unknownFields: bytes

    ghost function Val(): M.Topics
      reads this, topics
    {
      Proto(M.TopicsFields(ListVal(topics)), unknownFields)
    }

    static ghost function ListVal(ts: seq<Topic?>): seq<Option<M.Topic>>
      reads ts
    {
      seq(|ts|, i requires 0 <= i < |ts| reads ts => Opt(ts[i]))
    }

    constructor ()
      ensures topics == [] && Val() == M.NEW_TOPICS
    {
      topics, unknownFields := [], [];
      new;
      assert ListVal(topics) == [];
    }

    static ghost function EncodingOf(m: Topics?): bytes
      reads m, if m == null then [] else m.topics
    {
      if m == null then [] else M.EncodeTopics(m.Val())
    }

    static method SizeVT(m: Topics?) returns (n: nat)
      ensures n == |EncodingOf(m)|
    {
      if m == null { return 0; }
      hide M.EncodeList, M.EncodeElement, Varint.Encode;
      ghost var values := ListVal(m.topics);
      n := 0;
      ListSizes(values, 0);
      for k := 0 to |m.topics|
        invariant n == |M.EncodeList(values[..k])|
      {
        ListSizes(values, k);
        var l := Topic.SizeVT(m.topics[k]);
        var s := SizeOfVarint(l);
        n := n + 1 + l + s;
      }
      assert values[..|m.topics|] == values;
      n := n + |m.unknownFields|;
    }

    static lemma {:induction false} ListSizes(values: seq<Option<M.Topic>>, k: nat)
      requires k <= |values|
      ensures k == 0 ==> M.EncodeList(values[..k]) == []
      ensures k < |values| ==>
                |M.EncodeList(values[..k + 1])| == |M.EncodeList(values[..k])| + |Tagged(1, M.EncodeElement(values[k]))|
    {
      if k < |values| {
        assert values[..k + 1] == values[..k] + [values[k]];
        M.EncodeListAppend(values[..k], values[k]);
      }
    }

    static method MarshalToSizedBufferVT(m: Topics?, dAtA: array<byte>, end: nat) returns (n: nat)
      requires |EncodingOf(m)| <= end <= dAtA.Length
      modifies dAtA
      ensures var b := EncodingOf(m); n == |b| && Framed(dAtA[..], old(dAtA[..]), end - n, end, b)
    {
      if m == null { return 0; }
      hide Framed, Tagged, ListWritten, M.EncodeElement, M.EncodeList;
      ghost var s0, values := dAtA[..], ListVal(m.topics);
      assert M.EncodeTopics(m.Val()) == M.EncodeList(values) + m.unknownFields;
      var i := CopyBefore(dAtA, end, m.unknownFields);
      ListWrittenNone(dAtA[..], s0, i, end, values, m.unknownFields);
      for k := |m.topics| downto 0
        invariant 0 <= i <= end && ListWritten(dAtA[..], s0, i, end, values, k, m.unknownFields)
      {
        ghost var i1, s1 := i, dAtA[..];
        ListFits(s1, s0, i1, end, values, k, m.unknownFields);
        i := PutElement(m.topics[k], dAtA, i);
        ListWrittenStep(dAtA[..], s1, s0, i, i1, end, values, k, m.unknownFields);
      }
      ListWrittenAll(dAtA[..], s0, i, end, values, m.unknownFields);
      n := end - i;
    }

    /** The elements from `k` on and the unknown fields stand before `end`. */
    static ghost predicate ListWritten(after: bytes, before: bytes, i: nat, end: nat,
                                       values: seq<Option<M.Topic>>, k: nat, unknown: bytes)
    {
      && k <= |values|
      && i == end - |M.EncodeList(values[k..])| - |unknown|
      && Framed(after, before, i, end, M.EncodeList(values[k..]) + unknown)
    }

    static lemma {:induction false} ListWrittenNone(after: bytes, before: bytes, i: nat, end: nat,
                                                    values: seq<Option<M.Topic>>, unknown: bytes)
      requires i == end - |unknown| && Framed(after, before, i, end, unknown)
      ensures ListWritten(after, before, i, end, values, |values|, unknown)
    {
      Seqs.RightUnit(unknown);
    }

    static lemma {:induction false} ListWrittenAll(after: bytes, before: bytes, i: nat, end: nat,
                                                   values: seq<Option<M.Topic>>, unknown: bytes)
      requires ListWritten(after, before, i, end, values, 0, unknown)
      ensures i == end - |M.EncodeList(values) + unknown|
      ensures Framed(after, before, i, end, M.EncodeList(values) + unknown)
    {
      hide Framed;
      assert values[0..] == values;
    }

    static lemma {:induction false} ListFits(after: bytes, before: bytes, i: nat, end: nat,
                                             values: seq<Option<M.Topic>>, k: nat, unknown: bytes)
      requires k < |values| && |M.EncodeList(values)| + |unknown| <= end
      requires ListWritten(after, before, i, end, values, k + 1, unknown)
      ensures |Tagged(1, M.EncodeElement(values[k]))| <= i <= |after|
    {
      SuffixFits(values, k, unknown);
    }

    static lemma {:induction false} ListWrittenStep(s2: bytes, s1: bytes, s0: bytes, i: nat, i1: nat, end: nat,
                                                    values: seq<Option<M.Topic>>, k: nat, unknown: bytes)
      requires k < |values| && ListWritten(s1, s0, i1, end, values, k + 1, unknown)
      requires var b := Tagged(1, M.EncodeElement(values[k])); i == i1 - |b| && Framed(s2, s1, i, i1, b)
      ensures ListWritten(s2, s0, i, end, values, k, unknown)
    {
      hide Framed;
      SuffixFits(values, k, unknown);
      FramedChain(s2, s1, s0, i, i1, end, Tagged(1, M.EncodeElement(values[k])),
                  M.EncodeList(values[k + 1..]) + unknown);
    }

    static lemma {:induction false} SuffixFits(values: seq<Option<M.Topic>>, k: nat, unknown: bytes)
      requires k < |values|
      ensures var head, rest := Tagged(1, M.EncodeElement(values[k])), M.EncodeList(values[k + 1..]);
              && M.EncodeList(values[k..]) + unknown == head + (rest + unknown)
              && |M.EncodeList(values[k..])| == |head| + |rest| <= |M.EncodeList(values)|
    {
      var head, rest := Tagged(1, M.EncodeElement(values[k])), M.EncodeList(values[k + 1..]);
      assert values[k..][1..] == values[k + 1..];
      Seqs.ConcatAssoc(head, rest, unknown);
      Seqs.SplitAt(values, k);
      M.EncodeListConcat(values[..k], values[k..]);
    }

    /** One list element with its header. */
    static method PutElement(t: Topic?, dAtA: array<byte>, end: nat) returns (i: nat)
      requires |Tagged(1, M.EncodeElement(Opt(t)))| <= end <= dAtA.Length
      modifies dAtA
      ensures var b := Tagged(1, M.EncodeElement(Opt(t)));
              i == end - |b| && Framed(dAtA[..], old(dAtA[..]), i, end, b)
    {
      hide M.EncodeElement;
      ghost var element := M.EncodeElement(Opt(t));
      var size := Topic.MarshalToSizedBufferVT(t, dAtA, end);
      i := PutHeader(dAtA, old(dAtA[..]), end, 1, element, size);
    }

    static method MarshalVT(m: Topics?) returns (dAtA: array<byte>)
      ensures fresh(dAtA) && dAtA[..] == EncodingOf(m)
    {
      hide Framed, EncodingOf;
      var size := SizeVT(m);
      dAtA := new byte[size];
      ghost var empty := dAtA[..];
      var n := MarshalToSizedBufferVT(m, dAtA, size);
      FramedAll(dAtA[..], empty, size, EncodingOf(m));
    }

    /** A fresh element is appended and parsed into. */
    method IntoNewTopic(p: bytes) returns (err: Option<Error>)
      requires |p| < TWO_63
      modifies this`topics
      ensures |topics| == |old(topics)| + 1 && topics[..|old(topics)|] == old(topics) && fresh(topics[|old(topics)|])
      ensures Outcome(Val(), Nested(err)) == Store(M.StoreTopics, old(Val()), Payload(1, p))
    {
      hide M.DecodeTopic;
      ghost var before := ListVal(topics);
      var t := new Topic();
      topics := topics + [t];
      err := topics[|topics| - 1].UnmarshalVT(p);
      assert ListVal(topics) == before + [Some(t.Val())];
    }

    /** One turn of the loop below, from `preIndex`. */
    method UnmarshalField(dAtA: bytes, preIndex: nat) returns (err: Option<Error>, iNdEx: nat)
      requires preIndex < |dAtA| < TWO_63
      modifies this
      ensures old(topics) <= topics && forall k :: |old(topics)| <= k < |topics| ==> fresh(topics[k])
      ensures var o := After(M.TopicsSchema, M.StoreTopics, old(Val()), preIndex, dAtA[preIndex..]);
              if err.Some? then Observe(o) == Decoded(Val(), err)
              else preIndex < iNdEx <= |dAtA| && o == After(M.TopicsSchema, M.StoreTopics, Val(), iNdEx, dAtA[iNdEx..])
    {
      hide Parse, Store, ReadTag, DelimitedAt, RawAt, After, M.DecodeTopic;
      ghost var before := Val();
      AfterStep(M.TopicsSchema, M.StoreTopics, before, dAtA, preIndex);
      var fieldNum, wireType, postIndex;
      err, fieldNum, wireType, iNdEx := DecodeTag(dAtA, preIndex);
      if err.Some? { return; }
      if fieldNum == 1 {
        if wireType != 2 { return Some(WrongWireType(fieldNum, wireType)), iNdEx; }
        err, iNdEx, postIndex := DecodeLength(dAtA, preIndex, fieldNum, iNdEx);
        if err.Some? { return; }
        err := IntoNewTopic(dAtA[iNdEx..postIndex]);
        iNdEx := postIndex;
      } else {
        err, iNdEx := DecodeUnknown(dAtA, preIndex);
        if err.Some? { return; }
        unknownFields := unknownFields + dAtA[preIndex..iNdEx];
        StoredIs(M.StoreTopics, before, Raw(dAtA[preIndex..iNdEx]), Val());
      }
    }

    /** Appends to the list; the elements that were there already stay as they are. */
    method UnmarshalVT(dAtA: bytes) returns (err: Option<Error>)
      requires |dAtA| < TWO_63
      modifies this
      ensures Decoded(Val(), err) == M.DecodeTopics(old(Val()), dAtA)
      ensures old(topics) <= topics && forall k :: |old(topics)| <= k < |topics| ==> fresh(topics[k])
    {
      hide Parse, After;
      var l, iNdEx := |dAtA|, 0;
      ParseStart(M.TopicsSchema, M.StoreTopics, Val(), dAtA);
      while iNdEx < l
        invariant iNdEx <= l
        invariant old(topics) <= topics && forall k :: |old(topics)| <= k < |topics| ==> fresh(topics[k])
        invariant Parse(M.TopicsSchema, M.StoreTopics, old(Val()), dAtA)
               == After(M.TopicsSchema, M.StoreTopics, Val(), iNdEx, dAtA[iNdEx..])
      {
        err, iNdEx := UnmarshalField(dAtA, iNdEx);
        if err.Some? { return; }
      }
      ParseEnd(M.TopicsSchema, M.StoreTopics, Val(), dAtA, iNdEx);
      return None;
    }
  }

  class NotifyRequest {
    var topics: Topics?
    var message: Message?
    var groupId: bytes
    var unknownFields: bytes

    ghost function Val(): M.NotifyRequest
      reads this, topics, message, if topics == null then [] else topics.topics
    {
      Proto(M.NotifyFields(if topics == null then None else Some(topics.Val()),
                           if message == null then None else Some(message.Val()),
                           groupId),
            unknownFields)
    }

    constructor ()
      ensures Val() == M.NEW_NOTIFY
    {
      topics, message, groupId, unknownFields := null, null, [], [];
    }

    static ghost function EncodingOf(m: NotifyRequest?): bytes
      reads m, if m == null then null else m.topics, if m == null then null else m.message
      reads if m == null || m.topics == null then [] else m.topics.topics
    {
      if m == null then [] else M.EncodeNotify(m.Val())
    }

    static method SizeVT(m: NotifyRequest?) returns (n: nat)
      ensures n == |EncodingOf(m)|
    {
      hide Varint.Encode, M.EncodeTopics, M.EncodeMessage;
      if m == null { return 0; }
      n := 0;
      if m.topics != null {
        var l := Topics.SizeVT(m.topics);
        var s := SizeOfVarint(l);
        n := n + 1 + l + s;
      }
      if m.message != null {
        var l := Message.SizeVT(m.message);
        var s := SizeOfVarint(l);
        n := n + 1 + l + s;
      }
      var c := SizeOfOptional(3, |m.groupId|, m.groupId);
      n := n + c + |m.unknownFields|;
    }

    static method MarshalToSizedBufferVT(m: NotifyRequest?, dAtA: array<byte>, end: nat) returns (n: nat)
      requires |EncodingOf(m)| <= end <= dAtA.Length
      modifies dAtA
      ensures var b := EncodingOf(m); n == |b| && Framed(dAtA[..], old(dAtA[..]), end - n, end, b)
    {
      if m == null { return 0; }
      hide Framed, Optional, TopicsField, MessageField, M.EncodeNotify;
      NotifyBytes(m);
      var i := PutFields(m.topics, m.message, dAtA, end, m.groupId, m.unknownFields,
                         TopicsField(m.topics), MessageField(m.message));
      n := end - i;
    }

    /** The fields of a request, last to first. */
    static method PutFields(topics: Topics?, message: Message?, dAtA: array<byte>, end: nat, groupId: bytes,
                            unknown: bytes,
                            ghost a: bytes, ghost b: bytes) returns (i: nat)
      requires a == TopicsField(topics) && b == MessageField(message)
      requires |a| + |b| + |Optional(3, groupId)| + |unknown| <= end <= dAtA.Length
      modifies dAtA
      ensures i == end - |a| - |b| - |Optional(3, groupId)| - |unknown|
      ensures Framed(dAtA[..], old(dAtA[..]), i, end, a + (b + (Optional(3, groupId) + unknown)))
    {
      hide Framed, Optional, TopicsField, MessageField;
      ghost var s0, c := dAtA[..], Optional(3, groupId) + unknown;
      i := PutTail(dAtA, end, groupId, unknown);
      ghost var i1, s1 := i, dAtA[..];
      i := PutMessage(message, dAtA, i, b);
      ghost var i2, s2 := i, dAtA[..];
      FramedChain(s2, s1, s0, i2, i1, end, b, c);
      i := PutTopics(topics, dAtA, i, a);
      FramedChain(dAtA[..], s2, s0, i, i2, end, a, b + c);
    }

    static ghost function TopicsField(t: Topics?): bytes
      reads t, if t == null then [] else t.topics
    {
      if t == null then [] else Tagged(1, M.EncodeTopics(t.Val()))
    }

    static ghost function MessageField(t: Message?): bytes
      reads t
    {
      if t == null then [] else Tagged(2, M.EncodeMessage(t.Val()))
    }

    static lemma {:induction false} NotifyBytes(m: NotifyRequest)
      ensures M.EncodeNotify(m.Val())
              == TopicsField(m.topics) + (MessageField(m.message) + (Optional(3, m.groupId) + m.unknownFields))
    {
      hide Tagged, Optional, M.EncodeTopics, M.EncodeMessage;
      var a, b, c := TopicsField(m.topics), MessageField(m.message), Optional(3, m.groupId);
      Seqs.ConcatAssoc(a + b, c, m.unknownFields);
      Seqs.ConcatAssoc(a, b, c + m.unknownFields);
    }

    static method PutTail(dAtA: array<byte>, end: nat, groupId: bytes, unknown: bytes) returns (i: nat)
      requires |Optional(3, groupId)| + |unknown| <= end <= dAtA.Length
      modifies dAtA
      ensures i == end - |Optional(3, groupId)| - |unknown|
      ensures Framed(dAtA[..], old(dAtA[..]), i, end, Optional(3, groupId) + unknown)
    {
      hide Framed, Optional;
      i := CopyBefore(dAtA, end, unknown);
      ghost var i1, s1 := i, dAtA[..];
      i := PutOptional(dAtA, i, 3, groupId);
      FramedChain(dAtA[..], s1, old(dAtA[..]), i, i1, end, Optional(3, groupId), unknown);
    }

    static method PutMessage(t: Message?, dAtA: array<byte>, end: nat, ghost b: bytes) returns (i: nat)
      requires b == MessageField(t) && |b| <= end <= dAtA.Length
      modifies dAtA
      ensures i == end - |b| && Framed(dAtA[..], old(dAtA[..]), i, end, b)
    {
      hide M.EncodeMessage;
      i := end;
      if t != null {
        var size := Message.MarshalToSizedBufferVT(t, dAtA, end);
        i := PutHeader(dAtA, old(dAtA[..]), end, 2, M.EncodeMessage(t.Val()), size);
      }
    }

    static method PutTopics(t: Topics?, dAtA: array<byte>, end: nat, ghost b: bytes) returns (i: nat)
      requires b == TopicsField(t) && |b| <= end <= dAtA.Length
      modifies dAtA
      ensures i == end - |b| && Framed(dAtA[..], old(dAtA[..]), i, end, b)
    {
      hide M.EncodeTopics;
      i := end;
      if t != null {
        var size := Topics.MarshalToSizedBufferVT(t, dAtA, end);
        i := PutHeader(dAtA, old(dAtA[..]), end, 1, M.EncodeTopics(t.Val()), size);
      }
    }

    static method MarshalVT(m: NotifyRequest?) returns (dAtA: array<byte>)
      ensures fresh(dAtA) && dAtA[..] == EncodingOf(m)
    {
      hide Framed, EncodingOf;
      var size := SizeVT(m);
      dAtA := new byte[size];
      ghost var empty := dAtA[..];
      var n := MarshalToSizedBufferVT(m, dAtA, size);
      FramedAll(dAtA[..], empty, size, EncodingOf(m));
    }

    method IntoTopics(p: bytes) returns (err: Option<Error>)
      requires |p| < TWO_63
      modifies this`topics, topics
      ensures old(topics) != null ==> topics == old(topics)
      ensures old(topics) == null ==> fresh(topics)
      ensures Outcome(Val(), Nested(err)) == Store(M.StoreNotify, old(Val()), Payload(1, p))
    {
      hide M.DecodeTopics;
      if topics == null { topics := new Topics(); }
      err := topics.UnmarshalVT(p);
    }

    method IntoMessage(p: bytes) returns (err: Option<Error>)
      requires |p| < TWO_63
      modifies this`message, message
      ensures old(message) != null ==> message == old(message)
      ensures old(message) == null ==> fresh(message)
      ensures Outcome(Val(), Nested(err)) == Store(M.StoreNotify, old(Val()), Payload(2, p))
    {
      hide M.DecodeMessage;
      if message == null { message := new Message(); }
      err := message.UnmarshalVT(p);
    }

    /** One turn of the loop below, from `preIndex`. */
    method UnmarshalField(dAtA: bytes, preIndex: nat) returns (err: Option<Error>, iNdEx: nat)
      requires preIndex < |dAtA| < TWO_63
      modifies this, topics, message
      ensures old(topics) != null ==> topics == old(topics)
      ensures old(message) != null ==> message == old(message)
      ensures old(topics) == null ==> topics == null || fresh(topics)
      ensures old(message) == null ==> message == null || fresh(message)
      ensures var o := After(M.ThreeSchema, M.StoreNotify, old(Val()), preIndex, dAtA[preIndex..]);
              if err.Some? then Observe(o) == Decoded(Val(), err)
              else preIndex < iNdEx <= |dAtA| && o == After(M.ThreeSchema, M.StoreNotify, Val(), iNdEx, dAtA[iNdEx..])
    {
      hide Parse, Store, ReadTag, DelimitedAt, RawAt, After, M.DecodeTopics, M.DecodeMessage;
      ghost var before := Val();
      AfterStep(M.ThreeSchema, M.StoreNotify, before, dAtA, preIndex);
      var fieldNum, wireType, postIndex;
      err, fieldNum, wireType, iNdEx := DecodeTag(dAtA, preIndex);
      if err.Some? { return; }
      if 1 <= fieldNum <= 3 {
        if wireType != 2 { return Some(WrongWireType(fieldNum, wireType)), iNdEx; }
        err, iNdEx, postIndex := DecodeLength(dAtA, preIndex, fieldNum, iNdEx);
        if err.Some? { return; }
        if fieldNum == 1 {
          err := IntoTopics(dAtA[iNdEx..postIndex]);
        } else if fieldNum == 2 {
          err := IntoMessage(dAtA[iNdEx..postIndex]);
        } else {
          groupId := dAtA[iNdEx..postIndex];
          StoredIs(M.StoreNotify, before, Payload(3, groupId), Val());
        }
        iNdEx := postIndex;
      } else {
        err, iNdEx := DecodeUnknown(dAtA, preIndex);
        if err.Some? { return; }
        unknownFields := unknownFields + dAtA[preIndex..iNdEx];
        StoredIs(M.StoreNotify, before, Raw(dAtA[preIndex..iNdEx]), Val());
      }
    }

    /** Parses into the embedded messages that are there, and allocates those that are not. */
    method UnmarshalVT(dAtA: bytes) returns (err: Option<Error>)
      requires |dAtA| < TWO_63
      modifies this, topics, message
      ensures Decoded(Val(), err) == M.DecodeNotify(old(Val()), dAtA)
      ensures old(topics) != null ==> topics == old(topics)
      ensures old(message) != null ==> message == old(message)
    {
      hide Parse, After;
      var l, iNdEx := |dAtA|, 0;
      ParseStart(M.ThreeSchema, M.StoreNotify, Val(), dAtA);
      while iNdEx < l
        invariant iNdEx <= l
        invariant topics == old(topics) || (old(topics) == null && fresh(topics))
        invariant message == old(message) || (old(message) == null && fresh(message))
        invariant Parse(M.ThreeSchema, M.StoreNotify, old(Val()), dAtA)
               == After(M.ThreeSchema, M.StoreNotify, Val(), iNdEx, dAtA[iNdEx..])
      {
        err, iNdEx := UnmarshalField(dAtA, iNdEx);
        if err.Some? { return; }
      }
      ParseEnd(M.ThreeSchema, M.StoreNotify, Val(), dAtA, iNdEx);
      return None;
    }
  }
}
