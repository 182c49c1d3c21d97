/**
 Keys and signature checks, as arbitrary pure functions, and what the push service makes of a
 signed topic.
 */
module Crypto {
  import opened GoInts
  import opened Wrappers
  import opened DomainTopic
  import M = Messages
  import Seqs

  datatype PubKey = PubKey(raw: bytes)

  datatype PushError =
    | KeyError(code: nat)
    | VerifyError(code: nat)
    | InvalidSignature
    | InvalidTopicSignature
    | MessageRequired
    | NoIdentity
    | StorageError
    | SpacesError(code: nat)
    | BadStoredTopic

  datatype Crypto = Crypto(
    unmarshal: bytes -> Result<PubKey, PushError>,
    verify: (PubKey, bytes, bytes) -> Result<bool, PushError>,
    account: PubKey -> bytes)
  {
    /** A parsed Ed25519 public key is 32 bytes long (section 5.1.5 of RFC 8032). */
    ghost predicate KeysHaveLength() {
      forall raw :: unmarshal(raw).Success? ==> |raw| == 32
    }
  }

  /** What is checked of one topic, without any memory of other topics. */
  function CheckTopic(c: Crypto, t: M.Topic): Result<Topic, PushError> {
    match c.unmarshal(t.fields.spaceKey)
    case Failure(e) => Failure(e)
    case Success(key) =>
      match c.verify(key, t.fields.topic, t.fields.signature)
      case Failure(e) => Failure(e)
      case Success(valid) =>
        if valid then Success(NewTopic(t.fields.spaceKey, t.fields.topic)) else Failure(InvalidTopicSignature)
  }

  /** All the topics of a list, or the error of the first one that fails. */
  function ConvertTopics(c: Crypto, ts: seq<M.Topic>): (r: Result<seq<Topic>, PushError>)
    ensures r.Success? ==> |r.value| == |ts|
  {
    if ts == [] then Success([])
    else
      match CheckTopic(c, ts[0])
      case Failure(e) => Failure(e)
      case Success(t) =>
        match ConvertTopics(c, ts[1..])
        case Failure(e) => Failure(e)
        case Success(rest) => Success([t] + rest)
  }

  /** Verification of a list succeeds exactly if every topic passes on its own, with the topics in
      place; otherwise it reports the first failure. */
  lemma {:induction false} ConvertTopicsPointwise(c: Crypto, ts: seq<M.Topic>)
    ensures ConvertTopics(c, ts).Success? <==> forall i :: 0 <= i < |ts| ==> CheckTopic(c, ts[i]).Success?
    ensures ConvertTopics(c, ts).Success? ==>
              forall i :: 0 <= i < |ts| ==> CheckTopic(c, ts[i]) == Success(ConvertTopics(c, ts).value[i])
    ensures ConvertTopics(c, ts).Failure? ==>
              exists i :: 0 <= i < |ts| && CheckTopic(c, ts[i]) == Failure(ConvertTopics(c, ts).error)
                          && forall j :: 0 <= j < i ==> CheckTopic(c, ts[j]).Success?
  {
    hide CheckTopic;
    if ts != [] {
      var head, rest := CheckTopic(c, ts[0]), ts[1..];
      ConvertTopicsPointwise(c, rest);
      assert forall i :: 1 <= i < |ts| ==> ts[i] == rest[i - 1];
      if head.Success? && ConvertTopics(c, rest).Failure? {
        var i :| 0 <= i < |rest| && CheckTopic(c, rest[i]) == Failure(ConvertTopics(c, rest).error)
                 && forall j :: 0 <= j < i ==> CheckTopic(c, rest[j]).Success?;
        assert ts[i + 1] == rest[i];
      } else if head.Success? {
        var r := ConvertTopics(c, ts).value;
        assert forall i :: 1 <= i < |ts| ==> r[i] == ConvertTopics(c, rest).value[i - 1];
      }
    }
  }

  /** The key of the topic parses and its signature over the topic's name is valid. */
  predicate Signed(c: Crypto, t: M.Topic) {
    var key := c.unmarshal(t.fields.spaceKey);
    key.Success? && c.verify(key.value, t.fields.topic, t.fields.signature) == Success(true)
  }

  /** What a topic that is not signed is refused with. */
  predicate Refused(c: Crypto, t: M.Topic, e: PushError) {
    match c.unmarshal(t.fields.spaceKey)
    case Failure(bad) => e == bad
    case Success(key) =>
      match c.verify(key, t.fields.topic, t.fields.signature)
      case Failure(bad) => e == bad
      case Success(valid) => !valid && e == InvalidTopicSignature
  }

  /** In terms of the key parser and the signature check alone: a list is accepted exactly if every topic's key
      parses and the check of its signature answers true; otherwise the error is that of the first topic for
      which this is not so, the parser's, the check's, or an invalid signature when the check answers false. */
  lemma {:induction false} ConvertTopicsVerified(c: Crypto, ts: seq<M.Topic>)
    ensures ConvertTopics(c, ts).Success? <==>
              forall i :: 0 <= i < |ts| ==>
                && c.unmarshal(ts[i].fields.spaceKey).Success?
                && c.verify(c.unmarshal(ts[i].fields.spaceKey).value, ts[i].fields.topic, ts[i].fields.signature)
                   == Success(true)
    ensures ConvertTopics(c, ts).Success? ==>
              forall i :: 0 <= i < |ts| ==>
                ConvertTopics(c, ts).value[i] == NewTopic(ts[i].fields.spaceKey, ts[i].fields.topic)
    ensures ConvertTopics(c, ts).Failure? ==>
              exists i :: 0 <= i < |ts|
                && (forall j :: 0 <= j < i ==> Signed(c, ts[j]))
                && match c.unmarshal(ts[i].fields.spaceKey)
                   case Failure(bad) => ConvertTopics(c, ts).error == bad
                   case Success(key) =>
                     match c.verify(key, ts[i].fields.topic, ts[i].fields.signature)
                     case Failure(bad) => ConvertTopics(c, ts).error == bad
                     case Success(valid) => !valid && ConvertTopics(c, ts).error == InvalidTopicSignature
  {
    ConvertTopicsPointwise(c, ts);
    forall i | 0 <= i < |ts|
      ensures CheckTopic(c, ts[i]).Success? <==> Signed(c, ts[i])
    {
    }
    if ConvertTopics(c, ts).Failure? {
      var i :| 0 <= i < |ts| && CheckTopic(c, ts[i]) == Failure(ConvertTopics(c, ts).error)
               && forall j :: 0 <= j < i ==> CheckTopic(c, ts[j]).Success?;
      assert forall j :: 0 <= j < i ==> Signed(c, ts[j]);
      assert Refused(c, ts[i], ConvertTopics(c, ts).error);
    }
  }

  /** The error of a list is exactly the refusal of its first topic that is not signed. */
  lemma {:induction false} ConvertTopicsRefuses(c: Crypto, ts: seq<M.Topic>, e: PushError)
    ensures ConvertTopics(c, ts) == Failure(e)
            <==> exists i :: 0 <= i < |ts| && (forall j :: 0 <= j < i ==> Signed(c, ts[j])) && Refused(c, ts[i], e)
  {
    ConvertTopicsVerified(c, ts);
    forall i | 0 <= i < |ts|
      ensures Signed(c, ts[i]) ==> forall bad :: !Refused(c, ts[i], bad)
    {
    }
    forall i | 0 <= i < |ts| && (forall j :: 0 <= j < i ==> Signed(c, ts[j])) && Refused(c, ts[i], e)
      ensures ConvertTopics(c, ts) == Failure(e)
    {
      assert !Signed(c, ts[i]);
      var k :| 0 <= k < |ts| && (forall j :: 0 <= j < k ==> Signed(c, ts[j]))
               && Refused(c, ts[k], ConvertTopics(c, ts).error);
      assert k == i;
    }
  }

  lemma {:induction false} ConvertTopicsAppend(c: Crypto, ts: seq<M.Topic>, t: M.Topic)
    requires ConvertTopics(c, ts).Success?
    ensures ConvertTopics(c, ts + [t])
            == match CheckTopic(c, t)
               case Failure(e) => Failure(e)
               case Success(d) => Success(ConvertTopics(c, ts).value + [d])
    decreases |ts|
  {
    if ts == [] {
      assert ts + [t] == [t] && [t][1..] == [];
      if CheckTopic(c, t).Success? { Seqs.RightUnit([CheckTopic(c, t).value]); }
    } else {
      assert (ts + [t])[0] == ts[0] && (ts + [t])[1..] == ts[1..] + [t];
      ConvertTopicsAppend(c, ts[1..], t);
      if CheckTopic(c, t).Success? {
        Seqs.ConcatAssoc([CheckTopic(c, ts[0]).value], ConvertTopics(c, ts[1..]).value, [CheckTopic(c, t).value]);
      }
    }
  }

  /** A failure is final, whatever follows. */
  lemma {:induction false} ConvertTopicsFails(c: Crypto, ts: seq<M.Topic>, more: seq<M.Topic>)
    requires ConvertTopics(c, ts).Failure?
    ensures ConvertTopics(c, ts + more) == ConvertTopics(c, ts)
    decreases |ts|
  {
    assert (ts + more)[0] == ts[0] && (ts + more)[1..] == ts[1..] + more;
    if CheckTopic(c, ts[0]).Success? {
      ConvertTopicsFails(c, ts[1..], more);
    }
  }
}
