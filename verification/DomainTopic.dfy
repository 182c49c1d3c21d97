/** Topics: a space key in base 58, a slash and a topic name, in one string. */
module DomainTopic {
  import opened GoInts
  import opened Wrappers
  import Base58
  import Seqs

  type Topic = bytes

  const SLASH: byte := '/' as int

  function NewTopic(spaceKey: bytes, topic: bytes): Topic {
    Base58.Encode(spaceKey) + [SLASH] + topic
  }

  /** A topic in full: the key 'a' is 2g in base 58, and its topic x is 2g/x. */
  lemma {:induction false} NewTopicExample()
    ensures NewTopic(['a' as int], ['x' as int]) == ['2' as int, 'g' as int, '/' as int, 'x' as int]
  {
    Base58.EncodeExample();
  }

  /** The index of the first slash. */
  function IndexSlash(t: bytes): (idx: Option<nat>)
    ensures idx.Some? ==> idx.value < |t| && t[idx.value] == SLASH && SLASH !in t[..idx.value]
    ensures idx.None? ==> SLASH !in t
  {
    if t == [] then None
    else if t[0] == SLASH then Some(0)
    else
      match IndexSlash(t[1..])
      case None => None
      case Some(i) => assert t[..i + 1] == [t[0]] + t[1..][..i]; Some(i + 1)
  }

  function SpaceKeyBase58(t: Topic): bytes {
    var idx := IndexSlash(t);
    if idx.Some? then t[..idx.value] else []
  }

  function SpaceKeyRaw(t: Topic): Option<bytes> {
    Base58.Decode(SpaceKeyBase58(t))
  }

  function TopicName(t: Topic): bytes {
    var idx := IndexSlash(t);
    if idx.Some? && idx.value + 1 < |t| then t[idx.value + 1..] else []
  }

  /** A string without a slash has neither part. */
  lemma {:induction false} NoSlash(t: Topic)
    requires SLASH !in t
    ensures SpaceKeyBase58(t) == [] && TopicName(t) == [] && SpaceKeyRaw(t) == None
  {
  }

  lemma {:induction false} FirstSlash(k: bytes, topic: bytes)
    requires SLASH !in k
    ensures IndexSlash(k + [SLASH] + topic) == Some(|k|)
  {
    var t := k + [SLASH] + topic;
    assert t[|k|] == SLASH;
  }

  /** Both parts come back, whatever slashes the topic name holds; the raw space key does exactly if it
      is not empty. */
  lemma {:induction false} TopicParts(spaceKey: bytes, topic: bytes)
    ensures var t := NewTopic(spaceKey, topic);
            && SpaceKeyBase58(t) == Base58.Encode(spaceKey)
            && TopicName(t) == topic
            && (SpaceKeyRaw(t) == Some(spaceKey) <==> spaceKey != [])
            && (SpaceKeyRaw(t) == None <==> spaceKey == [])
  {
    var k := Base58.Encode(spaceKey);
    FirstSlash(k, topic);
    Seqs.DropFirst(k + [SLASH], topic);
    Seqs.ConcatAssoc(k, [SLASH], topic);
    Seqs.DropFirst(k, [SLASH] + topic);
    Base58.DecodeEncode(spaceKey);
  }

  /** Different pairs are different topics. */
  lemma {:induction false} NewTopicInjective(k1: bytes, t1: bytes, k2: bytes, t2: bytes)
    ensures NewTopic(k1, t1) == NewTopic(k2, t2) <==> k1 == k2 && t1 == t2
  {
    TopicParts(k1, t1);
    TopicParts(k2, t2);
  }
}
