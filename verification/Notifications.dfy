/**
 What a notification request comes to, told from the request, the key parser, the signature check and the
 space lookup alone: when it is queued, with what content, when nothing is, and which error it fails with.
 */
module Notifications {
  import opened GoInts
  import opened Wrappers
  import opened DomainTopic
  import opened AccountRepo
  import opened Crypto
  import opened Push
  import opened SubscriptionRuns
  import M = Messages
  import R = RoundTrip
  import Base58

  /** A pair the request notifies: its space is among the returned ones and, silently, its topic is named
      after the sender. */
  predicate Notifies(c: Crypto, who: PubKey, req: M.NotifyRequest, silent: bool, spaces: seq<bytes>, p: Pair)
    requires HasTopics(req)
  {
    && p in Pairs(ListedTopics(req))
    && Base58.Encode(p.0) in spaces
    && (silent ==> p.1 == c.account(who))
  }

  lemma {:induction false} AdmittedPair(p: Pair, spaces: seq<bytes>, silent: bool, account: AccountId)
    ensures Admitted(NewTopic(p.0, p.1), spaces, silent, account)
            <==> Base58.Encode(p.0) in spaces && (silent ==> p.1 == account)
  {
    TopicParts(p.0, p.1);
  }

  /** The space keys of some pairs in base 58. */
  function Keys(ps: seq<Pair>): seq<bytes> {
    seq(|ps|, i requires 0 <= i < |ps| => Base58.Encode(ps[i].0))
  }

  /** What the lookup answers for the spaces of the request, each asked for once. */
  function Lookup(req: M.NotifyRequest, spaceRepo: SpaceRepo): Result<seq<bytes>, PushError>
    requires HasTopics(req)
  {
    spaceRepo(Dedup(Keys(Pairs(ListedTopics(req)))))
  }

  /** Every check before the lookup passes: the caller is known, there is a list, every listed topic is signed,
      and the message is missing only if the notification is silent, and otherwise signed by the caller. */
  predicate Checked(c: Crypto, who: Option<PubKey>, req: M.NotifyRequest, silent: bool)
    requires R.NoNil(req)
  {
    && who.Some? && req.fields.topics.Some?
    && (forall i :: 0 <= i < |ListedTopics(req)| ==> Signed(c, ListedTopics(req)[i]))
    && match req.fields.message
       case None => silent
       case Some(m) => c.verify(who.value, m.fields.payload, m.fields.signature) == Success(true)
  }

  /** The first check that does not pass is refused with `e`. */
  predicate FirstMiss(c: Crypto, who: Option<PubKey>, req: M.NotifyRequest, silent: bool, spaceRepo: SpaceRepo,
                      e: PushError)
    requires R.NoNil(req)
  {
    if who.None? then e == NoIdentity
    else if req.fields.topics.None? then false
    else
      var ts := ListedTopics(req);
      if exists i :: 0 <= i < |ts| && !Signed(c, ts[i]) then
        exists i :: 0 <= i < |ts| && (forall j :: 0 <= j < i ==> Signed(c, ts[j])) && Refused(c, ts[i], e)
      else if Checked(c, who, req, silent) then Lookup(req, spaceRepo) == Failure(e)
      else
        match req.fields.message
        case None => e == MessageRequired
        case Some(m) =>
          match c.verify(who.value, m.fields.payload, m.fields.signature)
          case Failure(bad) => e == bad
          case Success(_) => e == InvalidSignature
  }

  lemma {:induction false} KeysOfTopics(ps: seq<Pair>)
    ensures SpaceKeys(ToTopics(ps)) == Keys(ps)
  {
    forall i | 0 <= i < |ps|
      ensures SpaceKeys(ToTopics(ps))[i] == Keys(ps)[i]
    {
      TopicParts(ps[i].0, ps[i].1);
    }
  }

  lemma {:induction false} AdmittedPairs(ps: seq<Pair>, spaces: seq<bytes>, silent: bool, account: AccountId)
    ensures Filter(ToTopics(ps), spaces, silent, account) != []
            <==> exists p :: p in ps && Base58.Encode(p.0) in spaces && (silent ==> p.1 == account)
  {
    hide Filter, Admitted, NewTopic;
    var ts := ToTopics(ps);
    var admitted := Filter(ts, spaces, silent, account);
    if admitted != [] {
      var t := admitted[0];
      FilterCounts(ts, spaces, silent, account, t);
      assert t in multiset(admitted) && t in multiset(ts);
      var i :| 0 <= i < |ts| && ts[i] == t;
      AdmittedPair(ps[i], spaces, silent, account);
      assert ps[i] in ps;
    }
    forall p | p in ps && Base58.Encode(p.0) in spaces && (silent ==> p.1 == account)
      ensures admitted != []
    {
      AdmittedPair(p, spaces, silent, account);
      MembersAgree(p, ps);
      FilterCounts(ts, spaces, silent, account, NewTopic(p.0, p.1));
      assert NewTopic(p.0, p.1) in multiset(admitted);
    }
  }

  lemma {:induction false} NotifiesSomething(c: Crypto, who: PubKey, req: M.NotifyRequest, silent: bool,
                                             spaces: seq<bytes>)
    requires HasTopics(req) && ConvertTopics(c, ListedTopics(req)).Success?
    ensures Filter(ConvertTopics(c, ListedTopics(req)).value, spaces, silent, c.account(who)) != []
            <==> exists p :: Notifies(c, who, req, silent, spaces, p)
    ensures SpaceKeys(ConvertTopics(c, ListedTopics(req)).value) == Keys(Pairs(ListedTopics(req)))
  {
    hide Filter, NewTopic, ConvertTopics;
    var ps := Pairs(ListedTopics(req));
    ConvertedArePairs(c, ListedTopics(req));
    KeysOfTopics(ps);
    AdmittedPairs(ps, spaces, silent, c.account(who));
    forall p
      ensures Notifies(c, who, req, silent, spaces, p)
              <==> p in ps && Base58.Encode(p.0) in spaces && (silent ==> p.1 == c.account(who))
    {
    }
  }

  /** A notification is queued exactly if every check passes and some listed pair is notified, and nothing is
      exactly if every check passes and none is. */
  lemma {:induction false} QueuedExactly(c: Crypto, who: Option<PubKey>, req: M.NotifyRequest, silent: bool,
                                         spaceRepo: SpaceRepo)
    requires R.NoNil(req)
    ensures var outcome := Notification(c, who, req, silent, spaceRepo);
            && (outcome.Queues?
                <==> && Checked(c, who, req, silent) && Lookup(req, spaceRepo).Success?
                     && exists p :: Notifies(c, who.value, req, silent, Lookup(req, spaceRepo).value, p))
            && (outcome.QueuesNothing?
                <==> && Checked(c, who, req, silent) && Lookup(req, spaceRepo).Success?
                     && !exists p :: Notifies(c, who.value, req, silent, Lookup(req, spaceRepo).value, p))
  {
    hide Filter, NewTopic, ConvertTopics, Notifies, Dedup, Signed, SpaceKeys, Keys;
    if who.Some? && req.fields.topics.Some? {
      AcceptedAreSigned(c, ListedTopics(req));
      if ConvertTopics(c, ListedTopics(req)).Success? {
        NotifiesSomething(c, who.value, req, silent, []);
        if Lookup(req, spaceRepo).Success? {
          NotifiesSomething(c, who.value, req, silent, Lookup(req, spaceRepo).value);
        }
      }
    }
  }

  /** A request fails exactly with the error of the first check that does not pass, and panics exactly if the
      caller is known and there is no list. */
  lemma {:induction false} FailsExactly(c: Crypto, who: Option<PubKey>, req: M.NotifyRequest, silent: bool,
                                        spaceRepo: SpaceRepo, e: PushError)
    requires R.NoNil(req)
    ensures Notification(c, who, req, silent, spaceRepo) == Fails(e) <==> FirstMiss(c, who, req, silent, spaceRepo, e)
    ensures Notification(c, who, req, silent, spaceRepo).Panics? <==> who.Some? && req.fields.topics.None?
  {
    hide Filter, NewTopic, ConvertTopics, Dedup, Signed, Refused, SpaceKeys, Keys;
    if who.Some? && req.fields.topics.Some? {
      var ts := ListedTopics(req);
      AcceptedAreSigned(c, ts);
      ConvertTopicsRefuses(c, ts, e);
      if ConvertTopics(c, ts).Success? { NotifiesSomething(c, who.value, req, silent, []); }
    }
  }

  lemma {:induction false} AcceptedAreSigned(c: Crypto, ts: seq<M.Topic>)
    ensures ConvertTopics(c, ts).Success? <==> forall i :: 0 <= i < |ts| ==> Signed(c, ts[i])
  {
    hide ConvertTopics;
    ConvertTopicsVerified(c, ts);
  }

  /** What a queued message holds: the request's own content, the sender to pass over unless silent, and each
      notified topic as often as it was listed, and no other. */
  lemma {:induction false} QueuedContent(c: Crypto, who: PubKey, req: M.NotifyRequest, silent: bool,
                                         spaceRepo: SpaceRepo)
    requires R.NoNil(req) && Notification(c, Some(who), req, silent, spaceRepo).Queues?
    ensures var msg := Notification(c, Some(who), req, silent, spaceRepo).msg;
            && msg.groupId == req.fields.groupId
            && msg.silent == silent
            && msg.ignoreAccountId == (if silent then [] else c.account(who))
            && (req.fields.message.Some? ==>
                  && msg.keyId == req.fields.message.value.fields.keyId
                  && msg.payload == req.fields.message.value.fields.payload
                  && msg.signature == req.fields.message.value.fields.signature)
            && (req.fields.message.None? ==> msg.keyId == msg.payload == msg.signature == [])
  {
  }

  lemma {:induction false} QueuedTopics(c: Crypto, who: PubKey, req: M.NotifyRequest, silent: bool,
                                        spaceRepo: SpaceRepo, p: Pair)
    requires R.NoNil(req) && Notification(c, Some(who), req, silent, spaceRepo).Queues?
    ensures Lookup(req, spaceRepo).Success?
    ensures var msg := Notification(c, Some(who), req, silent, spaceRepo).msg;
            multiset(msg.topics)[NewTopic(p.0, p.1)]
            == if Notifies(c, who, req, silent, Lookup(req, spaceRepo).value, p)
               then multiset(ToTopics(Pairs(ListedTopics(req))))[NewTopic(p.0, p.1)] else 0
  {
    hide Filter, NewTopic, ConvertTopics, Dedup;
    var ps := Pairs(ListedTopics(req));
    ConvertedArePairs(c, ListedTopics(req));
    KeysOfTopics(ps);
    var spaces := Lookup(req, spaceRepo).value;
    FilterCounts(ToTopics(ps), spaces, silent, c.account(who), NewTopic(p.0, p.1));
    AdmittedPair(p, spaces, silent, c.account(who));
    MembersAgree(p, ps);
  }
}
