/**
 From requests to devices: who receives a notification, in terms of what accounts subscribed to.
 */
module EndToEnd {
  import opened GoInts
  import opened Wrappers
  import opened DomainTopic
  import opened AccountRepo
  import opened TokenRepo
  import opened Crypto
  import opened Fcm
  import opened Push
  import opened Notifications
  import opened Sender
  import opened SubscriptionRuns
  import opened Interleavings
  import M = Messages
  import Canonical
  import R = RoundTrip
  import Wire

  /** Whatever bytes a request was decoded from, its topic list holds no nil elements: Notify panics exactly
      if the caller is known and the list is missing altogether. */
  lemma {:induction false} DecodedRequestHasTopics(c: Crypto, who: Option<PubKey>, silent: bool, spaceRepo: SpaceRepo,
                                                   x: bytes)
    requires M.DecodeNotify(M.NEW_NOTIFY, x).err == None
    ensures var req := M.DecodeNotify(M.NEW_NOTIFY, x).msg;
            && R.NoNil(req)
            && (Notification(c, who, req, silent, spaceRepo).Panics? <==> who.Some? && req.fields.topics.None?)
  {
    hide M.DecodeNotify;
    Canonical.NothingUnrecognised(M.ThreeSchema);
    Canonical.NotifyStaysWf(M.NEW_NOTIFY, x);
  }

  /** The empty request does. */
  lemma {:induction false} EmptyRequestPanics(c: Crypto, who: PubKey, silent: bool, spaceRepo: SpaceRepo)
    ensures M.DecodeNotify(M.NEW_NOTIFY, []) == Wire.Decoded(M.NEW_NOTIFY, None)
    ensures Notification(c, Some(who), M.NEW_NOTIFY, silent, spaceRepo) == Panics
  {
  }

  /** A notification that is not silent reaches no device of its sender; a silent one reaches only devices
      of accounts subscribed to a topic named after the sender. */
  lemma {:induction false} RecipientsOfNotification(c: Crypto, who: PubKey, req: M.NotifyRequest, silent: bool,
                                                    spaceRepo: SpaceRepo, accounts: Accounts,
                                                    devices: Devices, served: set<Platform>, id: TokenId)
    requires R.NoNil(req) && Notification(c, Some(who), req, silent, spaceRepo).Queues?
    requires id in Recipients(accounts, devices, served, Notification(c, Some(who), req, silent, spaceRepo).msg)
    ensures !silent ==> devices[id].accountId != c.account(who)
    ensures silent ==> exists t :: t in TopicsIn(accounts, devices[id].accountId) && TopicName(t) == c.account(who)
  {
    var msg := Notification(c, Some(who), req, silent, spaceRepo).msg;
    if silent {
      var ts := ConvertTopics(c, ListedTopics(req)).value;
      var spaces := spaceRepo(Dedup(SpaceKeys(ts))).value;
      var t :| t in TopicsIn(accounts, devices[id].accountId) && t in msg.topics;
      FilterCounts(ts, spaces, silent, c.account(who), t);
    }
  }

  /** However the delivery of a notification ends, every token its calls hold is that of a valid device, handed on
      once and to the provider of its platform, with the content of the request. Unless the notification is
      silent, it is no device of the sender; if it is, its account holds a topic named after the sender. The
      premises on the calls are what SendMessage promises of those it makes, with an error or not. */
  lemma {:induction false} CallsOfNotification(c: Crypto, who: PubKey, req: M.NotifyRequest, silent: bool,
                                               spaceRepo: SpaceRepo, accounts: Accounts, devices: Devices,
                                               own: map<Platform, Platform>, sealed: bool, calls: seq<Call>,
                                               i: nat, id: TokenId)
    requires R.NoNil(req) && Notification(c, Some(who), req, silent, spaceRepo).Queues?
    requires var msg := Notification(c, Some(who), req, silent, spaceRepo).msg;
             && multiset(TokensOf(calls)) <= multiset(Recipients(accounts, devices, own.Keys, msg))
             && forall call :: call in calls ==>
                  Carries(call, own, BodyOf(msg, sealed)) && RightPlatform(call, own, devices)
    requires i < |calls| && id in calls[i].tokens
    ensures id in devices && devices[id].status == Valid && devices[id].platform in own
    ensures calls[i].platform == own[devices[id].platform]
    ensures multiset(TokensOf(calls))[id] == 1
    ensures !silent ==> devices[id].accountId != c.account(who)
    ensures silent ==> exists t :: t in TopicsIn(accounts, devices[id].accountId) && TopicName(t) == c.account(who)
    ensures CarriesRequest(calls[i].body, req, silent, sealed)
  {
    hide Notification, Recipients, DataOf;
    var msg := Notification(c, Some(who), req, silent, spaceRepo).msg;
    TokenOfCall(calls, i, id);
    assert id in multiset(TokensOf(calls));
    assert id in Recipients(accounts, devices, own.Keys, msg);
    RecipientIsServed(accounts, devices, own.Keys, msg, id);
    RecipientsOfNotification(c, who, req, silent, spaceRepo, accounts, devices, own.Keys, id);
    assert calls[i] in calls;
    DataKeys(msg, sealed);
    QueuedContent(c, who, req, silent, spaceRepo);
  }

  lemma {:induction false} RecipientIsServed(accounts: Accounts, devices: Devices, served: set<Platform>,
                                             msg: QueueMessage, id: TokenId)
    requires id in Recipients(accounts, devices, served, msg)
    ensures id in devices && devices[id].status == Valid && devices[id].platform in served
  {
  }

  /** The data of a call are those of the request. */
  predicate CarriesRequest(body: Body, req: M.NotifyRequest, silent: bool, sealed: bool) {
    && body.silent == silent
    && "x-any-type" in body.data && body.data["x-any-type"] == Word(if silent then "silent" else "normal")
    && "x-any-group-id" in body.data && body.data["x-any-group-id"] == Plain(req.fields.groupId)
    && (sealed && req.fields.message.Some? ==>
          var m := req.fields.message.value.fields;
          && "x-any-payload" in body.data && body.data["x-any-payload"] == Base64(m.payload)
          && "x-any-signature" in body.data && body.data["x-any-signature"] == Base64(m.signature)
          && "x-any-key-id" in body.data && body.data["x-any-key-id"] == Plain(m.keyId))
  }

  /** An account that holds the topics of some pairs meets the queued topics exactly if it holds a notified
      pair. */
  lemma {:induction false} HoldersMeetFilter(c: Crypto, ps: seq<Pair>, who: PubKey, req: M.NotifyRequest, silent: bool,
                                             spaces: seq<bytes>)
    requires HasTopics(req) && ConvertTopics(c, ListedTopics(req)).Success?
    ensures Meets(ToTopics(ps), Filter(ConvertTopics(c, ListedTopics(req)).value, spaces, silent, c.account(who)))
            <==> exists p :: p in ps && Notifies(c, who, req, silent, spaces, p)
  {
    hide Filter, Admitted, NewTopic;
    var qs, account := Pairs(ListedTopics(req)), c.account(who);
    var ts, held := ToTopics(qs), ToTopics(ps);
    ConvertedArePairs(c, ListedTopics(req));
    if Meets(held, Filter(ts, spaces, silent, account)) {
      var t :| t in held && t in Filter(ts, spaces, silent, account);
      FilterCounts(ts, spaces, silent, account, t);
      var i :| 0 <= i < |ps| && held[i] == t;
      MembersAgree(ps[i], qs);
      AdmittedPair(ps[i], spaces, silent, account);
      assert ps[i] in ps && Notifies(c, who, req, silent, spaces, ps[i]);
    }
    if exists p :: p in ps && Notifies(c, who, req, silent, spaces, p) {
      var p :| p in ps && Notifies(c, who, req, silent, spaces, p);
      var t := NewTopic(p.0, p.1);
      MembersAgree(p, ps);
      MembersAgree(p, qs);
      AdmittedPair(p, spaces, silent, account);
      FilterCounts(ts, spaces, silent, account, t);
      assert t in Filter(ts, spaces, silent, account);
    }
  }

  /** A device receives a notification exactly if it is valid, on a served platform, not its sender's unless
      the notification is silent, and its account's own requests left it subscribed to a notified pair. */
  lemma {:induction false} NotificationReachesSubscribers(c: Crypto, rs: seq<Request>, who: PubKey,
                                                          req: M.NotifyRequest,
                                                          silent: bool, spaceRepo: SpaceRepo, devices: Devices,
                                                          served: set<Platform>, id: TokenId)
    requires R.NoNil(req) && Notification(c, Some(who), req, silent, spaceRepo).Queues?
    ensures var msg := Notification(c, Some(who), req, silent, spaceRepo).msg;
            var spaces := spaceRepo(Dedup(SpaceKeys(ConvertTopics(c, ListedTopics(req)).value))).value;
            id in Recipients(Run(c, rs), devices, served, msg)
            <==>
            && id in devices && devices[id].status == Valid && devices[id].platform in served
            && devices[id].accountId != (if silent then [] else c.account(who))
            && exists p :: p in Ledger(c, rs, devices[id].accountId) && Notifies(c, who, req, silent, spaces, p)
  {
    hide Run, Ledger, Filter, Notifies;
    var spaces := spaceRepo(Dedup(SpaceKeys(ConvertTopics(c, ListedTopics(req)).value))).value;
    if id in devices {
      RunIsLedger(c, rs, devices[id].accountId);
      HoldersMeetFilter(c, Ledger(c, rs, devices[id].accountId), who, req, silent, spaces);
    }
  }

  /** The same after a run whose steps interleave, if nobody else writes the list of the device's account
      between the read and the write of one of its unsubscriptions. */
  lemma {:induction false} NotificationReachesInterleaved(c: Crypto, es: seq<Event>, who: PubKey, req: M.NotifyRequest,
                                                          silent: bool, spaceRepo: SpaceRepo, devices: Devices,
                                                          served: set<Platform>, id: TokenId)
    requires R.NoNil(req) && Notification(c, Some(who), req, silent, spaceRepo).Queues?
    requires id in devices ==> Undisturbed(c, es, devices[id].accountId)
    ensures var msg := Notification(c, Some(who), req, silent, spaceRepo).msg;
            var spaces := spaceRepo(Dedup(SpaceKeys(ConvertTopics(c, ListedTopics(req)).value))).value;
            id in Recipients(Execute(c, es).coll, devices, served, msg)
            <==>
            && id in devices && devices[id].status == Valid && devices[id].platform in served
            && devices[id].accountId != (if silent then [] else c.account(who))
            && exists p :: p in Ledger(c, Serialised(c, es), devices[id].accountId)
                           && Notifies(c, who, req, silent, spaces, p)
  {
    hide Execute, Serialised, Undisturbed, Ledger, Filter, Notifies;
    var spaces := spaceRepo(Dedup(SpaceKeys(ConvertTopics(c, ListedTopics(req)).value))).value;
    if id in devices {
      var account := devices[id].accountId;
      UndisturbedHoldsLedger(c, es, account);
      HoldersMeetFilter(c, Ledger(c, Serialised(c, es), account), who, req, silent, spaces);
    }
  }
}
