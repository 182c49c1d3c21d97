/**
 The push service: topic verification with a key cache, notification with its in-place filter, and
 the subscription handlers.
 */
module Push {
  import opened GoInts
  import opened Wrappers
  import opened DomainTopic
  import opened AccountRepo
  import opened Crypto
  import M = Messages
  import R = RoundTrip
  import Seqs

  // ----- The queue -----

  datatype QueueMessage = QueueMessage(
    ignoreAccountId: AccountId,
    keyId: bytes,
    payload: bytes,
    signature: bytes,
    topics: seq<Topic>,
    groupId: bytes,
    silent: bool)

  class Queue {
    /** Everything added so far. */
    var msgs: seq<QueueMessage>

    constructor ()
      ensures msgs == []
    {
      msgs := [];
    }

    method Add(msg: QueueMessage, up: bool) returns (ok: bool)
      modifies this
      ensures ok == up && msgs == if up then old(msgs) + [msg] else old(msgs)
    {
      if up { msgs := msgs + [msg]; }
      ok := up;
    }
  }

  // ----- What a notification queues -----

  /** The elements of `s` without repetitions, in order of first occurrence. */
  function Dedup(s: seq<bytes>): (d: seq<bytes>)
    ensures NoDuplicates(d) && forall x :: x in d <==> x in s
  {
    if s == [] then []
    else
      var d, last := Dedup(s[..|s| - 1]), s[|s| - 1];
      assert forall x :: x in s <==> x in s[..|s| - 1] || x == last;
      if last in d then d else d + [last]
  }

  /** The order is that of first occurrence: of two elements, the one that stands first occurs in `s` before the
      other does. */
  lemma {:induction false} DedupOrder(s: seq<bytes>, i: nat, j: nat)
    requires i < j < |Dedup(s)|
    ensures exists k :: 0 <= k < |s| && s[k] == Dedup(s)[i] && Dedup(s)[j] !in s[..k + 1]
  {
    var rest, d := s[..|s| - 1], Dedup(s[..|s| - 1]);
    if j < |d| {
      DedupOrder(rest, i, j);
      var k :| 0 <= k < |rest| && rest[k] == d[i] && d[j] !in rest[..k + 1];
      assert s[k] == rest[k] && s[..k + 1] == rest[..k + 1];
    } else {
      assert d[i] in rest;
      var k :| 0 <= k < |rest| && rest[k] == d[i];
      assert s[|s| - 1] !in rest;
      assert s[k] == rest[k] && s[..k + 1] == rest[..k + 1];
    }
  }

  function SpaceKeys(topics: seq<Topic>): seq<bytes> {
    seq(|topics|, i requires 0 <= i < |topics| => SpaceKeyBase58(topics[i]))
  }

  /** What the sender may notify: topics of the returned spaces and, silently, only those named after
      the sender. */
  predicate Admitted(t: Topic, spaces: seq<bytes>, silent: bool, account: AccountId) {
    SpaceKeyBase58(t) in spaces && (silent ==> TopicName(t) == account)
  }

  function Filter(topics: seq<Topic>, spaces: seq<bytes>, silent: bool, account: AccountId): (r: seq<Topic>)
    ensures |r| <= |topics|
  {
    if topics == [] then []
    else
      var last := topics[|topics| - 1];
      Filter(topics[..|topics| - 1], spaces, silent, account)
      + if Admitted(last, spaces, silent, account) then [last] else []
  }

  /** The filter keeps exactly the admitted topics, each as often as it was there. */
  lemma {:induction false} FilterCounts(topics: seq<Topic>, spaces: seq<bytes>, silent: bool, account: AccountId,
                                        t: Topic)
    ensures multiset(Filter(topics, spaces, silent, account))[t]
            == if Admitted(t, spaces, silent, account) then multiset(topics)[t] else 0
  {
    if topics != [] {
      var rest, last := topics[..|topics| - 1], topics[|topics| - 1];
      assert topics == rest + [last];
      FilterCounts(rest, spaces, silent, account, t);
    }
  }

  /** The filter works element by element, so it keeps the order. */
  lemma {:induction false} FilterConcat(a: seq<Topic>, b: seq<Topic>, spaces: seq<bytes>, silent: bool,
                                        account: AccountId)
    ensures Filter(a + b, spaces, silent, account)
            == Filter(a, spaces, silent, account) + Filter(b, spaces, silent, account)
    decreases |b|
  {
    if b == [] {
      Seqs.RightUnit(a);
      Seqs.RightUnit(Filter(a, spaces, silent, account));
    } else {
      var rest, last := b[..|b| - 1], b[|b| - 1];
      assert (a + b)[..|a + b| - 1] == a + rest;
      FilterConcat(a, rest, spaces, silent, account);
      Seqs.ConcatAssoc(Filter(a, spaces, silent, account), Filter(rest, spaces, silent, account),
                       if Admitted(last, spaces, silent, account) then [last] else []);
    }
  }

  /** With the lookup as it is at present, a notification that is not silent keeps every topic. */
  lemma {:induction false} FilterKeepsAll(topics: seq<Topic>, spaces: seq<bytes>, account: AccountId)
    requires forall t :: t in topics ==> SpaceKeyBase58(t) in spaces
    ensures Filter(topics, spaces, false, account) == topics
  {
    if topics != [] {
      var rest, last := topics[..|topics| - 1], topics[|topics| - 1];
      assert topics == rest + [last];
      FilterKeepsAll(rest, spaces, account);
    }
  }

  lemma {:induction false} AllSpacesExistAdmitsAll(topics: seq<Topic>, account: AccountId)
    ensures Filter(topics, AllSpacesExist(Dedup(SpaceKeys(topics))).value, false, account) == topics
  {
    var keys := SpaceKeys(topics);
    assert forall i :: 0 <= i < |topics| ==> keys[i] == SpaceKeyBase58(topics[i]);
    FilterKeepsAll(topics, Dedup(keys), account);
  }

  type SpaceRepo = seq<bytes> -> Result<seq<bytes>, PushError>

  /** The lookup as it is at present: every space exists. */
  function AllSpacesExist(spaceIds: seq<bytes>): Result<seq<bytes>, PushError> {
    Success(spaceIds)
  }

  /** The check of the message itself. */
  function CheckMessage(c: Crypto, key: PubKey, message: Option<M.Message>, silent: bool): Option<PushError> {
    match message
    case None => if silent then None else Some(MessageRequired)
    case Some(m) =>
      match c.verify(key, m.fields.payload, m.fields.signature)
      case Failure(e) => Some(e)
      case Success(valid) => if valid then None else Some(InvalidSignature)
  }

  function MessageFor(c: Crypto, key: PubKey, req: M.NotifyRequest, silent: bool, topics: seq<Topic>): QueueMessage {
    var m := req.fields.message.GetOr(M.NEW_MESSAGE).fields;
    QueueMessage(if silent then [] else c.account(key), m.keyId, m.payload, m.signature, topics,
                 req.fields.groupId, silent)
  }

  /** The list is there and none of its elements is nil: the code dereferences them all. */
  predicate HasTopics(req: M.NotifyRequest) {
    req.fields.topics.Some? && R.NoNil(req)
  }

  function ListedTopics(req: M.NotifyRequest): seq<M.Topic>
    requires HasTopics(req)
  {
    var ts := req.fields.topics.value.fields.topics;
    seq(|ts|, i requires 0 <= i < |ts| => ts[i].value)
  }

  /** What a request comes to. The code dereferences the topic list unchecked, so without one the handler
      panics. */
  datatype Notified = Panics | Fails(error: PushError) | QueuesNothing | Queues(msg: QueueMessage)

  function Notification(c: Crypto, who: Option<PubKey>, req: M.NotifyRequest, silent: bool,
                        spaceRepo: SpaceRepo): Notified
    requires R.NoNil(req)
  {
    if who.None? then Fails(NoIdentity)
    else if req.fields.topics.None? then Panics
    else
      match ConvertTopics(c, ListedTopics(req))
      case Failure(e) => Fails(e)
      case Success(ts) =>
        var bad := CheckMessage(c, who.value, req.fields.message, silent);
        if bad.Some? then Fails(bad.value)
        else
          match spaceRepo(Dedup(SpaceKeys(ts)))
          case Failure(e) => Fails(e)
          case Success(spaces) =>
            var admitted := Filter(ts, spaces, silent, c.account(who.value));
            if admitted == [] then QueuesNothing else Queues(MessageFor(c, who.value, req, silent, admitted))
  }

  // ----- Loops over topics -----

  /** Verifies topics with a cache of parsed keys. The outcome is that of checking each topic on its
      own; on failure no topics are returned. */
  method ConvertTopicsMemoised(c: Crypto, topics: seq<M.Topic>) returns (err: Option<PushError>, result: array<Topic>)
    ensures fresh(result)
    ensures match ConvertTopics(c, topics)
            case Success(ts) => err == None && result[..] == ts
            case Failure(e) => err == Some(e) && result.Length == 0
  {
    hide NewTopic;
    var none := new Topic[0];
    result := new Topic[|topics|](_ => []);
    err := None;
    var pks: map<bytes, PubKey> := map[];
    for i := 0 to |topics|
      invariant fresh(result) && result.Length == |topics|
      invariant forall k :: k in pks ==> c.unmarshal(k) == Success(pks[k])
      invariant ConvertTopics(c, topics[..i]) == Success(result[..i])
    {
      var topic := topics[i];
      assert topics[..i + 1] == topics[..i] + [topic];
      Seqs.SplitAt(topics, i + 1);
      ConvertTopicsAppend(c, topics[..i], topic);
      ghost var bad := CheckTopic(c, topic).Failure?;
      if bad { ConvertTopicsFails(c, topics[..i + 1], topics[i + 1..]); }
      var key;
      if topic.fields.spaceKey in pks {
        key := pks[topic.fields.spaceKey];
      } else {
        var parsed := c.unmarshal(topic.fields.spaceKey);
        if parsed.Failure? { return Some(parsed.error), none; }
        key := parsed.value;
        pks := pks[topic.fields.spaceKey := key];
      }
      var verified := c.verify(key, topic.fields.topic, topic.fields.signature);
      if verified.Failure? { return Some(verified.error), none; }
      if !verified.value { return Some(InvalidTopicSignature), none; }
      ghost var done := result[..i];
      result[i] := NewTopic(topic.fields.spaceKey, topic.fields.topic);
      assert result[..i + 1] == done + [result[i]];
    }
    assert topics[..|topics|] == topics && result[..|topics|] == result[..];
  }

  method UniqueSpaceKeys(topics: array<Topic>) returns (spaceKeys: seq<bytes>)
    ensures spaceKeys == Dedup(SpaceKeys(topics[..]))
  {
    spaceKeys := [];
    ghost var all := SpaceKeys(topics[..]);
    for i := 0 to topics.Length
      invariant spaceKeys == Dedup(all[..i])
    {
      var spaceKey := SpaceKeyBase58(topics[i]);
      assert all[..i + 1][..i] == all[..i] && all[..i + 1][i] == spaceKey;
      if spaceKey !in spaceKeys {
        spaceKeys := spaceKeys + [spaceKey];
      }
    }
    assert all[..topics.Length] == all;
  }

  /** One append of the filter. */
  method KeepOne(topics: array<Topic>, n: nat, topic: Topic, ghost before: seq<Topic>) returns (n': nat)
    requires n < topics.Length == |before| && topics[n..] == before[n..]
    modifies topics
    ensures n' == n + 1 && topics[..n'] == old(topics[..n]) + [topic] && topics[n'..] == before[n'..]
  {
    Seqs.DropDrop(topics[..], n, 1);
    Seqs.DropDrop(before, n, 1);
    assert topics[..][n..] == topics[n..] && topics[..][n + 1..] == topics[n + 1..];
    topics[n] := topic;
    n' := n + 1;
  }

  /** `filteredTopics := topics[:0]` and appends while ranging over `topics`: the appended elements land
      in the slots already read. Returns how many there are; the slots behind them keep what they held. */
  method FilterInPlace(topics: array<Topic>, spaces: seq<bytes>, silent: bool, account: AccountId) returns (n: nat)
    modifies topics
    ensures n <= topics.Length && topics[..n] == Filter(old(topics[..]), spaces, silent, account)
    ensures topics[n..] == old(topics[n..])
  {
    hide SpaceKeyBase58, TopicName;
    n := 0;
    ghost var before := topics[..];
    for i := 0 to topics.Length
      invariant n <= i
      invariant topics[..n] == Filter(before[..i], spaces, silent, account)
      invariant topics[n..] == before[n..]
    {
      var topic := topics[i];
      assert topic == topics[n..][i - n] == before[i];
      assert before[..i + 1][..i] == before[..i];
      if silent && TopicName(topic) != account {
        continue;
      }
      if SpaceKeyBase58(topic) in spaces {
        n := KeepOne(topics, n, topic, before);
      }
    }
    assert before[..topics.Length] == before;
  }

  // ----- What the subscription handlers store -----

  function Without(ts: seq<Topic>, removed: set<Topic>): (r: seq<Topic>)
    ensures forall t :: t in r <==> t in ts && t !in removed
  {
    if ts == [] then []
    else
      var rest, last := Without(ts[..|ts| - 1], removed), ts[|ts| - 1];
      assert forall t :: t in ts <==> t in ts[..|ts| - 1] || t == last;
      if last in removed then rest else rest + [last]
  }

  function SetOf(ts: seq<Topic>): set<Topic> {
    set t | t in ts
  }

  method RemainingTopics(current: seq<Topic>, dTopics: seq<Topic>) returns (remaining: seq<Topic>)
    ensures remaining == Without(current, SetOf(dTopics))
  {
    var removeSet: map<Topic, ()> := map[];
    for i := 0 to |dTopics|
      invariant forall t :: t in removeSet <==> t in dTopics[..i]
    {
      removeSet := removeSet[dTopics[i] := ()];
    }
    assert dTopics[..|dTopics|] == dTopics;
    remaining := [];
    for i := 0 to |current|
      invariant remaining == Without(current[..i], SetOf(dTopics))
    {
      assert current[..i + 1][..i] == current[..i];
      if current[i] !in removeSet {
        remaining := remaining + [current[i]];
      }
    }
    assert current[..|current|] == current;
  }

  /** The pairs a stored list is shown as, or an error if one does not decode. */
  function Shown(ts: seq<Topic>): Result<seq<M.Topic>, PushError> {
    if ts == [] then Success([])
    else
      match Shown(ts[..|ts| - 1])
      case Failure(e) => Failure(e)
      case Success(rest) =>
        var last := ts[|ts| - 1];
        match SpaceKeyRaw(last)
        case None => Failure(BadStoredTopic)
        case Some(raw) => Success(rest + [M.NEW_TOPIC.(fields := M.TopicFields(raw, TopicName(last), []))])
  }

  lemma {:induction false} ShownFails(ts: seq<Topic>, i: nat)
    requires i <= |ts| && Shown(ts[..i]).Failure?
    ensures Shown(ts) == Shown(ts[..i])
  {
    if i < |ts| {
      assert ts[..|ts| - 1][..i] == ts[..i];
      ShownFails(ts[..|ts| - 1], i);
    } else {
      assert ts[..i] == ts;
    }
  }

  // ----- What a subscription request does to the store -----

  datatype Request =
    | Subscribe(account: AccountId, topics: seq<M.Topic>)
    | Unsubscribe(account: AccountId, topics: seq<M.Topic>)

  /** The store after a request that met no storage error. */
  function Serve(c: Crypto, coll: Accounts, r: Request): Accounts {
    match ConvertTopics(c, r.topics)
    case Failure(_) => coll
    case Success(ts) =>
      if r.Subscribe? then coll[r.account := ts]
      else if ts == [] then coll
      else coll[r.account := Without(TopicsIn(coll, r.account), SetOf(ts))]
  }

  // ----- The steps requests take when they interleave -----

  /** A step some handler takes. Unsubscribe takes two: `rid` tells the requests in flight apart. */
  datatype Event =
    | Set(account: AccountId, topics: seq<M.Topic>)
    | Read(rid: nat, account: AccountId, topics: seq<M.Topic>)
    | Write(rid: nat)
    | Other

  /** What an Unsubscribe is about to write. */
  datatype Pending = Pending(account: AccountId, remaining: seq<Topic>)

  datatype State = State(coll: Accounts, pending: map<nat, Pending>)

  function Step(c: Crypto, s: State, e: Event): State {
    match e
    case Set(a, topics) =>
      (match ConvertTopics(c, topics)
       case Failure(_) => s
       case Success(ts) => s.(coll := s.coll[a := ts]))
    case Read(rid, a, topics) =>
      (match ConvertTopics(c, topics)
       case Failure(_) => s
       case Success(ts) =>
         if ts == [] then s
         else s.(pending := s.pending[rid := Pending(a, Without(TopicsIn(s.coll, a), SetOf(ts)))]))
    case Write(rid) =>
      if rid !in s.pending then s
      else State(s.coll[s.pending[rid].account := s.pending[rid].remaining], s.pending - {rid})
    case Other => s
  }

  lemma {:induction false} ReadThenWrite(c: Crypto, s: State, rid: nat, a: AccountId, topics: seq<M.Topic>)
    requires rid !in s.pending
    ensures Step(c, Step(c, s, Read(rid, a, topics)), Write(rid))
            == State(Serve(c, s.coll, Request.Unsubscribe(a, topics)), s.pending)
  {
    if ConvertTopics(c, topics).Success? && ConvertTopics(c, topics).value != [] {
      var p := Pending(a, Without(TopicsIn(s.coll, a), SetOf(ConvertTopics(c, topics).value)));
      assert s.pending[rid := p] - {rid} == s.pending;
    }
  }

  // ----- The service -----

  class Push {
    const crypto: Crypto
    const accountRepo: AccountRepo
    const spaceRepo: SpaceRepo
    const queue: Queue

    constructor (crypto: Crypto, accountRepo: AccountRepo, spaceRepo: SpaceRepo, queue: Queue)
      ensures this.crypto == crypto && this.accountRepo == accountRepo
      ensures this.spaceRepo == spaceRepo && this.queue == queue
    {
      this.crypto, this.accountRepo, this.spaceRepo, this.queue := crypto, accountRepo, spaceRepo, queue;
    }

    method Notify(who: Option<PubKey>, req: M.NotifyRequest, silent: bool, up: bool)
      returns (panics: bool, err: Option<PushError>)
      requires R.NoNil(req)
      modifies queue
      ensures var outcome := Notification(crypto, who, req, silent, spaceRepo);
              && panics == outcome.Panics?
              && queue.msgs == old(queue.msgs) + (if outcome.Queues? && up then [outcome.msg] else [])
              && match outcome
                 case Panics => err == None
                 case Fails(e) => err == Some(e)
                 case QueuesNothing => err == None
                 case Queues(_) => err == if up then None else Some(StorageError)
    {
      panics := false;
      if who.None? { return panics, Some(NoIdentity); }
      if req.fields.topics.None? { return true, None; }
      var accPubKey := who.value;
      var dTopics;
      err, dTopics := ConvertTopicsMemoised(crypto, ListedTopics(req));
      if err.Some? { return; }
      if !silent && req.fields.message.None? { return panics, Some(MessageRequired); }
      if req.fields.message.Some? {
        var m := req.fields.message.value.fields;
        var verified := crypto.verify(accPubKey, m.payload, m.signature);
        if verified.Failure? { return panics, Some(verified.error); }
        if !verified.value { return panics, Some(InvalidSignature); }
      }
      var spaceKeys := UniqueSpaceKeys(dTopics);
      var existed := spaceRepo(spaceKeys);
      if existed.Failure? { return panics, Some(existed.error); }
      var n := FilterInPlace(dTopics, existed.value, silent, crypto.account(accPubKey));
      if n == 0 { return panics, None; }
      var message := QueueMessage([], [], [], [], dTopics[..n], req.fields.groupId, silent);
      if req.fields.message.Some? {
        var m := req.fields.message.value.fields;
        message := message.(keyId := m.keyId, payload := m.payload, signature := m.signature);
      }
      if !silent {
        message := message.(ignoreAccountId := crypto.account(accPubKey));
      }
      var ok := queue.Add(message, up);
      return panics, if ok then None else Some(StorageError);
    }

    /** Subscribe and SubscribeAll: the list replaces what the account held. Without a list the handler
        panics. */
    method Subscribe(who: Option<PubKey>, list: Option<seq<M.Topic>>, up: bool)
      returns (panics: bool, err: Option<PushError>)
      modifies accountRepo
      ensures panics == (who.Some? && list.None?)
      ensures who.None? || list.None? ==>
                err == (if panics then None else Some(NoIdentity)) && accountRepo.coll == old(accountRepo.coll)
      ensures who.Some? && list.Some? ==>
                var account, before := crypto.account(who.value), old(accountRepo.coll);
                match ConvertTopics(crypto, list.value)
                case Failure(e) => err == Some(e) && accountRepo.coll == before
                case Success(ts) =>
                  if up then err == None && accountRepo.coll == before[account := ts]
                  else err == Some(StorageError) && accountRepo.coll == before
      ensures who.Some? && list.Some? && up ==>
                var account, before := crypto.account(who.value), old(accountRepo.coll);
                accountRepo.coll == Serve(crypto, before, Request.Subscribe(account, list.value))
      ensures who.Some? && list.Some? ==>
                var account, before := crypto.account(who.value), old(accountRepo.coll);
                forall pending ::
                  Step(crypto, State(before, pending), if up then Set(account, list.value) else Other)
                  == State(accountRepo.coll, pending)
    {
      panics := false;
      if who.None? { return panics, Some(NoIdentity); }
      if list.None? { return true, None; }
      var dTopics;
      err, dTopics := ConvertTopicsMemoised(crypto, list.value);
      if err.Some? { return; }
      var ok := accountRepo.SetAccountTopics(crypto.account(who.value), dTopics[..], up);
      return panics, if ok then None else Some(StorageError);
    }

    /** Everything Unsubscribe does before its write: `write` is false when it is over already. */
    method UnsubscribeRead(who: Option<PubKey>, list: Option<seq<M.Topic>>, up: bool)
      returns (panics: bool, err: Option<PushError>, write: bool, remaining: seq<Topic>)
      ensures panics == (who.Some? && list.None?)
      ensures who.None? || list.None? ==> err == (if panics then None else Some(NoIdentity)) && !write
      ensures who.Some? && list.Some? ==>
                var account, coll := crypto.account(who.value), accountRepo.coll;
                match ConvertTopics(crypto, list.value)
                case Failure(e) => err == Some(e) && !write
                case Success(ts) =>
                  if ts == [] then err == None && !write
                  else if !up then err == Some(StorageError) && !write
                  else err == None && write && remaining == Without(TopicsIn(coll, account), SetOf(ts))
      ensures who.Some? && list.Some? && up ==>
                var account, coll := crypto.account(who.value), accountRepo.coll;
                forall rid: nat, pending ::
                  Step(crypto, State(coll, pending), Read(rid, account, list.value))
                  == State(coll, if write then pending[rid := Pending(account, remaining)] else pending)
    {
      panics, write, remaining := false, false, [];
      if who.None? { return panics, Some(NoIdentity), write, remaining; }
      if list.None? { return true, None, write, remaining; }
      var dTopics;
      err, dTopics := ConvertTopicsMemoised(crypto, list.value);
      if err.Some? || dTopics.Length == 0 { return; }
      var ok, current := accountRepo.GetTopicsByAccountId(crypto.account(who.value), up);
      if !ok { return panics, Some(StorageError), write, remaining; }
      remaining := RemainingTopics(current, dTopics[..]);
      write := true;
    }

    /** The write that ends an Unsubscribe, whatever other handlers wrote since its read. */
    method UnsubscribeWrite(account: AccountId, remaining: seq<Topic>, up: bool) returns (err: Option<PushError>)
      modifies accountRepo
      ensures err == if up then None else Some(StorageError)
      ensures accountRepo.coll == if up then old(accountRepo.coll)[account := remaining] else old(accountRepo.coll)
      ensures up ==>
                forall rid: nat, pending | rid in pending && pending[rid] == Pending(account, remaining) ::
                  Step(crypto, State(old(accountRepo.coll), pending), Write(rid))
                  == State(accountRepo.coll, pending - {rid})
    {
      var ok := accountRepo.SetAccountTopics(account, remaining, up);
      return if ok then None else Some(StorageError);
    }

    /** Removes the listed topics from what the account holds; nothing else changes. */
    method Unsubscribe(who: Option<PubKey>, list: Option<seq<M.Topic>>, readUp: bool, writeUp: bool)
      returns (panics: bool, err: Option<PushError>)
      modifies accountRepo
      ensures panics == (who.Some? && list.None?)
      ensures who.None? || list.None? ==>
                err == (if panics then None else Some(NoIdentity)) && accountRepo.coll == old(accountRepo.coll)
      ensures who.Some? && list.Some? ==>
                var account, before := crypto.account(who.value), old(accountRepo.coll);
                match ConvertTopics(crypto, list.value)
                case Failure(e) => err == Some(e) && accountRepo.coll == before
                case Success(ts) =>
                  if ts == [] then err == None && accountRepo.coll == before
                  else if readUp && writeUp then
                    err == None && accountRepo.coll == before[account := Without(TopicsIn(before, account), SetOf(ts))]
                  else err == Some(StorageError) && accountRepo.coll == before
      ensures who.Some? && list.Some? && readUp && writeUp ==>
                var account, before := crypto.account(who.value), old(accountRepo.coll);
                accountRepo.coll == Serve(crypto, before, Request.Unsubscribe(account, list.value))
      ensures who.Some? && list.Some? && readUp && writeUp ==>
                var account, before := crypto.account(who.value), old(accountRepo.coll);
                forall rid: nat, pending | rid !in pending ::
                  Step(crypto, Step(crypto, State(before, pending), Read(rid, account, list.value)), Write(rid))
                  == State(accountRepo.coll, pending)
    {
      var write, remaining;
      panics, err, write, remaining := UnsubscribeRead(who, list, readUp);
      if who.None? || list.None? { return; }
      ghost var account, before := crypto.account(who.value), accountRepo.coll;
      forall rid: nat, pending | rid !in pending
        ensures Step(crypto, Step(crypto, State(before, pending), Read(rid, account, list.value)), Write(rid))
                == State(Serve(crypto, before, Request.Unsubscribe(account, list.value)), pending)
      {
        ReadThenWrite(crypto, State(before, pending), rid, account, list.value);
      }
      if write {
        err := UnsubscribeWrite(crypto.account(who.value), remaining, writeUp);
      }
    }

    method Subscriptions(who: Option<PubKey>, up: bool) returns (err: Option<PushError>, topics: seq<M.Topic>)
      ensures who.None? ==> err == Some(NoIdentity)
      ensures who.Some? && !up ==> err == Some(StorageError)
      ensures who.Some? && up ==>
                match Shown(TopicsIn(accountRepo.coll, crypto.account(who.value)))
                case Failure(e) => err == Some(e)
                case Success(shown) => err == None && topics == shown
    {
      topics := [];
      if who.None? { return Some(NoIdentity), topics; }
      var ok, dTopics := accountRepo.GetTopicsByAccountId(crypto.account(who.value), up);
      if !ok { return Some(StorageError), topics; }
      for i := 0 to |dTopics|
        invariant Shown(dTopics[..i]) == Success(topics)
      {
        assert dTopics[..i + 1][..i] == dTopics[..i];
        var raw := SpaceKeyRaw(dTopics[i]);
        if raw.None? {
          ShownFails(dTopics, i + 1);
          return Some(BadStoredTopic), topics;
        }
        topics := topics + [M.NEW_TOPIC.(fields := M.TopicFields(raw.value, TopicName(dTopics[i]), []))];
      }
      assert dTopics[..|dTopics|] == dTopics;
      return None, topics;
    }
  }
}
