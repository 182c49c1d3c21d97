/**
 The sender: from a queued message to the accounts that hold its topics, to their tokens, to one
 provider call per platform.
 */
module Sender {
  import opened GoInts
  import opened Wrappers
  import opened AccountRepo
  import opened TokenRepo
  import opened Fcm
  import opened Push
  import Seqs

  // ----- Who is to receive a message -----

  /** The devices a message is meant for: valid tokens on a served platform, of accounts that hold one
      of the topics and are not the ignored one. */
  ghost function Recipients(accounts: Accounts, devices: Devices, served: set<Platform>,
                            msg: QueueMessage): set<TokenId> {
    set id | id in devices
             && devices[id].status == Valid
             && devices[id].platform in served
             && devices[id].accountId != msg.ignoreAccountId
             && Meets(TopicsIn(accounts, devices[id].accountId), msg.topics)
  }

  /** The data map of a queued message. `sealed` is whether its payload and signature are both not nil, which
      their bytes do not tell. */
  function DataOf(msg: QueueMessage, sealed: bool): map<string, Text> {
    map["x-any-type" := Word(if msg.silent then "silent" else "normal"), "x-any-group-id" := Plain(msg.groupId)]
    + if sealed then
        map["x-any-payload" := Base64(msg.payload), "x-any-signature" := Base64(msg.signature),
            "x-any-key-id" := Plain(msg.keyId)]
      else map[]
  }

  /** What the data map holds under each key: the kind and the group id always, the other three together or not
      at all, and nothing else. */
  lemma {:induction false} DataKeys(msg: QueueMessage, sealed: bool)
    ensures var data := DataOf(msg, sealed);
            && data.Keys == {"x-any-type", "x-any-group-id"}
                            + (if sealed then {"x-any-payload", "x-any-signature", "x-any-key-id"} else {})
            && (msg.silent ==> data["x-any-type"] == Word("silent"))
            && (!msg.silent ==> data["x-any-type"] == Word("normal"))
            && data["x-any-group-id"] == Plain(msg.groupId)
            && (sealed ==> data["x-any-payload"] == Base64(msg.payload))
            && (sealed ==> data["x-any-signature"] == Base64(msg.signature))
            && (sealed ==> data["x-any-key-id"] == Plain(msg.keyId))
  {
    DistinctKeys();
  }

  lemma {:induction false} DistinctKeys()
    ensures |"x-any-type"| == 10 && |"x-any-group-id"| == 14 && |"x-any-payload"| == 13
    ensures |"x-any-signature"| == 15 && |"x-any-key-id"| == 12
  {
  }

  function BodyOf(msg: QueueMessage, sealed: bool): Body {
    Body(msg.silent, DataOf(msg, sealed))
  }

  // ----- Grouping -----

  /** The tokens of one platform, in order. */
  function Group(ts: seq<Token>, p: Platform): seq<TokenId> {
    if ts == [] then []
    else
      var last := ts[|ts| - 1];
      Group(ts[..|ts| - 1], p) + if last.device.platform == p then [last.id] else []
  }

  /** Grouping works token by token, so it keeps the order and the repetitions. */
  lemma {:induction false} GroupConcat(a: seq<Token>, b: seq<Token>, p: Platform)
    ensures Group(a + b, p) == Group(a, p) + Group(b, p)
    ensures forall t: Token :: Group([t], p) == if t.device.platform == p then [t.id] else []
    decreases |b|
  {
    hide Group;
    forall t: Token
      ensures Group([t], p) == if t.device.platform == p then [t.id] else []
    {
      GroupAppend([], t, p);
    }
    if b == [] {
      Seqs.RightUnit(a);
      GroupNothing(p);
      Seqs.RightUnit(Group(a, p));
    } else {
      var rest, last := b[..|b| - 1], b[|b| - 1];
      assert b == rest + [last];
      GroupConcat(a, rest, p);
      GroupAppend(rest, last, p);
      GroupAppend(a + rest, last, p);
      Seqs.ConcatAssoc(a, rest, [last]);
      Seqs.ConcatAssoc(Group(a, p), Group(rest, p), if last.device.platform == p then [last.id] else []);
    }
  }

  lemma {:induction false} GroupNothing(p: Platform)
    ensures Group([], p) == []
  {
  }

  lemma {:induction false} GroupAppend(ts: seq<Token>, t: Token, p: Platform)
    ensures Group(ts + [t], p) == Group(ts, p) + if t.device.platform == p then [t.id] else []
    ensures ts == [] ==> Group([t], p) == if t.device.platform == p then [t.id] else []
  {
    assert (ts + [t])[..|ts|] == ts;
    if ts == [] { assert [t][..0] == []; }
  }

  function Platforms(ts: seq<Token>): set<Platform> {
    set t | t in ts :: t.device.platform
  }

  /** The tokens on a set of platforms, in order. */
  function IdsOn(ts: seq<Token>, ps: set<Platform>): seq<TokenId> {
    if ts == [] then []
    else
      var last := ts[|ts| - 1];
      IdsOn(ts[..|ts| - 1], ps) + if last.device.platform in ps then [last.id] else []
  }

  lemma {:induction false} GroupNotEmpty(ts: seq<Token>, p: Platform)
    ensures Group(ts, p) != [] <==> p in Platforms(ts)
  {
    if ts != [] {
      var rest, last := ts[..|ts| - 1], ts[|ts| - 1];
      assert forall t :: t in ts <==> t in rest || t == last;
      GroupNotEmpty(rest, p);
    }
  }

  lemma {:induction false} IdsOnAdd(ts: seq<Token>, ps: set<Platform>, p: Platform)
    requires p !in ps
    ensures multiset(IdsOn(ts, ps + {p})) == multiset(IdsOn(ts, ps)) + multiset(Group(ts, p))
  {
    if ts != [] {
      var rest, last := ts[..|ts| - 1], ts[|ts| - 1];
      IdsOnAdd(rest, ps, p);
      var own: seq<TokenId> := if last.device.platform == p then [last.id] else [];
      var other: seq<TokenId> := if last.device.platform in ps then [last.id] else [];
      assert IdsOn(ts, ps + {p}) == IdsOn(rest, ps + {p}) + if own == [] then other else own;
    }
  }

  lemma {:induction false} IdsOnNone(ts: seq<Token>)
    ensures IdsOn(ts, {}) == []
  {
    if ts != [] { IdsOnNone(ts[..|ts| - 1]); }
  }

  /** The groups are a partition of the tokens: with all platforms, nothing is lost or repeated. */
  lemma {:induction false} IdsOnAll(ts: seq<Token>, ps: set<Platform>)
    requires Platforms(ts) <= ps
    ensures IdsOn(ts, ps) == Ids(ts)
  {
    if ts != [] {
      var rest, last := ts[..|ts| - 1], ts[|ts| - 1];
      assert last in ts && forall t :: t in rest ==> t in ts;
      assert last.device.platform in Platforms(ts);
      assert Platforms(rest) <= Platforms(ts);
      IdsOnAll(rest, ps);
      assert Ids(ts) == Ids(rest) + [last.id];
    }
  }

  lemma {:induction false} IdsOnMembers(ts: seq<Token>, ps: set<Platform>)
    ensures forall id :: id in IdsOn(ts, ps) <==> exists t :: t in ts && t.id == id && t.device.platform in ps
  {
    if ts != [] {
      assert forall t :: t in ts <==> t in ts[..|ts| - 1] || t == ts[|ts| - 1];
      IdsOnMembers(ts[..|ts| - 1], ps);
    }
  }

  lemma {:induction false} IdsOnDistinct(ts: seq<Token>, ps: set<Platform>)
    requires NoDuplicates(Ids(ts))
    ensures NoDuplicates(IdsOn(ts, ps)) && forall id :: id in IdsOn(ts, ps) ==> id in Ids(ts)
  {
    if ts != [] {
      var rest, last := ts[..|ts| - 1], ts[|ts| - 1];
      var all := Ids(ts);
      assert all == Ids(rest) + [last.id];
      assert forall i :: 0 <= i < |rest| ==> Ids(rest)[i] == all[i];
      IdsOnDistinct(rest, ps);
      assert last.id !in Ids(rest) by {
        assert forall i :: 0 <= i < |rest| ==> all[i] != all[|rest|];
      }
    }
  }

  lemma {:induction false} CountsOfSet<T>(s: seq<T>, elements: set<T>)
    requires NoDuplicates(s) && forall x :: x in s <==> x in elements
    ensures multiset(s) == multiset(elements)
    decreases |s|
  {
    if s == [] {
      assert elements == {};
    } else {
      var rest, last := s[..|s| - 1], s[|s| - 1];
      assert s == rest + [last];
      assert last !in rest;
      CountsOfSet(rest, elements - {last});
      assert multiset(elements) == multiset(elements - {last}) + multiset{last};
    }
  }

  // ----- Sending the groups -----

  /** The provider calls made for the groups in some order of platforms: the multicast calls, the groups
      whose provider call returned no error, the tokens reported as invalid, and how it ended. */
  datatype Delivery = Delivery(calls: seq<Call>, accepted: seq<Platform>, reports: seq<TokenId>, err: Option<SendError>)

  /** The next platform, after `d`. `own` gives the registered platforms and the platform each
      registered provider was built for; `n` calls were made before. */
  function DeliverNext(client: Client, n: nat, own: map<Platform, Platform>, ts: seq<Token>, body: Body,
                       d: Delivery, p: Platform): Delivery
  {
    if d.err.Some? || p !in own then d
    else
      var group := Group(ts, p);
      var s := Send(client, n + |d.calls|, own[p], group, body);
      Delivery(d.calls + s.calls, if s.err.None? then d.accepted + [p] else d.accepted,
               d.reports + Reports(group, s), s.err)
  }

  function Deliver(client: Client, n: nat, own: map<Platform, Platform>, ts: seq<Token>, body: Body,
                   order: seq<Platform>): Delivery
  {
    if order == [] then Delivery([], [], [], None)
    else
      var before := Deliver(client, n, own, ts, body, order[..|order| - 1]);
      DeliverNext(client, n, own, ts, body, before, order[|order| - 1])
  }

  function SetOfPlatforms(order: seq<Platform>): set<Platform> {
    set p | p in order
  }

  function TotalSize(ts: seq<Token>, ps: seq<Platform>): nat {
    if ps == [] then 0 else TotalSize(ts, ps[..|ps| - 1]) + |Group(ts, ps[|ps| - 1])|
  }

  function Served(order: seq<Platform>, own: map<Platform, Platform>): seq<Platform> {
    if order == [] then []
    else
      var rest, p := Served(order[..|order| - 1], own), order[|order| - 1];
      if p in own then rest + [p] else rest
  }

  /** The accepted groups are those with a provider, up to the one whose call failed. */
  lemma {:induction false} AcceptedAreServed(client: Client, n: nat, own: map<Platform, Platform>, ts: seq<Token>,
                                             body: Body, order: seq<Platform>)
    ensures var d := Deliver(client, n, own, ts, body, order);
            && d.accepted <= Served(order, own)
            && (d.err.None? ==> d.accepted == Served(order, own))
            && (d.err.Some? ==> |d.accepted| < |Served(order, own)|)
  {
    if order != [] { AcceptedAreServed(client, n, own, ts, body, order[..|order| - 1]); }
  }

  /** A delivery that ends well hands on every token of a served platform exactly as often as it was
      fetched, and no other token, whatever the order of the platforms. */
  lemma {:induction false} DeliverAll(client: Client, n: nat, own: map<Platform, Platform>, ts: seq<Token>,
                                      body: Body, order: seq<Platform>)
    requires NoDuplicates(order) && Deliver(client, n, own, ts, body, order).err.None?
    ensures multiset(TokensOf(Deliver(client, n, own, ts, body, order).calls))
            == multiset(IdsOn(ts, SetOfPlatforms(order) * own.Keys))
  {
    hide DeliverNext, Send, IdsOn, Group;
    if order == [] {
      IdsOnNone(ts);
      assert SetOfPlatforms(order) * own.Keys == {};
    } else {
      var rest, p := order[..|order| - 1], order[|order| - 1];
      var d := Deliver(client, n, own, ts, body, rest);
      var before := SetOfPlatforms(rest) * own.Keys;
      DeliverGroup(client, n, own, ts, body, d, p);
      DeliverAll(client, n, own, ts, body, rest);
      ServedSoFar(order, own.Keys);
      if p in own { IdsOnAdd(ts, before, p); }
    }
  }

  lemma {:induction false} ServedSoFar(order: seq<Platform>, served: set<Platform>)
    requires order != [] && NoDuplicates(order)
    ensures var rest, p := order[..|order| - 1], order[|order| - 1];
            && p !in SetOfPlatforms(rest)
            && var before := SetOfPlatforms(rest) * served;
               SetOfPlatforms(order) * served == if p in served then before + {p} else before
  {
    var rest, p := order[..|order| - 1], order[|order| - 1];
    assert forall q :: q in order <==> q in rest || q == p;
  }

  lemma {:induction false} DeliverGroup(client: Client, n: nat, own: map<Platform, Platform>, ts: seq<Token>,
                                        body: Body, d: Delivery, p: Platform)
    requires DeliverNext(client, n, own, ts, body, d, p).err.None?
    ensures d.err.None?
    ensures TokensOf(DeliverNext(client, n, own, ts, body, d, p).calls)
            == TokensOf(d.calls) + if p in own then Group(ts, p) else []
  {
    hide Send, Group, Reports;
    Seqs.RightUnit(TokensOf(d.calls));
    if p in own {
      SendPrefix(client, n + |d.calls|, own[p], Group(ts, p), body);
      TokensOfConcat(d.calls, Send(client, n + |d.calls|, own[p], Group(ts, p), body).calls);
    }
  }

  /** However a delivery ends, it has handed on no token more often than it was fetched, and none of another
      platform. */
  lemma {:induction false} DeliverAtMost(client: Client, n: nat, own: map<Platform, Platform>, ts: seq<Token>,
                                         body: Body, order: seq<Platform>)
    requires NoDuplicates(order)
    ensures multiset(TokensOf(Deliver(client, n, own, ts, body, order).calls)) <= multiset(IdsOn(ts, own.Keys))
  {
    hide Deliver, IdsOn;
    DeliverWithin(client, n, own, ts, body, order);
    IdsOnMonotone(ts, SetOfPlatforms(order) * own.Keys, own.Keys);
  }

  lemma {:induction false} DeliverWithin(client: Client, n: nat, own: map<Platform, Platform>, ts: seq<Token>,
                                         body: Body, order: seq<Platform>)
    requires NoDuplicates(order)
    ensures multiset(TokensOf(Deliver(client, n, own, ts, body, order).calls))
            <= multiset(IdsOn(ts, SetOfPlatforms(order) * own.Keys))
  {
    hide DeliverNext, Send, IdsOn, Group;
    if order != [] {
      var rest, p := order[..|order| - 1], order[|order| - 1];
      var d := Deliver(client, n, own, ts, body, rest);
      var before := SetOfPlatforms(rest) * own.Keys;
      DeliverWithin(client, n, own, ts, body, rest);
      DeliverPart(client, n, own, ts, body, d, p);
      ServedSoFar(order, own.Keys);
      if p in own { IdsOnAdd(ts, before, p); }
    }
  }

  lemma {:induction false} DeliverPart(client: Client, n: nat, own: map<Platform, Platform>, ts: seq<Token>,
                                       body: Body, d: Delivery, p: Platform)
    ensures multiset(TokensOf(DeliverNext(client, n, own, ts, body, d, p).calls))
            <= multiset(TokensOf(d.calls)) + multiset(if p in own then Group(ts, p) else [])
  {
    hide Send, Group, Reports, TokensOf;
    if d.err.None? && p in own {
      var group, calls := Group(ts, p), Send(client, n + |d.calls|, own[p], Group(ts, p), body).calls;
      SendPrefix(client, n + |d.calls|, own[p], group, body);
      TokensOfConcat(d.calls, calls);
      Seqs.SplitAt(group, |TokensOf(calls)|);
      assert group == TokensOf(calls) + group[|TokensOf(calls)|..];
    }
  }

  lemma {:induction false} IdsOnMonotone(ts: seq<Token>, ps: set<Platform>, qs: set<Platform>)
    requires ps <= qs
    ensures multiset(IdsOn(ts, ps)) <= multiset(IdsOn(ts, qs))
  {
    if ts != [] { IdsOnMonotone(ts[..|ts| - 1], ps, qs); }
  }

  /** The token counter counts tokens that were handed to the client, and all of them when no call failed. */
  lemma {:induction false} CountedAreSent(client: Client, n: nat, own: map<Platform, Platform>, ts: seq<Token>,
                                          body: Body, order: seq<Platform>)
    ensures var d := Deliver(client, n, own, ts, body, order);
            && TotalSize(ts, d.accepted) <= |TokensOf(d.calls)|
            && (d.err.None? ==> TotalSize(ts, d.accepted) == |TokensOf(d.calls)|)
  {
    if order != [] {
      var rest, p := order[..|order| - 1], order[|order| - 1];
      CountedAreSent(client, n, own, ts, body, rest);
      CountedGroup(client, n, own, ts, body, Deliver(client, n, own, ts, body, rest), p);
    }
  }

  lemma {:induction false} CountedGroup(client: Client, n: nat, own: map<Platform, Platform>, ts: seq<Token>,
                                        body: Body, d: Delivery, p: Platform)
    requires TotalSize(ts, d.accepted) <= |TokensOf(d.calls)|
    requires d.err.None? ==> TotalSize(ts, d.accepted) == |TokensOf(d.calls)|
    ensures var d' := DeliverNext(client, n, own, ts, body, d, p);
            && TotalSize(ts, d'.accepted) <= |TokensOf(d'.calls)|
            && (d'.err.None? ==> TotalSize(ts, d'.accepted) == |TokensOf(d'.calls)|)
  {
    hide Send, Group, Reports;
    if d.err.None? && p in own {
      SendPrefix(client, n + |d.calls|, own[p], Group(ts, p), body);
      TokensOfConcat(d.calls, Send(client, n + |d.calls|, own[p], Group(ts, p), body).calls);
      assert (d.accepted + [p])[..|d.accepted|] == d.accepted;
    }
  }

  // ----- The code -----

  class DomainMessage {
    const platform: Platform
    const silent: bool
    const data: map<string, Text>
    var tokens: seq<TokenId>

    constructor (platform: Platform, tokens: seq<TokenId>, body: Body)
      ensures this.platform == platform && this.tokens == tokens && this.Carried() == body
    {
      this.platform, this.tokens, this.silent, this.data := platform, tokens, body.silent, body.data;
    }

    function Carried(): Body {
      Body(silent, data)
    }
  }

  function DropAll(ids: seq<AccountId>, ignored: AccountId): (r: seq<AccountId>)
    ensures |r| <= |ids| && forall a :: a in r <==> a in ids && a != ignored
  {
    if ids == [] then []
    else
      var rest, last := DropAll(ids[..|ids| - 1], ignored), ids[|ids| - 1];
      assert forall a :: a in ids <==> a in ids[..|ids| - 1] || a == last;
      if last == ignored then rest else rest + [last]
  }

  /** `slices.DeleteFunc`: moves what stays to the front and clears the rest. */
  method DeleteFunc(ids: array<AccountId>, ignored: AccountId) returns (n: nat)
    modifies ids
    ensures n <= ids.Length && ids[..n] == DropAll(old(ids[..]), ignored)
    ensures forall i :: n <= i < ids.Length ==> ids[i] == []
  {
    ghost var before := ids[..];
    n := 0;
    for i := 0 to ids.Length
      invariant n <= i
      invariant ids[..n] == DropAll(before[..i], ignored)
      invariant ids[i..] == before[i..]
    {
      assert ids[i] == ids[i..][0] == before[i];
      assert before[..i + 1][..i] == before[..i];
      if ids[i] != ignored {
        ghost var kept := ids[..n];
        ghost var behind := ids[i..];
        ids[n] := ids[i];
        n := n + 1;
        assert ids[..n] == kept + [before[i]];
        assert ids[i + 1..] == behind[1..];
      } else {
        assert ids[i + 1..] == ids[i..][1..];
      }
    }
    assert before[..ids.Length] == before;
    forall i | n <= i < ids.Length {
      ids[i] := [];
    }
  }

  class Sender {
    const accountRepo: AccountRepo
    const tokenRepo: TokenRepo
    /** All providers of a sender share what is observed of their clients. */
    const connection: Connection
    const invalidTokens: InvalidTokens
    var providers: map<Platform, FcmSender>
    var sendCount: nat
    var sendTokens: nat

    constructor (accountRepo: AccountRepo, tokenRepo: TokenRepo, connection: Connection, invalidTokens: InvalidTokens)
      ensures this.accountRepo == accountRepo && this.tokenRepo == tokenRepo
      ensures this.connection == connection && this.invalidTokens == invalidTokens
      ensures Valid() && providers == map[] && sendCount == 0 && sendTokens == 0
    {
      this.accountRepo, this.tokenRepo := accountRepo, tokenRepo;
      this.connection, this.invalidTokens := connection, invalidTokens;
      providers, sendCount, sendTokens := map[], 0, 0;
    }

    ghost predicate Valid()
      reads this
    {
      && (forall p :: p in providers ==> providers[p].connection == connection)
      && sendCount < TWO_64 && sendTokens < TWO_64
    }

    /** The platform every registered provider was built for. */
    ghost function Own(): map<Platform, Platform>
      reads this
    {
      map p | p in providers :: providers[p].platform
    }

    method RegisterProvider(p: Platform, provider: FcmSender)
      requires Valid() && provider.connection == connection
      modifies this`providers
      ensures Valid() && providers == old(providers)[p := provider]
    {
      providers := providers[p := provider];
    }

    /** One message per platform, each holding that platform's tokens in order. */
    method GroupByPlatform(tokens: seq<Token>, body: Body) returns (byProvider: map<Platform, DomainMessage>)
      ensures byProvider.Keys == Platforms(tokens)
      ensures forall p :: p in byProvider ==>
                && fresh(byProvider[p]) && byProvider[p].platform == p && byProvider[p].Carried() == body
                && byProvider[p].tokens == Group(tokens, p) && byProvider[p].tokens != []
    {
      byProvider := map[];
      for i := 0 to |tokens|
        invariant forall p :: p in byProvider <==> Group(tokens[..i], p) != []
        invariant forall p :: p in byProvider ==>
                    && fresh(byProvider[p]) && byProvider[p].platform == p && byProvider[p].Carried() == body
                    && byProvider[p].tokens == Group(tokens[..i], p)
      {
        var token := tokens[i];
        assert tokens[..i + 1][..i] == tokens[..i];
        var msg: DomainMessage?;
        if token.device.platform in byProvider {
          msg := byProvider[token.device.platform];
          msg.tokens := msg.tokens + [token.id];
        } else {
          msg := new DomainMessage(token.device.platform, [token.id], body);
        }
        byProvider := byProvider[token.device.platform := msg];
      }
      assert tokens[..|tokens|] == tokens;
      forall p: Platform
        ensures p in byProvider <==> p in Platforms(tokens)
      {
        GroupNotEmpty(tokens, p);
      }
    }

    /** What was observed and counted since there were `calls`, `reports`, `count` and `total`. */
    ghost predicate Shows(d: Delivery, ts: seq<Token>, calls: seq<Call>, reports: seq<TokenId>, count: nat, total: nat)
      reads this, connection, invalidTokens
    {
      && connection.calls == calls + d.calls
      && invalidTokens.tokens == reports + d.reports
      && sendCount == (count + |d.accepted|) % TWO_64
      && sendTokens == (total + TotalSize(ts, d.accepted)) % TWO_64
    }

    /** One turn of the loop below. */
    method SendGroup(msg: DomainMessage, ghost ts: seq<Token>, ghost d: Delivery, ghost calls: seq<Call>,
                     ghost reports: seq<TokenId>, ghost count: nat, ghost total: nat) returns (err: Option<SendError>)
      requires Valid() && AnswersEach(connection.client)
      requires msg.tokens == Group(ts, msg.platform)
      requires d.err == None && Shows(d, ts, calls, reports, count, total)
      modifies this`sendCount, this`sendTokens, connection`calls, invalidTokens
      ensures Valid()
      ensures var d' := DeliverNext(connection.client, |calls|, Own(), ts, msg.Carried(), d, msg.platform);
              err == d'.err && Shows(d', ts, calls, reports, count, total)
    {
      hide Send, Group, Reports;
      err := None;
      if msg.platform in providers {
        var provider := providers[msg.platform];
        err := provider.SendMessage(msg.tokens, msg.Carried(), invalidTokens);
        if err.Some? { return; }
        sendCount := (sendCount + 1) % TWO_64;
        sendTokens := (sendTokens + |msg.tokens|) % TWO_64;
        assert (d.accepted + [msg.platform])[..|d.accepted|] == d.accepted;
        AddModulo(count + |d.accepted|, 1);
        AddModulo(total + TotalSize(ts, d.accepted), |msg.tokens|);
      }
    }

    static lemma {:induction false} AddModulo(a: nat, b: nat)
      ensures (a % TWO_64 + b) % TWO_64 == (a + b) % TWO_64
    {
    }

    /** One provider call per platform, in an order the map's iteration chooses; the first error ends it.
        The counters count the groups and tokens of the calls that returned no error. */
    method SendGroups(byProvider: map<Platform, DomainMessage>, ghost tokens: seq<Token>, ghost body: Body)
      returns (err: Option<SendError>, ghost order: seq<Platform>)
      requires Valid() && AnswersEach(connection.client)
      requires forall p :: p in byProvider ==>
                 && byProvider[p].platform == p && byProvider[p].Carried() == body
                 && byProvider[p].tokens == Group(tokens, p)
      modifies this`sendCount, this`sendTokens, connection`calls, invalidTokens
      ensures Valid() && NoDuplicates(order) && SetOfPlatforms(order) <= byProvider.Keys
      ensures err == None ==> SetOfPlatforms(order) == byProvider.Keys
      ensures var d := Deliver(connection.client, |old(connection.calls)|, Own(), tokens, body, order);
              && err == d.err
              && Shows(d, tokens, old(connection.calls), old(invalidTokens.tokens), old(sendCount), old(sendTokens))
    {
      hide Deliver, DeliverNext, Group, SetOfPlatforms, NoDuplicates;
      ghost var calls, reports, count, total := connection.calls, invalidTokens.tokens, sendCount, sendTokens;
      order := [];
      err := None;
      var todo := byProvider.Keys;
      NothingFetched(connection.client, |calls|, Own(), tokens, body);
      NoneVisited();
      while todo != {}
        invariant todo <= byProvider.Keys && SetOfPlatforms(order) == byProvider.Keys - todo
        invariant Valid() && NoDuplicates(order)
        invariant var d := Deliver(connection.client, |calls|, Own(), tokens, body, order);
                  d.err == None && Shows(d, tokens, calls, reports, count, total)
      {
        var prv :| prv in todo;
        todo := todo - {prv};
        ghost var visited := order;
        order := order + [prv];
        OneMoreVisited(visited, prv);
        DeliverOneMore(connection.client, |calls|, Own(), tokens, body, visited, prv);
        err := SendGroup(byProvider[prv], tokens, Deliver(connection.client, |calls|, Own(), tokens, body, visited),
                         calls, reports, count, total);
        if err.Some? { return; }
      }
      err := None;
    }

    /** The accounts that hold one of the topics, without the ignored one. */
    method FetchAccounts(message: QueueMessage, up: bool) returns (ok: bool, accountIds: seq<AccountId>)
      ensures ok == up
      ensures ok ==> Addressed(accountRepo.coll, message, accountIds)
    {
      var found;
      ok, found := accountRepo.GetAccountIdsByTopics(message.topics, up);
      if !ok { return ok, []; }
      var n := DeleteFunc(found, message.ignoreAccountId);
      accountIds := found[..n];
    }

    static method BuildData(message: QueueMessage, sealed: bool) returns (data: map<string, Text>)
      ensures data == DataOf(message, sealed)
    {
      data := map[];
      if message.silent {
        data := data["x-any-type" := Word("silent")];
      } else {
        data := data["x-any-type" := Word("normal")];
      }
      if sealed {
        data := data["x-any-payload" := Base64(message.payload)];
        data := data["x-any-signature" := Base64(message.signature)];
        data := data["x-any-key-id" := Plain(message.keyId)];
      }
      data := data["x-any-group-id" := Plain(message.groupId)];
    }

    /** From the second query on: the tokens of the accounts are grouped and delivered platform by platform, in
        an order the map chooses. `accounts` is what the first query saw, whatever was written since. */
    method SendToAccounts(message: QueueMessage, sealed: bool, accountIds: seq<AccountId>, ghost accounts: Accounts,
                          up: bool)
      returns (err: Option<SendError>, ghost tokens: seq<Token>, ghost order: seq<Platform>)
      requires Valid() && AnswersEach(connection.client)
      requires Addressed(accounts, message, accountIds)
      modifies this`sendCount, this`sendTokens, connection`calls, invalidTokens
      ensures Valid() && old(connection.calls) <= connection.calls
      ensures !up ==> err == Some(StorageError) && connection.calls == old(connection.calls)
      ensures up ==>
                var n, body := |old(connection.calls)|, BodyOf(message, sealed);
                var d := Deliver(connection.client, n, Own(), tokens, body, order);
                && NoDuplicates(order) && SetOfPlatforms(order) <= Platforms(tokens)
                && err == d.err
                && Shows(d, tokens, old(connection.calls), old(invalidTokens.tokens), old(sendCount), old(sendTokens))
                && multiset(IdsOn(tokens, providers.Keys))
                   == multiset(Recipients(accounts, tokenRepo.coll, providers.Keys, message))
      ensures var calls := connection.calls[|old(connection.calls)|..];
              var recipients := Recipients(accounts, tokenRepo.coll, providers.Keys, message);
              && (forall call :: call in calls ==> Carries(call, Own(), BodyOf(message, sealed)))
              && (forall call :: call in calls ==> RightPlatform(call, Own(), tokenRepo.coll))
              && invalidTokens.tokens
                 == old(invalidTokens.tokens) + ReportsOn(connection.client, |old(connection.calls)|, calls)
              && multiset(TokensOf(calls)) <= multiset(recipients)
              && (err == None ==> multiset(TokensOf(calls)) == multiset(recipients))
    {
      hide IdsOn, Recipients, Deliver, Group, Carries, DataOf, Addressed, Matches, RightPlatform, ReportsOn;
      order := [];
      var ok, fetched := tokenRepo.GetActiveTokensByAccountIds(accountIds, up);
      tokens := fetched;
      ReportsOnOne(connection.client, |connection.calls|, Call(0, [], BodyOf(message, sealed)));
      NothingFetched(connection.client, |connection.calls|, Own(), tokens, BodyOf(message, sealed));
      assert connection.calls[|old(connection.calls)|..] == [];
      if !ok { return Some(StorageError), tokens, order; }
      RecipientsFetched(accounts, tokenRepo.coll, providers.Keys, message, accountIds, tokens);
      if |fetched| == 0 {
        return None, tokens, order;
      }
      var data := BuildData(message, sealed);
      var byProvider := GroupByPlatform(fetched, Body(message.silent, data));
      err, order := SendGroups(byProvider, tokens, BodyOf(message, sealed));
      ghost var n, body := |old(connection.calls)|, BodyOf(message, sealed);
      DeliverCarries(connection.client, n, Own(), tokens, body, order);
      DeliverMatches(connection.client, n, Own(), tokens, body, order);
      DeliverReports(connection.client, n, Own(), tokens, body, order);
      forall call | call in Deliver(connection.client, n, Own(), tokens, body, order).calls
        ensures RightPlatform(call, Own(), tokenRepo.coll)
      {
        MatchesDevices(call, Own(), tokens, tokenRepo.coll);
      }
      Seqs.DropFirst(old(connection.calls), Deliver(connection.client, n, Own(), tokens, body, order).calls);
      assert Own().Keys == providers.Keys;
      DeliverAtMost(connection.client, n, Own(), tokens, body, order);
      if err == None {
        AllDelivered(connection.client, n, Own(), tokens, body, order);
      }
    }

    /** However it ends, the calls made hold only tokens of the message's recipients, each at most once, and
        when no error is returned, exactly the recipients' tokens. Every call carries the message. */
    method SendMessage(message: QueueMessage, sealed: bool, accountsUp: bool, tokensUp: bool)
      returns (err: Option<SendError>, ghost tokens: seq<Token>, ghost order: seq<Platform>)
      requires Valid() && AnswersEach(connection.client)
      modifies this`sendCount, this`sendTokens, connection`calls, invalidTokens
      ensures Valid() && old(connection.calls) <= connection.calls
      ensures !accountsUp || !tokensUp ==> err == Some(StorageError) && connection.calls == old(connection.calls)
      ensures accountsUp && tokensUp ==>
                var n, body := |old(connection.calls)|, BodyOf(message, sealed);
                var d := Deliver(connection.client, n, Own(), tokens, body, order);
                && NoDuplicates(order) && SetOfPlatforms(order) <= Platforms(tokens)
                && err == d.err
                && Shows(d, tokens, old(connection.calls), old(invalidTokens.tokens), old(sendCount), old(sendTokens))
                && multiset(IdsOn(tokens, providers.Keys))
                   == multiset(Recipients(accountRepo.coll, tokenRepo.coll, providers.Keys, message))
      ensures var calls := connection.calls[|old(connection.calls)|..];
              var recipients := Recipients(accountRepo.coll, tokenRepo.coll, providers.Keys, message);
              && (forall call :: call in calls ==> Carries(call, Own(), BodyOf(message, sealed)))
              && (forall call :: call in calls ==> RightPlatform(call, Own(), tokenRepo.coll))
              && invalidTokens.tokens
                 == old(invalidTokens.tokens) + ReportsOn(connection.client, |old(connection.calls)|, calls)
              && multiset(TokensOf(calls)) <= multiset(recipients)
              && (err == None ==> multiset(TokensOf(calls)) == multiset(recipients))
    {
      hide IdsOn, Recipients, Deliver, Group, Carries, DataOf, Addressed, RightPlatform, ReportsOn;
      ReportsOnOne(connection.client, |connection.calls|, Call(0, [], BodyOf(message, sealed)));
      order, tokens := [], [];
      var ok, accountIds := FetchAccounts(message, accountsUp);
      if !ok {
        assert connection.calls[|old(connection.calls)|..] == [];
        return Some(StorageError), tokens, order;
      }
      err, tokens, order := SendToAccounts(message, sealed, accountIds, accountRepo.coll, tokensUp);
    }
  }

  lemma {:induction false} NothingFetched(client: Client, n: nat, own: map<Platform, Platform>, ts: seq<Token>,
                                          body: Body)
    ensures Deliver(client, n, own, ts, body, []) == Delivery([], [], [], None)
    ensures forall served :: IdsOn([], served) == []
  {
  }

  lemma {:induction false} NoneVisited()
    ensures SetOfPlatforms([]) == {} && NoDuplicates<Platform>([])
  {
  }

  lemma {:induction false} OneMoreVisited(order: seq<Platform>, p: Platform)
    requires p !in SetOfPlatforms(order) && NoDuplicates(order)
    ensures SetOfPlatforms(order + [p]) == SetOfPlatforms(order) + {p} && NoDuplicates(order + [p])
  {
  }

  lemma {:induction false} DeliverOneMore(client: Client, n: nat, own: map<Platform, Platform>, ts: seq<Token>,
                                          body: Body, order: seq<Platform>, p: Platform)
    ensures Deliver(client, n, own, ts, body, order + [p])
            == DeliverNext(client, n, own, ts, body, Deliver(client, n, own, ts, body, order), p)
  {
    assert (order + [p])[..|order|] == order;
  }

  /** A call that carries `body`, made by a registered provider for the platform it was built for. */
  ghost predicate Carries(call: Call, own: map<Platform, Platform>, body: Body) {
    call.body == body && call.platform in own.Values
  }

  /** Every call of a delivery carries the same message. */
  lemma {:induction false} DeliverCarries(client: Client, n: nat, own: map<Platform, Platform>, ts: seq<Token>,
                                          body: Body, order: seq<Platform>)
    ensures var d := Deliver(client, n, own, ts, body, order);
            forall call :: call in d.calls ==> Carries(call, own, body)
  {
    if order != [] {
      var rest, p := order[..|order| - 1], order[|order| - 1];
      var d := Deliver(client, n, own, ts, body, rest);
      DeliverCarries(client, n, own, ts, body, rest);
      if p in own {
        SendCarries(client, n + |d.calls|, own[p], Group(ts, p), body);
      }
    }
  }

  /** The call holds only fetched tokens, each of the platform of the registered provider that made it. */
  ghost predicate Matches(call: Call, own: map<Platform, Platform>, ts: seq<Token>) {
    forall id :: id in call.tokens ==>
      exists t :: t in ts && t.id == id && t.device.platform in own && call.platform == own[t.device.platform]
  }

  lemma {:induction false} GroupMembers(ts: seq<Token>, p: Platform)
    ensures forall id :: id in Group(ts, p) ==> exists t :: t in ts && t.id == id && t.device.platform == p
  {
    if ts != [] {
      assert forall t :: t in ts <==> t in ts[..|ts| - 1] || t == ts[|ts| - 1];
      GroupMembers(ts[..|ts| - 1], p);
    }
  }

  lemma {:induction false} SendMatches(client: Client, n: nat, own: map<Platform, Platform>, ts: seq<Token>,
                                       body: Body, p: Platform)
    requires p in own
    ensures forall call :: call in Send(client, n, own[p], Group(ts, p), body).calls ==> Matches(call, own, ts)
  {
    hide Send, Group;
    var calls := Send(client, n, own[p], Group(ts, p), body).calls;
    SendCarries(client, n, own[p], Group(ts, p), body);
    SendPrefix(client, n, own[p], Group(ts, p), body);
    GroupMembers(ts, p);
    forall call | call in calls
      ensures Matches(call, own, ts)
    {
      forall id | id in call.tokens
        ensures id in Group(ts, p)
      {
        var i :| 0 <= i < |calls| && calls[i] == call;
        TokenOfCall(calls, i, id);
        var k :| 0 <= k < |TokensOf(calls)| && TokensOf(calls)[k] == id;
        assert Group(ts, p)[k] == id;
      }
    }
  }

  /** No token is sent through the provider of another platform. */
  lemma {:induction false} DeliverMatches(client: Client, n: nat, own: map<Platform, Platform>, ts: seq<Token>,
                                          body: Body, order: seq<Platform>)
    ensures forall call :: call in Deliver(client, n, own, ts, body, order).calls ==> Matches(call, own, ts)
  {
    hide Matches;
    if order != [] {
      var rest, p := order[..|order| - 1], order[|order| - 1];
      DeliverMatches(client, n, own, ts, body, rest);
      if p in own { SendMatches(client, n + |Deliver(client, n, own, ts, body, rest).calls|, own, ts, body, p); }
    }
  }

  /** A delivery reports what the answers to its calls call for. */
  lemma {:induction false} DeliverReports(client: Client, n: nat, own: map<Platform, Platform>, ts: seq<Token>,
                                          body: Body, order: seq<Platform>)
    requires AnswersEach(client)
    ensures var d := Deliver(client, n, own, ts, body, order); d.reports == ReportsOn(client, n, d.calls)
  {
    hide Send, Group, Reports, ReportsOn;
    if order == [] {
      ReportsOnOne(client, n, Call(0, [], body));
    } else {
      var rest, p := order[..|order| - 1], order[|order| - 1];
      DeliverReports(client, n, own, ts, body, rest);
      var d := Deliver(client, n, own, ts, body, rest);
      if d.err.None? && p in own {
        var group := Group(ts, p);
        SendReports(client, n + |d.calls|, own[p], group, body);
        ReportsOnConcat(client, n, d.calls, Send(client, n + |d.calls|, own[p], group, body).calls);
      }
    }
  }

  /** The call holds only devices of the platform of the registered provider that made it. */
  ghost predicate RightPlatform(call: Call, own: map<Platform, Platform>, devices: Devices) {
    forall id :: id in call.tokens ==>
      id in devices && devices[id].platform in own && call.platform == own[devices[id].platform]
  }

  lemma {:induction false} MatchesDevices(call: Call, own: map<Platform, Platform>, ts: seq<Token>, devices: Devices)
    requires Matches(call, own, ts)
    requires forall i :: 0 <= i < |ts| ==> ts[i].id in devices && ts[i].device == devices[ts[i].id]
    ensures RightPlatform(call, own, devices)
  {
  }

  /** Every order that visits all groups delivers the same tokens. */
  lemma {:induction false} AllDelivered(client: Client, n: nat, own: map<Platform, Platform>, ts: seq<Token>,
                                     body: Body, order: seq<Platform>)
    requires NoDuplicates(order) && SetOfPlatforms(order) == Platforms(ts)
    requires Deliver(client, n, own, ts, body, order).err.None?
    ensures multiset(TokensOf(Deliver(client, n, own, ts, body, order).calls)) == multiset(IdsOn(ts, own.Keys))
  {
    hide Deliver, IdsOn;
    DeliverAll(client, n, own, ts, body, order);
    IdsOnServed(ts, own.Keys);
  }

  lemma {:induction false} IdsOnServed(ts: seq<Token>, served: set<Platform>)
    ensures IdsOn(ts, Platforms(ts) * served) == IdsOn(ts, served)
  {
    IdsOnSame(ts, Platforms(ts) * served, served);
  }

  lemma {:induction false} IdsOnSame(ts: seq<Token>, ps: set<Platform>, qs: set<Platform>)
    requires forall t :: t in ts ==> (t.device.platform in ps <==> t.device.platform in qs)
    ensures IdsOn(ts, ps) == IdsOn(ts, qs)
  {
    if ts != [] {
      assert ts[|ts| - 1] in ts;
      IdsOnSame(ts[..|ts| - 1], ps, qs);
    }
  }

  /** The accounts a message is for: those that meet its topics, but not the ignored one. */
  ghost predicate Addressed(accounts: Accounts, msg: QueueMessage, ids: seq<AccountId>) {
    forall a :: a in ids <==> Meets(TopicsIn(accounts, a), msg.topics) && a != msg.ignoreAccountId
  }

  /** What the two queries fetch is the recipients, before platforms without a provider are passed over.
      `accounts` is what the first query saw and `devices` what the second one did. */
  lemma {:induction false} RecipientsFetched(accounts: Accounts, devices: Devices, served: set<Platform>,
                                             msg: QueueMessage,
                                             ids: seq<AccountId>, tokens: seq<Token>)
    requires Addressed(accounts, msg, ids)
    requires NoDuplicates(Ids(tokens))
    requires forall id :: id in Ids(tokens) <==> id in ActiveTokens(devices, SetOfAccounts(ids))
    requires forall i :: 0 <= i < |tokens| ==> tokens[i].id in devices && tokens[i].device == devices[tokens[i].id]
    ensures multiset(IdsOn(tokens, served)) == multiset(Recipients(accounts, devices, served, msg))
  {
    var all := Recipients(accounts, devices, served, msg);
    IdsOnMembers(tokens, served);
    IdsOnDistinct(tokens, served);
    forall id | id in all
      ensures id in IdsOn(tokens, served)
    {
      assert id in Ids(tokens);
      var i :| 0 <= i < |tokens| && Ids(tokens)[i] == id;
      assert tokens[i] in tokens;
    }
    forall id | id in IdsOn(tokens, served)
      ensures id in all
    {
      var t :| t in tokens && t.id == id && t.device.platform in served;
      var i :| 0 <= i < |tokens| && tokens[i] == t;
      assert Ids(tokens)[i] == id;
      assert id in ActiveTokens(devices, SetOfAccounts(ids));
    }
    CountsOfSet(IdsOn(tokens, served), all);
  }
}
