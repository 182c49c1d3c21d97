/**
 Whole runs of the subscription handlers: one after the other, and interleaved with an Unsubscribe
 that reads and writes in separate steps.
 */
module SubscriptionRuns {
  import opened GoInts
  import opened Wrappers
  import opened DomainTopic
  import opened AccountRepo
  import opened Crypto
  import opened Push
  import M = Messages
  import Seqs

  // ----- One request after another -----

  function Run(c: Crypto, rs: seq<Request>): Accounts {
    if rs == [] then map[] else Serve(c, Run(c, rs[..|rs| - 1]), rs[|rs| - 1])
  }

  /** A subscription as its owner sees it. */
  type Pair = (bytes, bytes)

  function Pairs(ts: seq<M.Topic>): (ps: seq<Pair>)
    ensures |ps| == |ts|
  {
    seq(|ts|, i requires 0 <= i < |ts| => (ts[i].fields.spaceKey, ts[i].fields.topic))
  }

  function Minus(ps: seq<Pair>, qs: seq<Pair>): seq<Pair> {
    if ps == [] then []
    else
      var rest, last := Minus(ps[..|ps| - 1], qs), ps[|ps| - 1];
      if last in qs then rest else rest + [last]
  }

  /** A removal keeps every other pair as often as it was there. */
  lemma {:induction false} MinusCounts(ps: seq<Pair>, qs: seq<Pair>, p: Pair)
    ensures multiset(Minus(ps, qs))[p] == if p in qs then 0 else multiset(ps)[p]
  {
    if ps != [] {
      var rest, last := ps[..|ps| - 1], ps[|ps| - 1];
      assert ps == rest + [last];
      MinusCounts(rest, qs, p);
    }
  }

  /** And it works pair by pair, so it keeps their order. */
  lemma {:induction false} MinusConcat(a: seq<Pair>, b: seq<Pair>, qs: seq<Pair>)
    ensures Minus(a + b, qs) == Minus(a, qs) + Minus(b, qs)
    decreases |b|
  {
    if b == [] {
      Seqs.RightUnit(a);
      Seqs.RightUnit(Minus(a, qs));
    } else {
      var rest, last := b[..|b| - 1], b[|b| - 1];
      assert (a + b)[..|a + b| - 1] == a + rest;
      MinusConcat(a, rest, qs);
      Seqs.ConcatAssoc(Minus(a, qs), Minus(rest, qs), [last]);
    }
  }

  /** What one account is subscribed to, from its own accepted requests alone: a subscription replaces,
      an unsubscription removes. */
  function Ledger(c: Crypto, rs: seq<Request>, a: AccountId): seq<Pair> {
    if rs == [] then []
    else
      var before, r := Ledger(c, rs[..|rs| - 1], a), rs[|rs| - 1];
      if r.account != a || ConvertTopics(c, r.topics).Failure? then before
      else if r.Subscribe? then Pairs(r.topics)
      else Minus(before, Pairs(r.topics))
  }

  function ToTopics(ps: seq<Pair>): (ts: seq<Topic>)
    ensures |ts| == |ps|
  {
    seq(|ps|, i requires 0 <= i < |ps| => NewTopic(ps[i].0, ps[i].1))
  }

  lemma {:induction false} ConvertedArePairs(c: Crypto, ts: seq<M.Topic>)
    requires ConvertTopics(c, ts).Success?
    ensures ConvertTopics(c, ts).value == ToTopics(Pairs(ts))
  {
    ConvertTopicsPointwise(c, ts);
    var ds := ConvertTopics(c, ts).value;
    forall i | 0 <= i < |ts|
      ensures ds[i] == ToTopics(Pairs(ts))[i]
    {
      assert CheckTopic(c, ts[i]) == Success(ds[i]);
    }
  }

  /** A stored topic is in a list exactly if its pair is, because topics are injective. */
  lemma {:induction false} MembersAgree(p: Pair, qs: seq<Pair>)
    ensures NewTopic(p.0, p.1) in ToTopics(qs) <==> p in qs
  {
    var t := NewTopic(p.0, p.1);
    forall i | 0 <= i < |qs|
      ensures ToTopics(qs)[i] == t <==> qs[i] == p
    {
      NewTopicInjective(qs[i].0, qs[i].1, p.0, p.1);
    }
  }

  lemma {:induction false} WithoutIsMinus(ps: seq<Pair>, qs: seq<Pair>)
    ensures Without(ToTopics(ps), SetOf(ToTopics(qs))) == ToTopics(Minus(ps, qs))
  {
    if ps != [] {
      var rest, last := ps[..|ps| - 1], ps[|ps| - 1];
      var ts := ToTopics(ps);
      assert ts[..|ts| - 1] == ToTopics(rest);
      WithoutIsMinus(rest, qs);
      MembersAgree(last, qs);
      assert ToTopics(Minus(rest, qs) + [last]) == ToTopics(Minus(rest, qs)) + [NewTopic(last.0, last.1)];
    }
  }

  /** After any run the store holds for every account what its own ledger says: other accounts'
      requests do not show, order and repetitions are kept. */
  lemma {:induction false} RunIsLedger(c: Crypto, rs: seq<Request>, a: AccountId)
    ensures TopicsIn(Run(c, rs), a) == ToTopics(Ledger(c, rs, a))
  {
    if rs != [] {
      var rest, r := rs[..|rs| - 1], rs[|rs| - 1];
      RunIsLedger(c, rest, a);
      if r.account == a && ConvertTopics(c, r.topics).Success? {
        ConvertedArePairs(c, r.topics);
        if r.Unsubscribe? {
          WithoutIsMinus(Ledger(c, rest, a), Pairs(r.topics));
          if ConvertTopics(c, r.topics).value == [] { MinusNothing(Ledger(c, rest, a), Pairs(r.topics)); }
        }
      }
    }
  }

  lemma {:induction false} MinusNothing(ps: seq<Pair>, qs: seq<Pair>)
    requires qs == []
    ensures Minus(ps, qs) == ps
  {
    if ps != [] {
      MinusNothing(ps[..|ps| - 1], qs);
      assert ps == ps[..|ps| - 1] + [ps[|ps| - 1]];
    }
  }

  /** Every pair in a ledger was verified, so its space key is a whole key. */
  lemma {:induction false} LedgerKeys(c: Crypto, rs: seq<Request>, a: AccountId)
    requires c.KeysHaveLength()
    ensures forall p :: p in Ledger(c, rs, a) ==> |p.0| == 32
  {
    if rs != [] {
      var rest, r := rs[..|rs| - 1], rs[|rs| - 1];
      LedgerKeys(c, rest, a);
      MinusMembers(Ledger(c, rest, a), Pairs(r.topics));
      if ConvertTopics(c, r.topics).Success? {
        ConvertTopicsPointwise(c, r.topics);
        assert forall i :: 0 <= i < |r.topics| ==> CheckTopic(c, r.topics[i]).Success?;
      }
    }
  }

  lemma {:induction false} MinusMembers(ps: seq<Pair>, qs: seq<Pair>)
    ensures forall p :: p in Minus(ps, qs) <==> p in ps && p !in qs
  {
    if ps != [] {
      MinusMembers(ps[..|ps| - 1], qs);
      assert forall p :: p in ps <==> p in ps[..|ps| - 1] || p == ps[|ps| - 1];
    }
  }

  function AsShown(ps: seq<Pair>): (ts: seq<M.Topic>)
    ensures |ts| == |ps|
  {
    seq(|ps|, i requires 0 <= i < |ps| => M.NEW_TOPIC.(fields := M.TopicFields(ps[i].0, ps[i].1, [])))
  }

  lemma {:induction false} ShownPairs(ps: seq<Pair>)
    requires forall p :: p in ps ==> p.0 != []
    ensures Shown(ToTopics(ps)) == Success(AsShown(ps))
  {
    hide NewTopic, SpaceKeyRaw, TopicName;
    if ps != [] {
      var rest, last := ps[..|ps| - 1], ps[|ps| - 1];
      var ts := ToTopics(ps);
      assert ts[..|ts| - 1] == ToTopics(rest);
      ShownPairs(rest);
      TopicParts(last.0, last.1);
      assert AsShown(ps) == AsShown(rest) + [AsShown(ps)[|ps| - 1]];
    }
  }

  /** Subscriptions never fails on what the handlers stored, and returns the ledger. */
  lemma {:induction false} SubscriptionsShowLedger(c: Crypto, rs: seq<Request>, a: AccountId)
    requires c.KeysHaveLength()
    ensures Shown(TopicsIn(Run(c, rs), a)) == Success(AsShown(Ledger(c, rs, a)))
  {
    RunIsLedger(c, rs, a);
    LedgerKeys(c, rs, a);
    ShownPairs(Ledger(c, rs, a));
  }

  /** The account index finds an account for some topics exactly if its ledger holds one of them. */
  lemma {:induction false} IndexFindsLedger(c: Crypto, rs: seq<Request>, a: AccountId, qs: seq<Pair>)
    ensures Meets(TopicsIn(Run(c, rs), a), ToTopics(qs)) <==> exists p :: p in Ledger(c, rs, a) && p in qs
  {
    RunIsLedger(c, rs, a);
    var ps := Ledger(c, rs, a);
    if Meets(ToTopics(ps), ToTopics(qs)) {
      var t :| t in ToTopics(ps) && t in ToTopics(qs);
      var i :| 0 <= i < |ps| && ToTopics(ps)[i] == t;
      MembersAgree(ps[i], qs);
      assert ps[i] in ps;
    }
    if exists p :: p in ps && p in qs {
      var p :| p in ps && p in qs;
      MembersAgree(p, ps);
      MembersAgree(p, qs);
    }
  }

  // ----- Interleaved requests -----

  function Execute(c: Crypto, es: seq<Event>): State {
    if es == [] then State(map[], map[]) else Step(c, Execute(c, es[..|es| - 1]), es[|es| - 1])
  }

  /** An earlier subscribe request of this account, all of whose signatures were checked and found valid,
      carried the topic, signed with the key that the topic names. */
  ghost predicate Authorised(c: Crypto, es: seq<Event>, a: AccountId, t: Topic) {
    exists k: nat, i: nat :: Carried(c, es, a, t, k, i)
  }

  predicate Carried(c: Crypto, es: seq<Event>, a: AccountId, t: Topic, k: nat, i: nat) {
    && k < |es| && es[k].Set? && es[k].account == a && i < |es[k].topics|
    && (forall j :: 0 <= j < |es[k].topics| ==> Signed(c, es[k].topics[j]))
    && var x := es[k].topics[i].fields;
       && t == NewTopic(x.spaceKey, x.topic)
       && c.unmarshal(x.spaceKey).Success?
       && c.verify(c.unmarshal(x.spaceKey).value, x.topic, x.signature) == Success(true)
  }

  ghost predicate AllAuthorised(c: Crypto, es: seq<Event>, a: AccountId, ts: seq<Topic>) {
    forall t :: t in ts ==> Authorised(c, es, a, t)
  }

  lemma {:induction false} SetAuthorises(c: Crypto, es: seq<Event>, a: AccountId, topics: seq<M.Topic>)
    requires ConvertTopics(c, topics).Success?
    ensures AllAuthorised(c, es + [Set(a, topics)], a, ConvertTopics(c, topics).value)
  {
    hide NewTopic, ConvertTopics;
    ConvertTopicsVerified(c, topics);
    var es' := es + [Set(a, topics)];
    assert es'[|es|] == Set(a, topics);
    forall t | t in ConvertTopics(c, topics).value
      ensures Authorised(c, es', a, t)
    {
      var i :| 0 <= i < |topics| && ConvertTopics(c, topics).value[i] == t;
      assert Signed(c, topics[i]);
      assert Carried(c, es', a, t, |es|, i);
    }
  }

  lemma {:induction false} AuthorisedLater(c: Crypto, es: seq<Event>, e: Event, a: AccountId, ts: seq<Topic>)
    requires AllAuthorised(c, es, a, ts)
    ensures AllAuthorised(c, es + [e], a, ts)
  {
    forall t | t in ts
      ensures Authorised(c, es + [e], a, t)
    {
      var k: nat, i: nat :| Carried(c, es, a, t, k, i);
      assert (es + [e])[k] == es[k];
      assert Carried(c, es + [e], a, t, k, i);
    }
  }

  ghost predicate Safe(c: Crypto, es: seq<Event>, s: State) {
    && (forall a :: a in s.coll ==> AllAuthorised(c, es, a, s.coll[a]))
    && (forall rid :: rid in s.pending ==> AllAuthorised(c, es, s.pending[rid].account, s.pending[rid].remaining))
  }

  lemma {:induction false} SafeStep(c: Crypto, es: seq<Event>, e: Event, s: State)
    requires Safe(c, es, s)
    ensures Safe(c, es + [e], Step(c, s, e))
  {
    hide ConvertTopics, Authorised;
    var es', s' := es + [e], Step(c, s, e);
    if e.Set? && ConvertTopics(c, e.topics).Success? { SetAuthorises(c, es, e.account, e.topics); }
    forall a | a in s'.coll
      ensures AllAuthorised(c, es', a, s'.coll[a])
    {
      if a in s.coll { AuthorisedLater(c, es, e, a, s.coll[a]); }
      if e.Write? && e.rid in s.pending {
        AuthorisedLater(c, es, e, s.pending[e.rid].account, s.pending[e.rid].remaining);
      }
    }
    forall rid | rid in s'.pending
      ensures AllAuthorised(c, es', s'.pending[rid].account, s'.pending[rid].remaining)
    {
      if rid in s.pending { AuthorisedLater(c, es, e, s.pending[rid].account, s.pending[rid].remaining); }
      if e.Read? && e.account in s.coll { AuthorisedLater(c, es, e, e.account, s.coll[e.account]); }
    }
  }

  /** In every run, however the steps interleave, the signature of every stored topic was checked and found
      valid in an earlier subscribe request of the same account. A lost update can bring back topics, but never foreign
      or unverified ones. */
  lemma {:induction false} EveryRunSafe(c: Crypto, es: seq<Event>)
    ensures Safe(c, es, Execute(c, es))
  {
    if es != [] {
      var rest, e := es[..|es| - 1], es[|es| - 1];
      EveryRunSafe(c, rest);
      SafeStep(c, rest, e, Execute(c, rest));
      assert es == rest + [e];
    }
  }

  /** A topic that was verified decodes. */
  lemma {:induction false} AuthorisedDecodes(c: Crypto, es: seq<Event>, a: AccountId, t: Topic)
    requires c.KeysHaveLength() && Authorised(c, es, a, t)
    ensures SpaceKeyRaw(t).Some?
  {
    hide NewTopic, SpaceKeyRaw;
    var k: nat, i: nat :| Carried(c, es, a, t, k, i);
    var x := es[k].topics[i].fields;
    TopicParts(x.spaceKey, x.topic);
  }

  /** A stored list is shown exactly if every topic in it decodes, each as its raw key and its name, in order. */
  lemma {:induction false} ShownExactly(ts: seq<Topic>)
    ensures Shown(ts).Success? <==> forall t :: t in ts ==> SpaceKeyRaw(t).Some?
    ensures Shown(ts).Success? ==>
              && |Shown(ts).value| == |ts|
              && forall i :: 0 <= i < |ts| ==>
                   && SpaceKeyRaw(ts[i]).Some?
                   && Shown(ts).value[i]
                      == M.NEW_TOPIC.(fields := M.TopicFields(SpaceKeyRaw(ts[i]).value, TopicName(ts[i]), []))
    ensures Shown(ts).Failure? ==> Shown(ts).error == BadStoredTopic
  {
    hide SpaceKeyRaw, TopicName;
    if ts != [] {
      var rest, last := ts[..|ts| - 1], ts[|ts| - 1];
      assert forall t :: t in ts <==> t in rest || t == last;
      ShownExactly(rest);
    }
  }

  /** A lost update does happen: of two Unsubscribe requests whose reads both come first, the later write
      brings back what the earlier one removed. */
  lemma {:induction false} UnsubscribesCollide(c: Crypto, a: AccountId, x: M.Topic, y: M.Topic)
    requires CheckTopic(c, x).Success? && CheckTopic(c, y).Success? && CheckTopic(c, x).value != CheckTopic(c, y).value
    ensures var es := [Set(a, [x, y]), Read(0, a, [x]), Read(1, a, [y]), Write(0), Write(1)];
            TopicsIn(Execute(c, es).coll, a) == [CheckTopic(c, x).value]
  {
    hide CheckTopic, ConvertTopics, Without, Execute;
    var e0, e1, e2, e3, e4 := Set(a, [x, y]), Read(0, a, [x]), Read(1, a, [y]), Write(0), Write(1);
    var s, t := CheckTopic(c, x).value, CheckTopic(c, y).value;
    ConvertOne(c, x);
    ConvertOne(c, y);
    ConvertTopicsAppend(c, [x], y);
    assert [x] + [y] == [x, y] && [s] + [t] == [s, t];
    WithoutOne(s, t);
    ExecuteNext(c, [], e0);
    ExecuteNext(c, [e0], e1);
    ExecuteNext(c, [e0, e1], e2);
    ExecuteNext(c, [e0, e1, e2], e3);
    ExecuteNext(c, [e0, e1, e2, e3], e4);
    assert [] + [e0] == [e0] && [e0] + [e1] == [e0, e1] && [e0, e1] + [e2] == [e0, e1, e2];
    assert [e0, e1, e2] + [e3] == [e0, e1, e2, e3] && [e0, e1, e2, e3] + [e4] == [e0, e1, e2, e3, e4];
    assert Execute(c, [e0]).coll == map[a := [s, t]];
    assert Execute(c, [e0, e1, e2]).pending == map[0 := Pending(a, [t]), 1 := Pending(a, [s])];
  }

  lemma {:induction false} ExecuteNext(c: Crypto, es: seq<Event>, e: Event)
    ensures Execute(c, es + [e]) == Step(c, Execute(c, es), e)
    ensures es == [] ==> Execute(c, es) == State(map[], map[])
  {
    assert (es + [e])[..|es|] == es;
  }

  lemma {:induction false} ConvertOne(c: Crypto, x: M.Topic)
    requires CheckTopic(c, x).Success?
    ensures ConvertTopics(c, [x]) == Success([CheckTopic(c, x).value])
  {
    ConvertTopicsAppend(c, [], x);
    assert [] + [x] == [x] && [] + [CheckTopic(c, x).value] == [CheckTopic(c, x).value];
  }

  lemma {:induction false} WithoutOne(s: Topic, t: Topic)
    requires s != t
    ensures Without([s, t], SetOf([s])) == [t] && Without([s, t], SetOf([t])) == [s]
  {
    assert [s, t][..1] == [s] && [s][..0] == [];
    assert Without([s], SetOf([s])) == [] && Without([s], SetOf([t])) == [s];
  }

  /** In every interleaved run Subscriptions succeeds for every account. */
  lemma {:induction false} SubscriptionsNeverFail(c: Crypto, es: seq<Event>, a: AccountId)
    requires c.KeysHaveLength()
    ensures Shown(TopicsIn(Execute(c, es).coll, a)).Success?
  {
    EveryRunSafe(c, es);
    var ts := TopicsIn(Execute(c, es).coll, a);
    forall t | t in ts
      ensures SpaceKeyRaw(t).Some?
    {
      AuthorisedDecodes(c, es, a, t);
    }
    ShownExactly(ts);
  }
}
