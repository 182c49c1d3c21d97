/**
 When an interleaved run has the effect of its requests one after the other, in the order of their
 writes, and what is lost when it does not.
 */
module Interleavings {
  import opened Wrappers
  import opened DomainTopic
  import opened AccountRepo
  import opened Crypto
  import opened Push
  import opened SubscriptionRuns
  import M = Messages
  import Seqs

  // ----- Which read a write belongs to -----

  /** The topics an Unsubscribe asks to remove; nothing if it fails verification. */
  function Removed(c: Crypto, topics: seq<M.Topic>): set<Topic> {
    match ConvertTopics(c, topics)
    case Failure(_) => {}
    case Success(ts) => SetOf(ts)
  }

  /** The verification succeeds and there is something to remove, so a write will follow. */
  predicate Proceeds(c: Crypto, topics: seq<M.Topic>) {
    ConvertTopics(c, topics).Success? && ConvertTopics(c, topics).value != []
  }

  /** The position of the read whose write, for `rid`, is still to come. */
  function OpenRead(c: Crypto, es: seq<Event>, rid: nat): (j: Option<nat>)
    ensures j.Some? ==> j.value < |es| && es[j.value].Read? && es[j.value].rid == rid && Proceeds(c, es[j.value].topics)
  {
    if es == [] then None
    else
      var rest, e := es[..|es| - 1], es[|es| - 1];
      match e
      case Read(r, _, topics) => if r == rid && Proceeds(c, topics) then Some(|rest|) else OpenRead(c, rest, rid)
      case Write(r) => if r == rid then None else OpenRead(c, rest, rid)
      case _ => OpenRead(c, rest, rid)
  }

  /** What account `a` holds after the events. */
  function Held(c: Crypto, es: seq<Event>, a: AccountId): seq<Topic> {
    TopicsIn(Execute(c, es).coll, a)
  }

  /** The requests of a run, in the order of their writes. */
  function Serialised(c: Crypto, es: seq<Event>): seq<Request> {
    if es == [] then []
    else
      var rest, e := es[..|es| - 1], es[|es| - 1];
      match e
      case Set(a, topics) => Serialised(c, rest) + [Request.Subscribe(a, topics)]
      case Write(rid) =>
        (match OpenRead(c, rest, rid)
         case None => Serialised(c, rest)
         case Some(j) => Serialised(c, rest) + [Request.Unsubscribe(rest[j].account, rest[j].topics)])
      case _ => Serialised(c, rest)
  }

  lemma {:induction false} OpenReadNext(c: Crypto, es: seq<Event>, e: Event, rid: nat)
    ensures OpenRead(c, es + [e], rid)
            == match e
               case Read(r, _, topics) => if r == rid && Proceeds(c, topics) then Some(|es|) else OpenRead(c, es, rid)
               case Write(r) => if r == rid then None else OpenRead(c, es, rid)
               case _ => OpenRead(c, es, rid)
  {
    assert (es + [e])[..|es|] == es;
  }

  lemma {:induction false} SerialisedNext(c: Crypto, es: seq<Event>, e: Event)
    ensures Serialised(c, es + [e])
            == match e
               case Set(a, topics) => Serialised(c, es) + [Request.Subscribe(a, topics)]
               case Write(rid) =>
                 (match OpenRead(c, es, rid)
                  case None => Serialised(c, es)
                  case Some(j) => Serialised(c, es) + [Request.Unsubscribe(es[j].account, es[j].topics)])
               case _ => Serialised(c, es)
  {
    assert (es + [e])[..|es|] == es;
  }

  lemma {:induction false} RunNext(c: Crypto, rs: seq<Request>, r: Request)
    ensures Run(c, rs + [r]) == Serve(c, Run(c, rs), r)
  {
    assert (rs + [r])[..|rs|] == rs;
  }

  lemma {:induction false} Take<T>(s: seq<T>, n: nat)
    requires n < |s|
    ensures s[..n + 1] == s[..n] + [s[n]]
  {
  }

  /** A request is about to write exactly if its read is open, and then what it computed from the list
      it read. */
  ghost predicate PendingMatches(c: Crypto, es: seq<Event>, rid: nat) {
    var pending, open := Execute(c, es).pending, OpenRead(c, es, rid);
    && (rid in pending <==> open.Some?)
    && (open.Some? ==>
          var Read(_, a, topics) := es[open.value];
          pending[rid] == Pending(a, Without(Held(c, es[..open.value], a), Removed(c, topics))))
  }

  lemma {:induction false} PendingStep(c: Crypto, es: seq<Event>, e: Event, rid: nat)
    requires PendingMatches(c, es, rid)
    ensures PendingMatches(c, es + [e], rid)
  {
    hide Execute, OpenRead, Without;
    var open := OpenRead(c, es, rid);
    OpenReadNext(c, es, e, rid);
    ExecuteNext(c, es, e);
    if open.Some? { assert (es + [e])[..open.value] == es[..open.value]; }
    assert (es + [e])[..|es|] == es;
  }

  lemma {:induction false} PendingIsOpenRead(c: Crypto, es: seq<Event>, rid: nat)
    ensures PendingMatches(c, es, rid)
  {
    hide PendingMatches;
    if es == [] {
      NothingPending(c, rid);
    } else {
      PendingIsOpenRead(c, es[..|es| - 1], rid);
      PendingStep(c, es[..|es| - 1], es[|es| - 1], rid);
      Take(es, |es| - 1);
      assert es[..|es|] == es;
    }
  }

  lemma {:induction false} NothingPending(c: Crypto, rid: nat)
    ensures PendingMatches(c, [], rid)
  {
  }

  // ----- One write -----

  /** A write sets the account to what its read left over, whatever was written in between; it equals the
      unsubscription at that moment exactly if the list read and the present one agree on what is kept. */
  lemma {:induction false} WriteSettles(c: Crypto, es: seq<Event>, rid: nat)
    requires OpenRead(c, es, rid).Some?
    ensures var j := OpenRead(c, es, rid).value;
            var Read(_, a, topics) := es[j];
            var kept := Without(Held(c, es[..j], a), Removed(c, topics));
            && Execute(c, es + [Write(rid)]).coll == Execute(c, es).coll[a := kept]
            && (Execute(c, es + [Write(rid)]).coll == Serve(c, Execute(c, es).coll, Request.Unsubscribe(a, topics))
                <==> kept == Without(Held(c, es, a), Removed(c, topics)))
  {
    PendingIsOpenRead(c, es, rid);
    ExecuteNext(c, es, Write(rid));
    var j := OpenRead(c, es, rid).value;
    var Read(_, a, topics) := es[j];
    var kept, now := Without(Held(c, es[..j], a), Removed(c, topics)), Without(Held(c, es, a), Removed(c, topics));
    var coll := Execute(c, es).coll;
    assert coll[a := kept][a] == kept && coll[a := now][a] == now;
  }

  /** If `e` is the write of an unsubscription of `a`, the list it read and the present one agree on what is
      kept. */
  predicate ReadIsCurrent(c: Crypto, es: seq<Event>, e: Event, a: AccountId) {
    e.Write? ==>
      match OpenRead(c, es, e.rid)
      case None => true
      case Some(j) =>
        es[j].account == a ==>
          Without(Held(c, es[..j], a), Removed(c, es[j].topics)) == Without(Held(c, es, a), Removed(c, es[j].topics))
  }

  /** What the account holds is what its requests, in the order of their writes, left it with. */
  predicate HoldsLedger(c: Crypto, es: seq<Event>, a: AccountId) {
    Held(c, es, a) == ToTopics(Ledger(c, Serialised(c, es), a))
  }

  lemma {:induction false} LedgerStep(c: Crypto, es: seq<Event>, e: Event, a: AccountId)
    requires HoldsLedger(c, es, a)
    ensures HoldsLedger(c, es + [e], a) <==> ReadIsCurrent(c, es, e, a)
  {
    hide Execute, Run, Ledger, OpenRead, Serialised, Without;
    var rs := Serialised(c, es);
    RunIsLedger(c, rs, a);
    RunIsLedger(c, Serialised(c, es + [e]), a);
    SerialisedNext(c, es, e);
    ExecuteNext(c, es, e);
    if e.Set? {
      RunNext(c, rs, Request.Subscribe(e.account, e.topics));
    } else if e.Write? {
      PendingIsOpenRead(c, es, e.rid);
      if OpenRead(c, es, e.rid).Some? {
        WriteSettles(c, es, e.rid);
        var Read(_, b, topics) := es[OpenRead(c, es, e.rid).value];
        RunNext(c, rs, Request.Unsubscribe(b, topics));
      }
    }
  }

  /** Through a whole run an account holds what its own requests say, in the order of their writes, exactly
      if each of its unsubscriptions writes while the list it read is current. */
  lemma {:induction false} RunsHoldLedger(c: Crypto, es: seq<Event>, a: AccountId)
    ensures (forall n :: 0 <= n <= |es| ==> HoldsLedger(c, es[..n], a))
            <==> (forall k :: 0 <= k < |es| ==> ReadIsCurrent(c, es[..k], es[k], a))
  {
    hide HoldsLedger, ReadIsCurrent;
    if forall n :: 0 <= n <= |es| ==> HoldsLedger(c, es[..n], a) {
      forall k | 0 <= k < |es|
        ensures ReadIsCurrent(c, es[..k], es[k], a)
      {
        assert HoldsLedger(c, es[..k], a) && HoldsLedger(c, es[..k + 1], a);
        LedgerStep(c, es[..k], es[k], a);
        Take(es, k);
      }
    }
    if forall k :: 0 <= k < |es| ==> ReadIsCurrent(c, es[..k], es[k], a) {
      forall n | 0 <= n <= |es|
        ensures HoldsLedger(c, es[..n], a)
      {
        CurrentHoldsLedger(c, es, n, a);
      }
    }
  }

  lemma {:induction false} CurrentHoldsLedger(c: Crypto, es: seq<Event>, n: nat, a: AccountId)
    requires n <= |es| && forall k :: 0 <= k < n ==> ReadIsCurrent(c, es[..k], es[k], a)
    ensures HoldsLedger(c, es[..n], a)
  {
    hide ReadIsCurrent, HoldsLedger;
    if n == 0 {
      NothingHoldsLedger(c, a);
    } else {
      CurrentHoldsLedger(c, es, n - 1, a);
      LedgerStep(c, es[..n - 1], es[n - 1], a);
      Take(es, n - 1);
    }
  }

  lemma {:induction false} NothingHoldsLedger(c: Crypto, a: AccountId)
    ensures HoldsLedger(c, [], a)
  {
  }

  // ----- Undisturbed runs -----

  /** The last event writes the list of account `a`: an accepted subscription or an unsubscription's write. */
  predicate Touches(c: Crypto, es: seq<Event>, e: Event, a: AccountId) {
    match e
    case Set(b, topics) => b == a && ConvertTopics(c, topics).Success?
    case Write(rid) =>
      (match OpenRead(c, es, rid)
       case None => false
       case Some(j) => es[j].account == a)
    case _ => false
  }

  /** No event from position `j` on writes the list of `a`. */
  ghost predicate Untouched(c: Crypto, es: seq<Event>, j: nat, a: AccountId) {
    forall i :: j <= i < |es| ==> !Touches(c, es[..i], es[i], a)
  }

  /** Between the read and the write of an unsubscription of `a` nobody else writes its list. */
  ghost predicate Undisturbed(c: Crypto, es: seq<Event>, a: AccountId) {
    forall k ::
      0 <= k < |es| && es[k].Write? && Touches(c, es[..k], es[k], a) ==>
        Untouched(c, es[..k], OpenRead(c, es[..k], es[k].rid).value, a)
  }

  lemma {:induction false} UntouchedKeeps(c: Crypto, es: seq<Event>, j: nat, a: AccountId)
    requires j <= |es| && Untouched(c, es, j, a)
    ensures Held(c, es, a) == Held(c, es[..j], a)
    decreases |es|
  {
    if j < |es| {
      var rest, e := es[..|es| - 1], es[|es| - 1];
      assert forall i :: j <= i < |rest| ==> rest[..i] == es[..i] && rest[i] == es[i];
      assert forall i :: j <= i < |es| ==> !Touches(c, es[..i], es[i], a);
      assert !Touches(c, rest, e, a);
      UntouchedKeeps(c, rest, j, a);
      assert rest[..j] == es[..j];
      if e.Write? { PendingIsOpenRead(c, rest, e.rid); }
    } else {
      assert es[..j] == es;
    }
  }

  /** An unsubscription whose account nobody else writes between its read and its write has the effect of
      serving it at its write. */
  lemma {:induction false} UndisturbedWriteServes(c: Crypto, es: seq<Event>, rid: nat)
    requires OpenRead(c, es, rid).Some?
    requires var j := OpenRead(c, es, rid).value; Untouched(c, es, j, es[j].account)
    ensures var Read(_, a, topics) := es[OpenRead(c, es, rid).value];
            Execute(c, es + [Write(rid)]).coll == Serve(c, Execute(c, es).coll, Request.Unsubscribe(a, topics))
  {
    hide Execute, OpenRead, Untouched, Without, Serve;
    var j := OpenRead(c, es, rid).value;
    UntouchedKeeps(c, es, j, es[j].account);
    WriteSettles(c, es, rid);
  }

  /** An interleaved run in which no write of an account falls between the read and the write of another of
      its unsubscriptions leaves it with what its own requests say, in the order of their writes. */
  lemma {:induction false} UndisturbedHoldsLedger(c: Crypto, es: seq<Event>, a: AccountId)
    requires Undisturbed(c, es, a)
    ensures Held(c, es, a) == ToTopics(Ledger(c, Serialised(c, es), a))
  {
    hide Execute, Ledger, OpenRead, Serialised, Without, Untouched;
    forall k | 0 <= k < |es|
      ensures ReadIsCurrent(c, es[..k], es[k], a)
    {
      if es[k].Write? && Touches(c, es[..k], es[k], a) {
        UntouchedKeeps(c, es[..k], OpenRead(c, es[..k], es[k].rid).value, a);
      }
    }
    CurrentHoldsLedger(c, es, |es|, a);
    assert es[..|es|] == es;
  }

  // ----- One request after another -----

  /** The run in which every write follows its read at once. */
  function Schedule(rs: seq<Request>): seq<Event> {
    if rs == [] then []
    else
      var r := rs[|rs| - 1];
      Schedule(rs[..|rs| - 1])
      + match r
        case Subscribe(a, topics) => [Set(a, topics)]
        case Unsubscribe(a, topics) => [Read(0, a, topics), Write(0)]
  }

  lemma {:induction false} ScheduleRuns(c: Crypto, rs: seq<Request>)
    ensures Execute(c, Schedule(rs)) == State(Run(c, rs), map[])
  {
    hide Execute, ConvertTopics, Without, TopicsIn;
    if rs == [] {
      ExecuteNext(c, [], Other);
    } else {
      var rest, r := rs[..|rs| - 1], rs[|rs| - 1];
      var es := Schedule(rest);
      ScheduleRuns(c, rest);
      if r.Subscribe? {
        ExecuteNext(c, es, Set(r.account, r.topics));
      } else {
        var read := Read(0, r.account, r.topics);
        ExecuteNext(c, es, read);
        ExecuteNext(c, es + [read], Write(0));
        Seqs.ConcatAssoc(es, [read], [Write(0)]);
        assert [read] + [Write(0)] == [read, Write(0)];
        ReadThenWrite(c, Execute(c, es), 0, r.account, r.topics);
      }
    }
  }

  // ----- What is lost when a write falls in between -----

  /** The event writes for `rid` or reads for it anew. */
  predicate Concerns(c: Crypto, e: Event, rid: nat) {
    e == Write(rid) || (e.Read? && e.rid == rid && Proceeds(c, e.topics))
  }

  ghost predicate NoneConcerns(c: Crypto, es: seq<Event>, rid: nat) {
    forall i :: 0 <= i < |es| ==> !Concerns(c, es[i], rid)
  }

  /** States that differ at most in the list of `a` and in what is pending for it, but not in `rid`. */
  ghost predicate AlikeBut(s: State, s': State, a: AccountId, rid: nat) {
    && (forall b :: b != a ==> (b in s.coll <==> b in s'.coll))
    && (forall b :: b != a && b in s.coll ==> s.coll[b] == s'.coll[b])
    && (forall r :: PendingElsewhere(s, a, r) <==> PendingElsewhere(s', a, r))
    && (forall r :: PendingElsewhere(s, a, r) ==> s.pending[r] == s'.pending[r])
    && rid in s.pending && rid in s'.pending && s.pending[rid] == s'.pending[rid] && s.pending[rid].account == a
  }

  ghost predicate PendingElsewhere(s: State, a: AccountId, rid: nat) {
    rid in s.pending && s.pending[rid].account != a
  }

  lemma {:induction false} AlikeStep(c: Crypto, s: State, s': State, e: Event, a: AccountId, rid: nat)
    requires AlikeBut(s, s', a, rid) && !Concerns(c, e, rid)
    ensures AlikeBut(Step(c, s, e), Step(c, s', e), a, rid)
  {
    hide ConvertTopics, Without, AlikeBut;
    match e
    case Write(r) => AlikeOtherWrite(c, s, s', r, a, rid);
    case Read(r, b, topics) =>
      if Proceeds(c, topics) {
        var removed := SetOf(ConvertTopics(c, topics).value);
        AlikeLists(s, s', b, a, rid);
        AlikeOtherRead(s, s', r, Pending(b, Without(TopicsIn(s.coll, b), removed)),
                       Pending(b, Without(TopicsIn(s'.coll, b), removed)), a, rid);
      }
    case Set(b, topics) =>
      if ConvertTopics(c, topics).Success? { AlikeSet(s, s', b, ConvertTopics(c, topics).value, a, rid); }
    case Other =>
  }

  lemma {:induction false} AlikeLists(s: State, s': State, b: AccountId, a: AccountId, rid: nat)
    requires AlikeBut(s, s', a, rid)
    ensures b != a ==> TopicsIn(s.coll, b) == TopicsIn(s'.coll, b)
  {
  }

  lemma {:induction false} AlikeSet(s: State, s': State, b: AccountId, ts: seq<Topic>, a: AccountId, rid: nat)
    requires AlikeBut(s, s', a, rid)
    ensures AlikeBut(s.(coll := s.coll[b := ts]), s'.(coll := s'.coll[b := ts]), a, rid)
  {
    var n, n' := s.(coll := s.coll[b := ts]), s'.(coll := s'.coll[b := ts]);
    assert forall r :: PendingElsewhere(n, a, r) <==> PendingElsewhere(s, a, r);
    assert forall r :: PendingElsewhere(n', a, r) <==> PendingElsewhere(s', a, r);
  }

  lemma {:induction false} AlikeOtherRead(s: State, s': State, r: nat, p: Pending, p': Pending, a: AccountId, rid: nat)
    requires AlikeBut(s, s', a, rid) && r != rid
    requires p.account == p'.account && (p.account != a ==> p == p')
    ensures AlikeBut(s.(pending := s.pending[r := p]), s'.(pending := s'.pending[r := p']), a, rid)
  {
    var n, n' := s.(pending := s.pending[r := p]), s'.(pending := s'.pending[r := p']);
    forall q
      ensures PendingElsewhere(n, a, q) <==> PendingElsewhere(n', a, q)
      ensures PendingElsewhere(n, a, q) ==> n.pending[q] == n'.pending[q]
    {
      assert PendingElsewhere(s, a, q) <==> PendingElsewhere(s', a, q);
    }
  }

  lemma {:induction false} AlikeOtherWrite(c: Crypto, s: State, s': State, r: nat, a: AccountId, rid: nat)
    requires AlikeBut(s, s', a, rid) && r != rid
    ensures AlikeBut(Step(c, s, Write(r)), Step(c, s', Write(r)), a, rid)
  {
    var n, n' := Step(c, s, Write(r)), Step(c, s', Write(r));
    assert PendingElsewhere(s, a, r) <==> PendingElsewhere(s', a, r);
    forall q
      ensures PendingElsewhere(n, a, q) <==> PendingElsewhere(n', a, q)
      ensures PendingElsewhere(n, a, q) ==> n.pending[q] == n'.pending[q]
    {
      assert PendingElsewhere(s, a, q) <==> PendingElsewhere(s', a, q);
    }
  }

  lemma {:induction false} AlikeRuns(c: Crypto, es: seq<Event>, es': seq<Event>, after: seq<Event>,
                                     a: AccountId, rid: nat)
    requires AlikeBut(Execute(c, es), Execute(c, es'), a, rid) && NoneConcerns(c, after, rid)
    ensures AlikeBut(Execute(c, es + after), Execute(c, es' + after), a, rid)
    decreases |after|
  {
    hide Execute, AlikeBut, Concerns, Step;
    if after == [] {
      Seqs.RightUnit(es);
      Seqs.RightUnit(es');
    } else {
      var rest, e := after[..|after| - 1], after[|after| - 1];
      assert after == rest + [e];
      assert forall i :: 0 <= i < |rest| ==> rest[i] == after[i];
      AlikeRuns(c, es, es', rest, a, rid);
      AlikeStep(c, Execute(c, es + rest), Execute(c, es' + rest), e, a, rid);
      Seqs.ConcatAssoc(es, rest, [e]);
      Seqs.ConcatAssoc(es', rest, [e]);
      ExecuteNext(c, es + rest, e);
      ExecuteNext(c, es' + rest, e);
    }
  }

  lemma {:induction false} AlikeAfterUpdate(c: Crypto, es: seq<Event>, e: Event, rid: nat)
    requires OpenRead(c, es, rid).Some? && e != Write(rid)
    requires Touches(c, es, e, es[OpenRead(c, es, rid).value].account)
    ensures AlikeBut(Execute(c, es), Execute(c, es + [e]), es[OpenRead(c, es, rid).value].account, rid)
  {
    hide Execute, OpenRead, Without, ConvertTopics, Removed, Held;
    ExecuteNext(c, es, e);
    PendingIsOpenRead(c, es, rid);
    if e.Write? { PendingIsOpenRead(c, es, e.rid); }
  }

  lemma {:induction false} AlikeWrite(c: Crypto, s: State, s': State, a: AccountId, rid: nat)
    requires AlikeBut(s, s', a, rid)
    ensures Step(c, s, Write(rid)).coll == Step(c, s', Write(rid)).coll
  {
    var coll, coll' := Step(c, s, Write(rid)).coll, Step(c, s', Write(rid)).coll;
    forall b
      ensures (b in coll <==> b in coll') && (b in coll ==> coll[b] == coll'[b])
    {
    }
  }

  /** Any update of the account between a read and its write leaves no trace: once that write is made, the
      store is what it would have been without the update, whatever other events come before and after it. */
  lemma {:induction false} UpdateLost(c: Crypto, before: seq<Event>, e: Event, after: seq<Event>, rid: nat)
    requires OpenRead(c, before, rid).Some? && e != Write(rid)
    requires Touches(c, before, e, before[OpenRead(c, before, rid).value].account)
    requires NoneConcerns(c, after, rid)
    ensures Execute(c, before + [e] + after + [Write(rid)]).coll == Execute(c, before + after + [Write(rid)]).coll
  {
    hide Execute, OpenRead, Touches, AlikeBut, NoneConcerns, Step;
    var a := before[OpenRead(c, before, rid).value].account;
    AlikeAfterUpdate(c, before, e, rid);
    AlikeRuns(c, before, before + [e], after, a, rid);
    ExecuteNext(c, before + after, Write(rid));
    ExecuteNext(c, before + [e] + after, Write(rid));
    AlikeWrite(c, Execute(c, before + after), Execute(c, before + [e] + after), a, rid);
  }

  /** A subscription between a read and its write goes unnoticed exactly if its list and the list read agree
      on what the unsubscription keeps. */
  lemma {:induction false} SubscriptionLost(c: Crypto, before: seq<Event>, a: AccountId, topics: seq<M.Topic>,
                                            after: seq<Event>, rid: nat)
    requires ConvertTopics(c, topics).Success?
    requires var es := before + [Set(a, topics)] + after;
             && Untouched(c, es, |before| + 1, a)
             && OpenRead(c, es, rid).Some? && OpenRead(c, es, rid).value < |before|
             && es[OpenRead(c, es, rid).value].account == a
    ensures var es := before + [Set(a, topics)] + after;
            var j := OpenRead(c, es, rid).value;
            HoldsLedger(c, es + [Write(rid)], a)
            <==> Without(Held(c, before[..j], a), Removed(c, before[j].topics))
                 == Without(ConvertTopics(c, topics).value, Removed(c, before[j].topics))
  {
    hide Execute, Ledger, OpenRead, Serialised, Without, Untouched, ConvertTopics;
    var head := before + [Set(a, topics)];
    var es, n := head + after, |head|;
    var j := OpenRead(c, es, rid).value;
    ExecuteNext(c, before, Set(a, topics));
    assert es[..n] == head && es[..j] == before[..j] && es[j] == before[j];
    UntouchedKeeps(c, es, n, a);
    SetHoldsLedger(c, before, a, topics);
    UntouchedHoldsLedger(c, es, n, a);
    LedgerStep(c, es, Write(rid), a);
  }

  lemma {:induction false} SetHoldsLedger(c: Crypto, es: seq<Event>, a: AccountId, topics: seq<M.Topic>)
    requires ConvertTopics(c, topics).Success?
    ensures HoldsLedger(c, es + [Set(a, topics)], a)
  {
    var rs, r := Serialised(c, es), Request.Subscribe(a, topics);
    ExecuteNext(c, es, Set(a, topics));
    SerialisedNext(c, es, Set(a, topics));
    RunNext(c, rs, r);
    RunIsLedger(c, rs + [r], a);
  }

  lemma {:induction false} UntouchedHoldsLedger(c: Crypto, es: seq<Event>, n: nat, a: AccountId)
    requires n <= |es| && Untouched(c, es, n, a) && HoldsLedger(c, es[..n], a)
    ensures HoldsLedger(c, es, a)
    decreases |es|
  {
    hide HoldsLedger, OpenRead, Held;
    if n < |es| {
      var rest, e := es[..|es| - 1], es[|es| - 1];
      assert forall i :: n <= i < |rest| ==> rest[..i] == es[..i] && rest[i] == es[i];
      assert !Touches(c, rest, e, a);
      assert rest[..n] == es[..n];
      UntouchedHoldsLedger(c, rest, n, a);
      LedgerStep(c, rest, e, a);
      assert es == rest + [e];
    } else {
      assert es[..n] == es;
    }
  }

  /** Wherever an accepted subscription falls between a read of its account and the write, with any events
      around it, there are topics for which it is lost: those of an empty list or of a single topic. */
  lemma {:induction false} SubscriptionCanBeLost(c: Crypto, before: seq<Event>, a: AccountId, y: M.Topic,
                                                 after: seq<Event>, rid: nat)
    requires var es := before + [Set(a, [])] + after;
             && Untouched(c, es, |before| + 1, a)
             && OpenRead(c, es, rid).Some? && OpenRead(c, es, rid).value < |before|
             && es[OpenRead(c, es, rid).value].account == a
             && CheckTopic(c, y).Success?
             && CheckTopic(c, y).value !in Removed(c, es[OpenRead(c, es, rid).value].topics)
    ensures || !HoldsLedger(c, before + [Set(a, [])] + after + [Write(rid)], a)
            || !HoldsLedger(c, before + [Set(a, [y])] + after + [Write(rid)], a)
  {
    hide HoldsLedger, OpenRead, Held, Removed, Untouched;
    var none, one := Set(a, []), Set(a, [y]);
    OtherSet(c, before, none, one, after, rid);
    ConvertOne(c, y);
    UntouchedByOtherSet(c, before, none, one, after, a);
    assert (before + [none] + after)[..|before|] == before == (before + [one] + after)[..|before|];
    SubscriptionLost(c, before, a, [], after, rid);
    SubscriptionLost(c, before, a, [y], after, rid);
    var removed := Removed(c, before[OpenRead(c, before + [none] + after, rid).value].topics);
    assert [CheckTopic(c, y).value][..0] == [];
    assert Without([], removed) == [] && Without([CheckTopic(c, y).value], removed) == [CheckTopic(c, y).value];
  }

  /** Which topics a subscription brings does not change which reads are open. */
  lemma {:induction false} OtherSet(c: Crypto, before: seq<Event>, e: Event, e': Event, after: seq<Event>, rid: nat)
    requires e.Set? && e'.Set?
    ensures OpenRead(c, before + [e] + after, rid) == OpenRead(c, before + [e'] + after, rid)
    decreases |after|
  {
    hide OpenRead;
    if after == [] {
      Seqs.RightUnit(before + [e]);
      Seqs.RightUnit(before + [e']);
      OpenReadNext(c, before, e, rid);
      OpenReadNext(c, before, e', rid);
    } else {
      var rest, last := after[..|after| - 1], after[|after| - 1];
      assert after == rest + [last];
      Seqs.ConcatAssoc(before + [e], rest, [last]);
      Seqs.ConcatAssoc(before + [e'], rest, [last]);
      OtherSet(c, before, e, e', rest, rid);
      OpenReadNext(c, before + [e] + rest, last, rid);
      OpenReadNext(c, before + [e'] + rest, last, rid);
    }
  }

  lemma {:induction false} UntouchedByOtherSet(c: Crypto, before: seq<Event>, e: Event, e': Event, after: seq<Event>,
                                               a: AccountId)
    requires e.Set? && e'.Set? && Untouched(c, before + [e] + after, |before| + 1, a)
    ensures Untouched(c, before + [e'] + after, |before| + 1, a)
  {
    hide OpenRead, ConvertTopics;
    var es, es' := before + [e] + after, before + [e'] + after;
    var n := |before| + 1;
    forall i | n <= i < |es'|
      ensures !Touches(c, es'[..i], es'[i], a)
    {
      var part := after[..i - n];
      TakeBehind(before + [e], after, i - n);
      TakeBehind(before + [e'], after, i - n);
      assert !Touches(c, before + [e] + part, es[i], a);
      TouchesByOtherSet(c, before, e, e', part, es[i], a);
    }
  }

  lemma {:induction false} TakeBehind<T>(s: seq<T>, t: seq<T>, n: nat)
    requires n < |t|
    ensures (s + t)[..|s| + n] == s + t[..n] && (s + t)[|s| + n] == t[n]
  {
  }

  lemma {:induction false} TouchesByOtherSet(c: Crypto, before: seq<Event>, e: Event, e': Event, part: seq<Event>,
                                             next: Event,
                                             a: AccountId)
    requires e.Set? && e'.Set? && !Touches(c, before + [e] + part, next, a)
    ensures !Touches(c, before + [e'] + part, next, a)
  {
    hide OpenRead, ConvertTopics;
    if next.Write? {
      OtherSet(c, before, e, e', part, next.rid);
    }
  }

  lemma {:induction false} WithoutTwice(ts: seq<Topic>, r0: set<Topic>, r1: set<Topic>)
    ensures Without(Without(ts, r0), r1) == Without(ts, r1) <==> forall t :: t in ts && t in r0 ==> t in r1
  {
    if forall t :: t in ts && t in r0 ==> t in r1 {
      WithoutAgain(ts, r0, r1);
    } else {
      var t :| t in ts && t in r0 && t !in r1;
      assert t in Without(ts, r1) && t !in Without(Without(ts, r0), r1);
    }
  }

  lemma {:induction false} WithoutAgain(ts: seq<Topic>, r0: set<Topic>, r1: set<Topic>)
    requires forall t :: t in ts && t in r0 ==> t in r1
    ensures Without(Without(ts, r0), r1) == Without(ts, r1)
  {
    if ts != [] {
      var rest, last := ts[..|ts| - 1], ts[|ts| - 1];
      assert last in ts && forall t :: t in rest ==> t in ts;
      WithoutAgain(rest, r0, r1);
      if last !in r0 {
        var once := Without(ts, r0);
        assert once[..|once| - 1] == Without(rest, r0);
      }
    }
  }

  lemma {:induction false} StaysOpen(c: Crypto, es: seq<Event>, after: seq<Event>, rid: nat)
    requires NoneConcerns(c, after, rid)
    ensures OpenRead(c, es + after, rid) == OpenRead(c, es, rid)
    decreases |after|
  {
    hide OpenRead;
    if after == [] {
      Seqs.RightUnit(es);
    } else {
      var rest, e := after[..|after| - 1], after[|after| - 1];
      assert after == rest + [e];
      assert forall i :: 0 <= i < |rest| ==> rest[i] == after[i];
      StaysOpen(c, es, rest, rid);
      Seqs.ConcatAssoc(es, rest, [e]);
      OpenReadNext(c, es + rest, e, rid);
    }
  }

  /** Two unsubscriptions that read the same list: the later write, whatever happens to other accounts in
      between, brings back what the earlier one removed, and nothing is lost exactly if it removes all of that
      itself. */
  lemma {:induction false} UnsubscriptionLost(c: Crypto, es: seq<Event>, a: AccountId, r0: nat,
                                              after: seq<Event>, r1: nat)
    requires r0 != r1 && OpenRead(c, es, r0).Some? && OpenRead(c, es, r1).Some?
    requires es[OpenRead(c, es, r0).value].account == es[OpenRead(c, es, r1).value].account == a
    requires Untouched(c, es, OpenRead(c, es, r0).value, a) && Untouched(c, es, OpenRead(c, es, r1).value, a)
    requires HoldsLedger(c, es, a)
    requires NoneConcerns(c, after, r1) && Untouched(c, es + [Write(r0)] + after, |es| + 1, a)
    ensures var es' := es + [Write(r0)] + after + [Write(r1)];
            var removed0 := Removed(c, es[OpenRead(c, es, r0).value].topics);
            var removed1 := Removed(c, es[OpenRead(c, es, r1).value].topics);
            && Held(c, es', a) == Without(Held(c, es, a), removed1)
            && (HoldsLedger(c, es', a) <==> forall t :: t in Held(c, es, a) && t in removed0 ==> t in removed1)
  {
    hide Execute, Ledger, OpenRead, Serialised, Without, Untouched, ConvertTopics, NoneConcerns, HoldsLedger;
    var j0, j1 := OpenRead(c, es, r0).value, OpenRead(c, es, r1).value;
    var es0 := es + [Write(r0)];
    var es1 := es0 + after;
    UntouchedKeeps(c, es, j0, a);
    UntouchedKeeps(c, es, j1, a);
    WriteSettles(c, es, r0);
    LedgerStep(c, es, Write(r0), a);
    assert es1[..|es| + 1] == es0;
    UntouchedKeeps(c, es1, |es| + 1, a);
    UntouchedHoldsLedger(c, es1, |es| + 1, a);
    OpenReadNext(c, es, Write(r0), r1);
    StaysOpen(c, es0, after, r1);
    WriteSettles(c, es1, r1);
    LedgerStep(c, es1, Write(r1), a);
    assert es1[..j1] == es[..j1] && es1[j1] == es[j1];
    WithoutTwice(Held(c, es, a), Removed(c, es[j0].topics), Removed(c, es[j1].topics));
  }

  /** The shortest such run, with any two different topics: the collision is one that loses a request. */
  lemma {:induction false} CollisionLosesLedger(c: Crypto, a: AccountId, x: M.Topic, y: M.Topic)
    requires CheckTopic(c, x).Success? && CheckTopic(c, y).Success?
    requires CheckTopic(c, x).value != CheckTopic(c, y).value
    ensures !HoldsLedger(c, [Set(a, [x, y])] + [Read(0, a, [x])] + [Read(1, a, [y])] + [Write(0)] + [Write(1)], a)
  {
    hide Execute, Ledger, OpenRead, Serialised, Without, HoldsLedger, ConvertTopics, CheckTopic, Held;
    var s, t := CheckTopic(c, x).value, CheckTopic(c, y).value;
    var set1 := [Set(a, [x, y])];
    var read0 := set1 + [Read(0, a, [x])];
    var es := read0 + [Read(1, a, [y])];
    ConvertOne(c, x);
    ConvertOne(c, y);
    ConvertTopicsAppend(c, [x], y);
    assert [x] + [y] == [x, y] && [s] + [t] == [s, t] && [] + set1 == set1;
    SetHoldsLedger(c, [], a, [x, y]);
    assert !Touches(c, set1, Read(0, a, [x]), a) && !Touches(c, read0, Read(1, a, [y]), a);
    LedgerStep(c, set1, Read(0, a, [x]), a);
    LedgerStep(c, read0, Read(1, a, [y]), a);
    OpenReadNext(c, set1, Read(0, a, [x]), 0);
    OpenReadNext(c, read0, Read(1, a, [y]), 0);
    OpenReadNext(c, read0, Read(1, a, [y]), 1);
    assert es[..1] == set1 && es[..2] == read0 && |es| == 3;
    assert Untouched(c, es, 1, a) && Untouched(c, es, 2, a);
    HeldAfterSet(c, a, [x, y]);
    UntouchedKeeps(c, es, 1, a);
    Seqs.RightUnit(es + [Write(0)]);
    UnsubscriptionLost(c, es, a, 0, [], 1);
    assert s in [s, t] && s in SetOf([s]) && s !in SetOf([t]);
  }

  lemma {:induction false} HeldAfterSet(c: Crypto, a: AccountId, topics: seq<M.Topic>)
    requires ConvertTopics(c, topics).Success?
    ensures Held(c, [Set(a, topics)], a) == ConvertTopics(c, topics).value
  {
    ExecuteNext(c, [], Set(a, topics));
    assert [] + [Set(a, topics)] == [Set(a, topics)];
  }
}
