/** The Firebase provider: batches of at most 500 tokens, and reports of tokens found invalid. */
module Fcm {
  import opened GoInts
  import opened Wrappers
  import opened TokenRepo
  import Seqs

  const BATCH_SIZE := 500

  datatype Answer = Delivered | InvalidArgument | Unregistered | OtherError

  datatype SendError = UnexpectedPlatform | ClientError(code: nat) | StorageError

  /** A value of a message's data map; the base64 text of the standard library is kept as its bytes. */
  datatype Text = Word(word: string) | Plain(text: bytes) | Base64(raw: bytes)

  /** What a multicast message is built from, besides the platform and the tokens. */
  datatype Body = Body(silent: bool, data: map<string, Text>)

  /** One multicast call. */
  datatype Call = Call(platform: Platform, tokens: seq<TokenId>, body: Body)

  type Reply = Result<seq<Answer>, SendError>

  /** The client as an arbitrary function of the call and of how many calls came before it. */
  type Client = (nat, Call) -> Reply

  /** The client library answers once for every token. */
  ghost predicate AnswersEach(client: Client) {
    forall n: nat, call: Call :: client(n, call).Success? ==> |client(n, call).value| == |call.tokens|
  }

  /** The connection: every multicast call ever made through it. */
  class Connection {
    const client: Client
    var calls: seq<Call>

    constructor (client: Client)
      ensures this.client == client && calls == []
    {
      this.client, calls := client, [];
    }

    method SendEachForMulticast(call: Call) returns (reply: Reply)
      modifies this`calls
      ensures calls == old(calls) + [call] && reply == client(|old(calls)|, call)
    {
      reply := client(|calls|, call);
      calls := calls + [call];
    }
  }

  /** Where tokens to be removed are reported. */
  class InvalidTokens {
    var tokens: seq<TokenId>

    constructor ()
      ensures tokens == []
    {
      tokens := [];
    }

    method Add(token: TokenId)
      modifies this
      ensures tokens == old(tokens) + [token]
    {
      tokens := tokens + [token];
    }
  }

  predicate IsInvalid(a: Answer) {
    a == InvalidArgument || a == Unregistered
  }

  /** The tokens answered as invalid, in order. */
  function Rejected(tokens: seq<TokenId>, answers: seq<Answer>): seq<TokenId>
    requires |tokens| == |answers|
  {
    if tokens == [] then []
    else
      var n := |tokens| - 1;
      Rejected(tokens[..n], answers[..n]) + if IsInvalid(answers[n]) then [tokens[n]] else []
  }

  /** Where a token was answered as invalid. */
  ghost function InvalidAt(tokens: seq<TokenId>, answers: seq<Answer>, t: TokenId): set<nat>
    requires |tokens| == |answers|
  {
    set i: nat | i < |tokens| && tokens[i] == t && (answers[i] == InvalidArgument || answers[i] == Unregistered)
  }

  /** A token is reported as often as it was answered as an invalid argument or as unregistered. */
  lemma {:induction false} RejectedCounts(tokens: seq<TokenId>, answers: seq<Answer>, t: TokenId)
    requires |tokens| == |answers|
    ensures multiset(Rejected(tokens, answers))[t]
            == |set i: nat | i < |tokens| && tokens[i] == t
                             && (answers[i] == InvalidArgument || answers[i] == Unregistered)|
  {
    if tokens == [] {
      assert InvalidAt(tokens, answers, t) == {};
    } else {
      var n := |tokens| - 1;
      RejectedCounts(tokens[..n], answers[..n], t);
      InvalidAtLast(tokens, answers, t);
    }
  }

  lemma {:induction false} InvalidAtLast(tokens: seq<TokenId>, answers: seq<Answer>, t: TokenId)
    requires |tokens| == |answers| > 0
    ensures var n := |tokens| - 1;
            |InvalidAt(tokens, answers, t)|
            == |InvalidAt(tokens[..n], answers[..n], t)| + if tokens[n] == t && IsInvalid(answers[n]) then 1 else 0
  {
    var n := |tokens| - 1;
    var before, all := InvalidAt(tokens[..n], answers[..n], t), InvalidAt(tokens, answers, t);
    var extra: set<nat> := if tokens[n] == t && IsInvalid(answers[n]) then {n} else {};
    forall i: nat
      ensures i in all <==> i in before + extra
    {
      if i < n { assert tokens[..n][i] == tokens[i] && answers[..n][i] == answers[i]; }
    }
    assert all == before + extra && before !! extra;
  }

  /** What one SendMessage does: the calls it makes, the answers it gets, and how it ends. */
  datatype Sending = Sending(calls: seq<Call>, answers: seq<Answer>, err: Option<SendError>)

  function NextBatch(tokens: seq<TokenId>): (b: seq<TokenId>)
    ensures b <= tokens && (tokens != [] ==> b != [])
  {
    if |tokens| > BATCH_SIZE then tokens[..BATCH_SIZE] else tokens
  }

  /** `n` calls were made before. */
  function Send(client: Client, n: nat, platform: Platform, tokens: seq<TokenId>, body: Body): Sending
    decreases |tokens|
  {
    if tokens == [] then Sending([], [], None)
    else if platform != PLATFORM_IOS && platform != PLATFORM_ANDROID then Sending([], [], Some(UnexpectedPlatform))
    else
      var batch := NextBatch(tokens);
      var call := Call(platform, batch, body);
      match client(n, call)
      case Failure(e) => Sending([call], [], Some(e))
      case Success(answers) =>
        var rest := Send(client, n + 1, platform, tokens[|batch|..], body);
        Sending([call] + rest.calls, answers + rest.answers, rest.err)
  }

  function TokensOf(calls: seq<Call>): seq<TokenId> {
    if calls == [] then [] else calls[0].tokens + TokensOf(calls[1..])
  }

  lemma {:induction false} TokenOfCall(calls: seq<Call>, i: nat, id: TokenId)
    requires i < |calls| && id in calls[i].tokens
    ensures id in TokensOf(calls)
  {
    if i > 0 { TokenOfCall(calls[1..], i - 1, id); }
  }

  lemma {:induction false} TokensOfConcat(a: seq<Call>, b: seq<Call>)
    ensures TokensOf(a + b) == TokensOf(a) + TokensOf(b)
    decreases |a|
  {
    if a == [] {
      Seqs.RightUnit(b);
      Seqs.RightUnit(TokensOf(b));
    } else {
      assert (a + b)[0] == a[0] && (a + b)[1..] == a[1..] + b;
      TokensOfConcat(a[1..], b);
      Seqs.ConcatAssoc(a[0].tokens, TokensOf(a[1..]), TokensOf(b));
    }
  }

  /** A run that ends well hands every token to the client, once and in order, in batches of 1 to 500,
      as few as can be, and gets one answer for each. */
  lemma {:induction false} SendAll(client: Client, n: nat, platform: Platform, tokens: seq<TokenId>, body: Body)
    requires AnswersEach(client) && Send(client, n, platform, tokens, body).err == None
    ensures var s := Send(client, n, platform, tokens, body);
            && TokensOf(s.calls) == tokens
            && |s.answers| == |tokens|
            && Reports(tokens, s) == Rejected(tokens, s.answers)
            && |s.calls| == (|tokens| + 499) / 500
            && forall i :: 0 <= i < |s.calls| ==> 1 <= |s.calls[i].tokens| <= 500
    decreases |tokens|
  {
    if tokens != [] {
      var batch := NextBatch(tokens);
      SendAll(client, n + 1, platform, tokens[|batch|..], body);
      Seqs.SplitAt(tokens, |batch|);
      assert tokens[..|batch|] == batch;
      var s := Send(client, n, platform, tokens, body);
      var rest := Send(client, n + 1, platform, tokens[|batch|..], body);
      assert s.calls[0].tokens == batch && s.calls[1..] == rest.calls;
    }
    assert tokens[..|tokens|] == tokens;
  }

  /** A run cut short has handed on a prefix of the tokens, again in batches of 1 to 500. */
  lemma {:induction false} SendPrefix(client: Client, n: nat, platform: Platform, tokens: seq<TokenId>, body: Body)
    ensures var s := Send(client, n, platform, tokens, body);
            && TokensOf(s.calls) <= tokens
            && (s.err == None ==> TokensOf(s.calls) == tokens)
            && forall i :: 0 <= i < |s.calls| ==> 1 <= |s.calls[i].tokens| <= 500
    decreases |tokens|
  {
    if tokens != [] {
      var batch := NextBatch(tokens);
      SendPrefix(client, n + 1, platform, tokens[|batch|..], body);
      Seqs.SplitAt(tokens, |batch|);
      assert tokens[..|batch|] == batch;
      var s := Send(client, n, platform, tokens, body);
      var rest := Send(client, n + 1, platform, tokens[|batch|..], body);
      if s.calls != [] {
        assert s.calls[0].tokens == batch;
        if client(n, s.calls[0]).Success? {
          assert s.calls[1..] == rest.calls;
        } else {
          assert TokensOf(s.calls[1..]) == [];
        }
      }
    }
  }

  /** The answers of the client to some calls, of which `n` others came before, in order; a call that fails
      gets none. */
  function AnswersTo(client: Client, n: nat, calls: seq<Call>): seq<Answer> {
    if calls == [] then []
    else
      var last := |calls| - 1;
      AnswersTo(client, n, calls[..last])
      + match client(n + last, calls[last])
        case Failure(_) => []
        case Success(answers) => answers
  }

  lemma {:induction false} AnswersToFirst(client: Client, n: nat, first: Call, rest: seq<Call>)
    requires client(n, first).Success?
    ensures AnswersTo(client, n, [first] + rest) == client(n, first).value + AnswersTo(client, n + 1, rest)
    decreases |rest|
  {
    var calls := [first] + rest;
    if rest == [] {
      assert calls[..0] == [];
      Seqs.RightUnit(client(n, first).value);
    } else {
      var last := |rest| - 1;
      assert calls[..|calls| - 1] == [first] + rest[..last];
      AnswersToFirst(client, n, first, rest[..last]);
      var reply := client(n + 1 + last, rest[last]);
      Seqs.ConcatAssoc(client(n, first).value, AnswersTo(client, n + 1, rest[..last]),
                       if reply.Success? then reply.value else []);
    }
  }

  /** The answers of a run are what the client replied to its calls, each in its turn. */
  lemma {:induction false} SendAnswers(client: Client, n: nat, platform: Platform, tokens: seq<TokenId>, body: Body)
    ensures var s := Send(client, n, platform, tokens, body); s.answers == AnswersTo(client, n, s.calls)
    decreases |tokens|
  {
    hide AnswersTo;
    NoAnswers(client, n);
    if tokens != [] && (platform == PLATFORM_IOS || platform == PLATFORM_ANDROID) {
      var batch := NextBatch(tokens);
      var call := Call(platform, batch, body);
      SendAnswers(client, n + 1, platform, tokens[|batch|..], body);
      if client(n, call).Success? {
        AnswersToFirst(client, n, call, Send(client, n + 1, platform, tokens[|batch|..], body).calls);
      } else {
        NoAnswerTo(client, n, call);
      }
    }
  }

  lemma {:induction false} NoAnswers(client: Client, n: nat)
    ensures AnswersTo(client, n, []) == []
  {
  }

  lemma {:induction false} NoAnswerTo(client: Client, n: nat, call: Call)
    requires client(n, call).Failure?
    ensures AnswersTo(client, n, [call]) == []
  {
    assert [call][..0] == [];
  }

  /** How a run ends: every call but the last was answered, and the last one too unless its failure is the
      run's; without a call, only the platform can be wrong. */
  ghost predicate Ends(client: Client, n: nat, s: Sending) {
    var last := |s.calls| - 1;
    if s.calls == [] then s.err == None || s.err == Some(UnexpectedPlatform)
    else
      && (forall j :: 0 <= j < last ==> client(n + j, s.calls[j]).Success?)
      && s.err == match client(n + last, s.calls[last])
                  case Failure(e) => Some(e)
                  case Success(_) => None
  }

  lemma {:induction false} SendEnds(client: Client, n: nat, platform: Platform, tokens: seq<TokenId>, body: Body)
    ensures Ends(client, n, Send(client, n, platform, tokens, body))
    decreases |tokens|
  {
    if tokens != [] && (platform == PLATFORM_IOS || platform == PLATFORM_ANDROID) {
      var batch := NextBatch(tokens);
      var call := Call(platform, batch, body);
      if client(n, call).Success? {
        var rest := Send(client, n + 1, platform, tokens[|batch|..], body);
        SendEnds(client, n + 1, platform, tokens[|batch|..], body);
        SamePlatform(client, n + 1, platform, tokens[|batch|..], body);
        EndsAfter(client, n, call, rest);
      }
    }
  }

  lemma {:induction false} SamePlatform(client: Client, n: nat, platform: Platform, tokens: seq<TokenId>, body: Body)
    requires platform == PLATFORM_IOS || platform == PLATFORM_ANDROID
    ensures var s := Send(client, n, platform, tokens, body); s.calls == [] ==> s.err == None
  {
  }

  lemma {:induction false} EndsAfter(client: Client, n: nat, call: Call, rest: Sending)
    requires client(n, call).Success? && Ends(client, n + 1, rest) && (rest.calls == [] ==> rest.err == None)
    ensures forall answers :: Ends(client, n, Sending([call] + rest.calls, answers, rest.err))
  {
    var calls := [call] + rest.calls;
    forall j | 1 <= j < |calls|
      ensures calls[j] == rest.calls[j - 1] && n + j == n + 1 + (j - 1)
    {
    }
  }

  /** Every call is made for the sender's platform and carries the message it was given. */
  lemma {:induction false} SendCarries(client: Client, n: nat, platform: Platform, tokens: seq<TokenId>, body: Body)
    ensures var s := Send(client, n, platform, tokens, body);
            forall call :: call in s.calls ==> call.platform == platform && call.body == body
    decreases |tokens|
  {
    if tokens != [] {
      SendCarries(client, n + 1, platform, tokens[|NextBatch(tokens)|..], body);
    }
  }

  /** The tokens that were answered are the first ones. */
  lemma {:induction false} AnswersFit(client: Client, n: nat, platform: Platform, tokens: seq<TokenId>, body: Body)
    requires AnswersEach(client)
    ensures |Send(client, n, platform, tokens, body).answers| <= |tokens|
    decreases |tokens|
  {
    if tokens != [] { AnswersFit(client, n + 1, platform, tokens[|NextBatch(tokens)|..], body); }
  }

  /** The tokens a run reports as invalid. */
  function Reports(tokens: seq<TokenId>, s: Sending): seq<TokenId> {
    if |s.answers| <= |tokens| then Rejected(tokens[..|s.answers|], s.answers) else []
  }

  lemma {:induction false} RejectedConcat(t1: seq<TokenId>, a1: seq<Answer>, t2: seq<TokenId>, a2: seq<Answer>)
    requires |t1| == |a1| && |t2| == |a2|
    ensures Rejected(t1 + t2, a1 + a2) == Rejected(t1, a1) + Rejected(t2, a2)
    decreases |t2|
  {
    if t2 == [] {
      Seqs.RightUnit(t1);
      Seqs.RightUnit(a1);
      Seqs.RightUnit(Rejected(t1, a1));
    } else {
      var n := |t2| - 1;
      assert (t1 + t2)[..|t1| + n] == t1 + t2[..n] && (a1 + a2)[..|t1| + n] == a1 + a2[..n];
      RejectedConcat(t1, a1, t2[..n], a2[..n]);
      Seqs.ConcatAssoc(Rejected(t1, a1), Rejected(t2[..n], a2[..n]), if IsInvalid(a2[n]) then [t2[n]] else []);
    }
  }

  /** One turn of the sending loop. */
  lemma {:induction false} SendTurn(client: Client, n: nat, platform: Platform, tokens: seq<TokenId>, body: Body)
    requires AnswersEach(client) && tokens != []
    ensures var batch := NextBatch(tokens);
            var call, rest := Call(platform, batch, body), tokens[|batch|..];
            var s := Send(client, n, platform, tokens, body);
            if platform != PLATFORM_IOS && platform != PLATFORM_ANDROID then
              s.err == Some(UnexpectedPlatform) && s.calls == [] && Reports(tokens, s) == []
            else if client(n, call).Failure? then
              s.err == Some(client(n, call).error) && s.calls == [call] && Reports(tokens, s) == []
            else
              var more := Send(client, n + 1, platform, rest, body);
              && |client(n, call).value| == |batch|
              && s.err == more.err && s.calls == [call] + more.calls
              && Reports(tokens, s) == Rejected(batch, client(n, call).value) + Reports(rest, more)
  {
    var batch := NextBatch(tokens);
    if (platform == PLATFORM_IOS || platform == PLATFORM_ANDROID) && client(n, Call(platform, batch, body)).Success? {
      ReportsStep(client, n, platform, tokens, body);
    }
  }

  lemma {:induction false} ReportsStep(client: Client, n: nat, platform: Platform, tokens: seq<TokenId>, body: Body)
    requires AnswersEach(client) && tokens != []
    requires platform == PLATFORM_IOS || platform == PLATFORM_ANDROID
    requires client(n, Call(platform, NextBatch(tokens), body)).Success?
    ensures var batch := NextBatch(tokens);
            var answers := client(n, Call(platform, batch, body)).value;
            var rest := tokens[|batch|..];
            |answers| == |batch|
            && Reports(tokens, Send(client, n, platform, tokens, body))
               == Rejected(batch, answers) + Reports(rest, Send(client, n + 1, platform, rest, body))
  {
    var batch := NextBatch(tokens);
    var answers, rest := client(n, Call(platform, batch, body)).value, tokens[|batch|..];
    var more := Send(client, n + 1, platform, rest, body).answers;
    AnswersFit(client, n + 1, platform, rest, body);
    assert tokens[..|answers + more|] == batch + rest[..|more|];
    RejectedConcat(batch, answers, rest[..|more|], more);
  }

  /** The reports that the answers to call number `n` call for: the tokens answered as invalid, in order, and
      none when the call fails. */
  function ReportsOf(client: Client, n: nat, call: Call): seq<TokenId> {
    match client(n, call)
    case Failure(_) => []
    case Success(answers) => if |answers| == |call.tokens| then Rejected(call.tokens, answers) else []
  }

  /** The same for some calls, of which `n` others came before. */
  function ReportsOn(client: Client, n: nat, calls: seq<Call>): seq<TokenId> {
    if calls == [] then []
    else
      var last := |calls| - 1;
      ReportsOn(client, n, calls[..last]) + ReportsOf(client, n + last, calls[last])
  }

  lemma {:induction false} ReportsOnConcat(client: Client, n: nat, a: seq<Call>, b: seq<Call>)
    ensures ReportsOn(client, n, a + b) == ReportsOn(client, n, a) + ReportsOn(client, n + |a|, b)
    decreases |b|
  {
    hide ReportsOf;
    if b == [] {
      Seqs.RightUnit(a);
      Seqs.RightUnit(ReportsOn(client, n, a));
    } else {
      var last := |b| - 1;
      assert (a + b)[..|a| + last] == a + b[..last];
      ReportsOnConcat(client, n, a, b[..last]);
      Seqs.ConcatAssoc(ReportsOn(client, n, a), ReportsOn(client, n + |a|, b[..last]),
                       ReportsOf(client, n + |a| + last, b[last]));
    }
  }

  lemma {:induction false} ReportsOnOne(client: Client, n: nat, call: Call)
    ensures ReportsOn(client, n, [call]) == ReportsOf(client, n, call)
    ensures ReportsOn(client, n, []) == []
  {
    assert [call][..0] == [];
  }

  /** What a run reports is what the answers to its calls call for. */
  lemma {:induction false} SendReports(client: Client, n: nat, platform: Platform, tokens: seq<TokenId>, body: Body)
    requires AnswersEach(client)
    ensures var s := Send(client, n, platform, tokens, body); Reports(tokens, s) == ReportsOn(client, n, s.calls)
    decreases |tokens|
  {
    hide Rejected, Reports, Send, ReportsOn;
    NothingToSend(client, n, platform, body);
    if tokens == [] {
      ReportsOnOne(client, n, Call(platform, [], body));
    } else {
      var batch := NextBatch(tokens);
      var call, rest := Call(platform, batch, body), tokens[|batch|..];
      SendTurn(client, n, platform, tokens, body);
      ReportsOnOne(client, n, call);
      if (platform == PLATFORM_IOS || platform == PLATFORM_ANDROID) && client(n, call).Success? {
        SendReports(client, n + 1, platform, rest, body);
        ReportsOnConcat(client, n, [call], Send(client, n + 1, platform, rest, body).calls);
      }
    }
  }

  /** A run reports a token as often as an answered position of it was answered as an invalid argument or as
      unregistered. */
  lemma {:induction false} ReportsCount(client: Client, n: nat, platform: Platform, tokens: seq<TokenId>, body: Body,
                                        t: TokenId)
    requires AnswersEach(client)
    ensures var s := Send(client, n, platform, tokens, body);
            && |s.answers| <= |tokens|
            && multiset(Reports(tokens, s))[t]
               == |set i: nat | i < |s.answers| && tokens[i] == t
                                && (s.answers[i] == InvalidArgument || s.answers[i] == Unregistered)|
  {
    hide Send, Rejected;
    var s := Send(client, n, platform, tokens, body);
    AnswersFit(client, n, platform, tokens, body);
    var answered := tokens[..|s.answers|];
    RejectedCounts(answered, s.answers, t);
    assert InvalidAt(answered, s.answers, t)
           == set i: nat | i < |s.answers| && tokens[i] == t
                           && (s.answers[i] == InvalidArgument || s.answers[i] == Unregistered);
  }

  /** Only a platform that is neither of the two ends a run before its first call. */
  lemma {:induction false} SendServes(client: Client, n: nat, platform: Platform, tokens: seq<TokenId>, body: Body)
    ensures var s := Send(client, n, platform, tokens, body);
            && (s.calls == [] <==> tokens == [] || (platform != PLATFORM_IOS && platform != PLATFORM_ANDROID))
            && (s.calls == [] ==> s.err == if tokens == [] then None else Some(UnexpectedPlatform))
  {
  }

  class FcmSender {
    const platform: Platform
    const connection: Connection

    constructor (platform: Platform, connection: Connection)
      ensures this.platform == platform && this.connection == connection
    {
      this.platform, this.connection := platform, connection;
    }

    method Report(tokens: seq<TokenId>, answers: seq<Answer>, invalid: InvalidTokens)
      requires |tokens| == |answers|
      modifies invalid
      ensures invalid.tokens == old(invalid.tokens) + Rejected(tokens, answers)
      ensures forall t ::
                multiset(invalid.tokens)[t] == multiset(old(invalid.tokens))[t] + |InvalidAt(tokens, answers, t)|
    {
      for i := 0 to |answers|
        invariant invalid.tokens == old(invalid.tokens) + Rejected(tokens[..i], answers[..i])
      {
        assert tokens[..i + 1][..i] == tokens[..i] && answers[..i + 1][..i] == answers[..i];
        if IsInvalid(answers[i]) {
          invalid.Add(tokens[i]);
        }
      }
      assert tokens[..|tokens|] == tokens && answers[..|answers|] == answers;
      forall t
        ensures multiset(Rejected(tokens, answers))[t] == |InvalidAt(tokens, answers, t)|
      {
        RejectedCounts(tokens, answers, t);
      }
    }

    /** Makes the calls and the reports of `Send`. */
    method SendMessage(tokens: seq<TokenId>, body: Body, invalid: InvalidTokens) returns (err: Option<SendError>)
      requires AnswersEach(connection.client)
      modifies connection`calls, invalid
      ensures var s := Send(connection.client, |old(connection.calls)|, platform, tokens, body);
              && err == s.err
              && connection.calls == old(connection.calls) + s.calls
              && invalid.tokens == old(invalid.tokens) + Reports(tokens, s)
    {
      hide Send, Rejected, Reports;
      var nextBatch := tokens;
      ghost var s := Send(connection.client, |connection.calls|, platform, tokens, body);
      while |nextBatch| > 0
        invariant var rest := Send(connection.client, |connection.calls|, platform, nextBatch, body);
                  && s.err == rest.err
                  && old(connection.calls) + s.calls == connection.calls + rest.calls
                  && old(invalid.tokens) + Reports(tokens, s) == invalid.tokens + Reports(nextBatch, rest)
        decreases |nextBatch|
      {
        var batch := nextBatch;
        SendTurn(connection.client, |connection.calls|, platform, nextBatch, body);
        ghost var after := nextBatch[|NextBatch(nextBatch)|..];
        if |nextBatch| > BATCH_SIZE {
          batch := nextBatch[..BATCH_SIZE];
          nextBatch := nextBatch[BATCH_SIZE..];
        } else {
          nextBatch := [];
        }
        assert nextBatch == after;
        if platform != PLATFORM_IOS && platform != PLATFORM_ANDROID {
          return Some(UnexpectedPlatform);
        }
        var response := connection.SendEachForMulticast(Call(platform, batch, body));
        if response.Failure? {
          return Some(response.error);
        }
        Report(batch, response.value, invalid);
      }
      NothingToSend(connection.client, |connection.calls|, platform, body);
      return None;
    }
  }

  lemma {:induction false} NothingToSend(client: Client, n: nat, platform: Platform, body: Body)
    ensures Send(client, n, platform, [], body) == Sending([], [], None)
    ensures Reports([], Send(client, n, platform, [], body)) == []
  {
  }
}
