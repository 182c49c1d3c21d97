/** The account collection: which topics each account is subscribed to. */
module AccountRepo {
  import opened GoInts
  import opened DomainTopic

  type AccountId = bytes

  type Accounts = map<AccountId, seq<Topic>>

  /** A document that is missing and one with an empty list read the same. */
  function TopicsIn(coll: Accounts, account: AccountId): seq<Topic> {
    if account in coll then coll[account] else []
  }

  /** Mongo's `topics: {$in: ts}`. */
  predicate Meets(held: seq<Topic>, ts: seq<Topic>) {
    exists t :: t in held && t in ts
  }

  ghost predicate NoDuplicates<T>(s: seq<T>) {
    forall i, j :: 0 <= i < j < |s| ==> s[i] != s[j]
  }

  class AccountRepo {
    var coll: Accounts

    constructor ()
      ensures coll == map[]
    {
      coll := map[];
    }

    /** `up` is whether the database answers; when it does not, nothing changes. */
    method SetAccountTopics(accountId: AccountId, topics: seq<Topic>, up: bool) returns (ok: bool)
      modifies this
      ensures ok == up && coll == if up then old(coll)[accountId := topics] else old(coll)
    {
      if up { coll := coll[accountId := topics]; }
      ok := up;
    }

    method GetTopicsByAccountId(accountId: AccountId, up: bool) returns (ok: bool, topics: seq<Topic>)
      ensures ok == up && (up ==> topics == TopicsIn(coll, accountId))
    {
      ok, topics := up, [];
      if up && accountId in coll { topics := coll[accountId]; }
    }

    /** The matching documents arrive in whatever order the database has them. */
    method Find(topics: seq<Topic>) returns (docs: seq<AccountId>)
      ensures NoDuplicates(docs)
      ensures forall a :: a in docs <==> a in coll && Meets(coll[a], topics)
    {
      docs := [];
      var todo := coll.Keys;
      while todo != {}
        invariant todo <= coll.Keys && NoDuplicates(docs)
        invariant forall a :: a in docs <==> a in coll && a !in todo && Meets(coll[a], topics)
      {
        var a :| a in todo;
        todo := todo - {a};
        if Meets(coll[a], topics) { docs := docs + [a]; }
      }
    }

    /** Lists an account exactly once if it holds one of the topics, and no other account. */
    method GetAccountIdsByTopics(topics: seq<Topic>, up: bool) returns (ok: bool, ids: array<AccountId>)
      ensures ok == up && fresh(ids)
      ensures up ==> NoDuplicates(ids[..]) && forall a :: a in ids[..] <==> Meets(TopicsIn(coll, a), topics)
    {
      if !up {
        ids := new AccountId[0];
        return false, ids;
      }
      var docs := Find(topics);
      ids := new AccountId[|docs|](_ => []);
      for i := 0 to |docs|
        invariant fresh(ids) && ids.Length == |docs| && ids[..i] == docs[..i]
      {
        ids[i] := docs[i];
      }
      assert ids[..] == ids[..|docs|] == docs;
      ok := true;
    }
  }
}
