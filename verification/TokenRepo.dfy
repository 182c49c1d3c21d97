/** The token collection, keyed by the device token itself. */
module TokenRepo {
  import opened GoInts
  import opened Wrappers
  import opened AccountRepo

  type TokenId = bytes
  type Platform = p: int | 0 <= p < 256

  const PLATFORM_IOS: Platform := 0
  const PLATFORM_ANDROID: Platform := 1

  datatype Status = Valid | Invalid

  datatype Device = Device(accountId: AccountId, peerId: bytes, platform: Platform, status: Status)

  type Devices = map<TokenId, Device>

  datatype Token = Token(id: TokenId, device: Device)

  /** The tokens a query for these accounts returns. */
  ghost function ActiveTokens(coll: Devices, accountIds: set<AccountId>): set<TokenId> {
    set id | id in coll && coll[id].accountId in accountIds && coll[id].status == Valid
  }

  ghost function SetOfAccounts(s: seq<AccountId>): set<AccountId> {
    set a | a in s
  }

  function Ids(ts: seq<Token>): (ids: seq<TokenId>)
    ensures |ids| == |ts|
  {
    seq(|ts|, i requires 0 <= i < |ts| => ts[i].id)
  }

  /** How the database answers an upsert. */
  datatype Upsert = Written | DuplicateKey | NoAnswer

  datatype AddError = TokenExists | NotAdded

  class TokenRepo {
    var coll: Devices

    constructor ()
      ensures coll == map[]
    {
      coll := map[];
    }

    /** The upsert of one document. A duplicate key is what the loser of two racing inserts is told; then,
        and when there is no answer, nothing changes. */
    method AddToken(token: Token, reply: Upsert) returns (err: Option<AddError>)
      modifies this
      ensures coll == if reply == Written then old(coll)[token.id := token.device] else old(coll)
      ensures err == match reply
                     case Written => None
                     case DuplicateKey => Some(TokenExists)
                     case NoAnswer => Some(NotAdded)
    {
      if reply == Written { coll := coll[token.id := token.device]; }
      err := if reply == DuplicateKey then Some(TokenExists) else if reply == NoAnswer then Some(NotAdded) else None;
    }

    method RemoveTokens(tokens: seq<TokenId>, up: bool) returns (ok: bool)
      modifies this
      ensures ok == up
      ensures coll == if up then map id | id in old(coll) && id !in tokens :: old(coll)[id] else old(coll)
    {
      if up { coll := map id | id in coll && id !in tokens :: coll[id]; }
      ok := up;
    }

    /** Returns each valid token of these accounts once, in whatever order the database has them. */
    method GetActiveTokensByAccountIds(accountIds: seq<AccountId>, up: bool) returns (ok: bool, tokens: seq<Token>)
      ensures ok == up
      ensures up ==>
                && NoDuplicates(Ids(tokens))
                && (forall id :: id in Ids(tokens) <==> id in ActiveTokens(coll, SetOfAccounts(accountIds)))
                && (forall i :: 0 <= i < |tokens| ==> tokens[i].id in coll && tokens[i].device == coll[tokens[i].id])
    {
      ok, tokens := up, [];
      if !up { return; }
      var todo := coll.Keys;
      while todo != {}
        invariant todo <= coll.Keys && NoDuplicates(Ids(tokens))
        invariant forall i :: 0 <= i < |tokens| ==> tokens[i].id in coll && tokens[i].device == coll[tokens[i].id]
        invariant forall id :: id in Ids(tokens) <==> id in ActiveTokens(coll, SetOfAccounts(accountIds)) && id !in todo
      {
        var id :| id in todo;
        todo := todo - {id};
        if coll[id].accountId in accountIds && coll[id].status == Valid {
          assert Ids(tokens + [Token(id, coll[id])]) == Ids(tokens) + [id];
          tokens := tokens + [Token(id, coll[id])];
        }
      }
    }
  }
}
