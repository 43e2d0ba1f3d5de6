/**
  The balance fan-out of `/getAllAccountData`: each access token gets one
  balance request (`pushAccountData`). A successful reply's accounts are tagged
  with the item_id the reply names and concatenated onto `accountsLS`; a
  failed request is caught, logged, and adds nothing.
 */
module Balances {

  /** An account object of a balance reply; the handler copies it unchanged apart from the tag. */
  datatype Account = Account(accountId: string, name: string)

  /** `{...account, item_id: item_id}`. */
  datatype TaggedAccount = TaggedAccount(account: Account, itemId: string)

  /** How one `/accounts/balance/get` request ended. */
  datatype BalanceReply =
    | Fetched(itemId: string, accounts: seq<Account>)
    | Failed

  /** `res.data.accounts.map(i => ({...i, item_id}))` for a reply; a failed request contributes nothing. */
  function Tagged(reply: BalanceReply): seq<TaggedAccount>
  {
    match reply
    case Failed => []
    case Fetched(itemId, accounts) =>
      seq(|accounts|, k requires 0 <= k < |accounts| => TaggedAccount(accounts[k], itemId))
  }

  /** `accountsLS` once the requests whose replies are `replies` have finished, in that order. */
  function Merged(replies: seq<BalanceReply>): seq<TaggedAccount>
  {
    if replies == [] then []
    else Merged(replies[..|replies| - 1]) + Tagged(replies[|replies| - 1])
  }

  /**
    The requests of the fan-out settling one after another: each success does
    `accountsLS = accountsLS.concat(returnData)`, each failure is swallowed.
   */
  method GatherAccounts(replies: seq<BalanceReply>) returns (accountsLS: seq<TaggedAccount>)
    ensures accountsLS == Merged(replies)
  {
    accountsLS := [];
    for k := 0 to |replies|
      invariant accountsLS == Merged(replies[..k])
    {
      assert replies[..k + 1][..k] == replies[..k];
      match replies[k]
      case Failed =>
      case Fetched(itemId, accounts) =>
        var returnData := seq(|accounts|, j requires 0 <= j < |accounts| => TaggedAccount(accounts[j], itemId));
        accountsLS := accountsLS + returnData;
    }
    assert replies[..|replies|] == replies;
  }

  /**
    An account is in the merged result exactly when some successful reply
    lists it, and it then carries that reply's item_id.
   */
  lemma {:induction false} MergedMembership(replies: seq<BalanceReply>, t: TaggedAccount)
    ensures t in Merged(replies) <==>
      exists k :: 0 <= k < |replies| && replies[k].Fetched?
        && t.itemId == replies[k].itemId && t.account in replies[k].accounts
  {
    if replies != [] {
      var n := |replies| - 1;
      var prefix := replies[..n];
      MergedMembership(prefix, t);
      assert forall k :: 0 <= k < n ==> prefix[k] == replies[k];
      var last := replies[n];
      if last.Fetched? {
        assert t in Tagged(last) <==> t.itemId == last.itemId && t.account in last.accounts by {
          if t.itemId == last.itemId && t.account in last.accounts {
            var j :| 0 <= j < |last.accounts| && last.accounts[j] == t.account;
            assert Tagged(last)[j] == t;
          }
        }
      }
    }
  }

  /** Merging two runs of replies is merging each and concatenating. */
  lemma {:induction false} MergedConcat(a: seq<BalanceReply>, b: seq<BalanceReply>)
    ensures Merged(a + b) == Merged(a) + Merged(b)
    decreases |b|
  {
    if b == [] {
      assert a + b == a;
    } else {
      var n := |b| - 1;
      var ab := a + b;
      var m := |ab| - 1;
      assert ab[..m] == a + b[..n];
      assert ab[m] == b[n];
      assert Merged(ab) == Merged(ab[..m]) + Tagged(b[n]);
      MergedConcat(a, b[..n]);
      assert Merged(b) == Merged(b[..n]) + Tagged(b[n]);
    }
  }

  /** A failed request changes nothing in the result, wherever it settles. */
  lemma FailureAddsNothing(a: seq<BalanceReply>, b: seq<BalanceReply>)
    ensures Merged(a + [Failed] + b) == Merged(a + b)
  {
    MergedConcat(a + [Failed], b);
    MergedConcat(a, b);
    assert (a + [Failed])[..|a|] == a;
  }

  /** Merging a run with one reply in the middle adds that reply's tagged accounts. */
  lemma MergedAround(a: seq<BalanceReply>, x: BalanceReply, b: seq<BalanceReply>)
    ensures multiset(Merged(a + [x] + b)) == multiset(Merged(a + b)) + multiset(Tagged(x))
  {
    MergedConcat(a + [x], b);
    MergedConcat(a, [x]);
    MergedConcat(a, b);
    assert Merged([x]) == Tagged(x) by {
      assert [x][..0] == [];
    }
  }

  /** Taking element j out of a run removes one occurrence of it from the run's multiset. */
  lemma RemoveOne(ys: seq<BalanceReply>, j: nat)
    requires j < |ys|
    ensures ys == ys[..j] + [ys[j]] + ys[j + 1..]
    ensures multiset(ys[..j] + ys[j + 1..]) == multiset(ys) - multiset{ys[j]}
  {
  }

  /**
    The order in which the concurrent requests settle does not change the
    multiset of accounts collected.
   */
  lemma {:induction false} MergedOrderIrrelevant(xs: seq<BalanceReply>, ys: seq<BalanceReply>)
    requires multiset(xs) == multiset(ys)
    ensures multiset(Merged(xs)) == multiset(Merged(ys))
    decreases |xs|
  {
    if xs == [] {
      assert |ys| == |multiset(ys)| == 0;
    } else {
      var n := |xs| - 1;
      var x := xs[n];
      assert xs == xs[..n] + [x];
      assert x in multiset(ys);
      var j :| 0 <= j < |ys| && ys[j] == x;
      RemoveOne(ys, j);
      MergedAround(ys[..j], x, ys[j + 1..]);
      MergedOrderIrrelevant(xs[..n], ys[..j] + ys[j + 1..]);
    }
  }
}
