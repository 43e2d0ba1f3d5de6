/**
  The request handlers of the Express server that carry logic: the response
  envelope, the session check, login, linking an item, the balance fan-out and
  the transactions lookup. The `public.users` table is an in-memory map from
  username to row; every call to the provider is a function parameter that
  gives the outcome of that call.
 */
module Server {
  import opened Wrappers
  import opened PlaidTokens
  import opened Balances

  /** A transaction as the provider returns it; the handler forwards it unchanged. */
  datatype Transaction = Transaction(transactionId: string, accountId: string)

  /** The `data` field of a response envelope. */
  datatype Payload =
    | NoData                                      // the default `{}`
    | InstanceToken(token: int)                   // `{token: instance_token}`
    | Accounts(accounts: seq<TaggedAccount>)
    | Transactions(transactions: seq<Transaction>)

  /** `{result, message, data}`. */
  datatype Response = Response(result: string, message: string, data: Payload)

  /** `responseObj`: "success" exactly when the call succeeded; message and data pass through. */
  function ResponseObj(hasSucceeded: bool, message: string, data: Payload): (r: Response)
    ensures r.result == "success" <==> hasSucceeded
    ensures r.result == "failed" <==> !hasSucceeded
    ensures r.message == message && r.data == data
  {
    Response(if hasSucceeded then "success" else "failed", message, data)
  }

  /** A row of `public.users`: a NULL `instance_id` or `plaid_tokens` is None. */
  datatype UserRecord = UserRecord(password: string, instanceId: Option<int>, plaidTokens: Option<string>)

  /** How `/item/public_token/exchange` ended. */
  datatype ExchangeReply = Exchanged(item: Item) | ExchangeFailed

  /** How `/transactions/get` ended. */
  datatype TransactionsReply = TransactionsFetched(transactions: seq<Transaction>) | TransactionsFailed

  /** `verifyInstance`: a row has this username and this instance_id (a NULL instance_id matches nothing). */
  predicate Verified(users: map<string, UserRecord>, username: string, token: int)
  {
    username in users && users[username].instanceId == Some(token)
  }

  // ---------------------------------------------------------------------------
  // /login

  /** Whether the login succeeds: the user exists and the stored password equals the presented one. */
  predicate PasswordMatches(users: map<string, UserRecord>, username: string, password: string)
  {
    username in users && users[username].password == password
  }

  /**
    The table after `/login`: on success the user's instance_id becomes the
    fresh token; nothing else changes, in that row or any other.
   */
  function AfterLogin(users: map<string, UserRecord>, username: string, password: string, freshToken: int)
    : (users': map<string, UserRecord>)
    ensures users'.Keys == users.Keys
    ensures forall u :: u in users && u != username ==> users'[u] == users[u]
    ensures username in users ==>
      users'[username].password == users[username].password
      && users'[username].plaidTokens == users[username].plaidTokens
    ensures PasswordMatches(users, username, password) ==>
      Verified(users', username, freshToken)
      && forall t :: t != freshToken ==> !Verified(users', username, t)
    ensures !PasswordMatches(users, username, password) ==> users' == users
  {
    if PasswordMatches(users, username, password) then
      users[username := users[username].(instanceId := Some(freshToken))]
    else
      users
  }

  /** The response of `/login`: 'User not found', 'Wrong password', or success with the token. */
  function LoginResponse(users: map<string, UserRecord>, username: string, password: string, freshToken: int)
    : (r: Response)
    ensures r.result == "success" <==> PasswordMatches(users, username, password)
    ensures username !in users ==> r.message == "User not found"
    ensures username in users && !PasswordMatches(users, username, password) ==> r.message == "Wrong password"
    ensures r.result == "success" ==> r.data == InstanceToken(freshToken)
  {
    if username !in users then ResponseObj(false, "User not found", NoData)
    else if users[username].password != password then ResponseObj(false, "Wrong password", NoData)
    else ResponseObj(true, "", InstanceToken(freshToken))
  }

  /** A second login replaces the first session: only the newest token verifies. */
  lemma SecondLoginEndsFirstSession(users: map<string, UserRecord>, username: string, password: string,
                                    first: int, second: int)
    requires PasswordMatches(users, username, password) && first != second
    ensures !Verified(AfterLogin(AfterLogin(users, username, password, first), username, password, second),
                      username, first)
  {
  }

  // ---------------------------------------------------------------------------
  // /submitPublicToken

  /**
    The table after `/submitPublicToken`: when the session verifies and the
    exchange succeeds, the user's plaid_tokens becomes the appended value;
    otherwise nothing changes. No session and no other row changes.
   */
  function AfterSubmit(users: map<string, UserRecord>, username: string, token: int, exchange: ExchangeReply)
    : (users': map<string, UserRecord>)
    ensures users'.Keys == users.Keys
    ensures forall u :: u in users && u != username ==> users'[u] == users[u]
    ensures forall u, t :: Verified(users', u, t) <==> Verified(users, u, t)
    ensures Verified(users, username, token) && exchange.Exchanged? ==>
      users'[username].password == users[username].password
      && users'[username].instanceId == users[username].instanceId
      && users'[username].plaidTokens == Some(AppendItem(users[username].plaidTokens, exchange.item))
    ensures !Verified(users, username, token) || exchange.ExchangeFailed? ==> users' == users
  {
    if Verified(users, username, token) && exchange.Exchanged? then
      var row := users[username];
      users[username := row.(plaidTokens := Some(AppendItem(row.plaidTokens, exchange.item)))]
    else
      users
  }

  /** The response of `/submitPublicToken`: 'Invalid user', 'Plaid Error', or success. */
  function SubmitResponse(users: map<string, UserRecord>, username: string, token: int, exchange: ExchangeReply)
    : (r: Response)
    ensures r.result == "success" <==> Verified(users, username, token) && exchange.Exchanged?
    ensures !Verified(users, username, token) ==> r.message == "Invalid user"
    ensures Verified(users, username, token) && exchange.ExchangeFailed? ==> r.message == "Plaid Error"
  {
    if !Verified(users, username, token) then ResponseObj(false, "Invalid user", NoData)
    else if exchange.ExchangeFailed? then ResponseObj(false, "Plaid Error", NoData)
    else ResponseObj(true, "", NoData)
  }

  /**
    After a successful link of a plain item, the balance fan-out requests one
    more access token, the new one, and the lookup of its item_id finds it.
   */
  lemma LinkedItemIsUsed(users: map<string, UserRecord>, username: string, token: int, item: Item)
    requires Verified(users, username, token) && Plain(item) && item.accessToken != ""
    ensures var users' := AfterSubmit(users, username, token, Exchanged(item));
      && Credentials(users'[username].plaidTokens) == Credentials(users[username].plaidTokens) + [item.accessToken]
      && AccessTokenFor(users'[username].plaidTokens, item.itemId) == Some(item.accessToken)
  {
    CredentialsAfterAppend(users[username].plaidTokens, item);
    LookupAfterAppend(users[username].plaidTokens, item);
  }

  // ---------------------------------------------------------------------------
  // /getAllAccountData and /getTransactions

  /** One balance reply per access token, in the order the tokens are stored. */
  function BalanceReplies(tokens: seq<string>, balanceOf: string -> BalanceReply): (replies: seq<BalanceReply>)
    ensures |replies| == |tokens|
    ensures forall k :: 0 <= k < |tokens| ==> replies[k] == balanceOf(tokens[k])
  {
    seq(|tokens|, k requires 0 <= k < |tokens| => balanceOf(tokens[k]))
  }

  /** The users table and the handlers that read or write it. */
  class UserStore {
    var users: map<string, UserRecord>

    constructor (users: map<string, UserRecord>)
      ensures this.users == users
    {
      this.users := users;
    }

    /** `verifyInstance(user, token)`. */
    method VerifyInstance(username: string, token: int) returns (ok: bool)
      ensures ok <==> username in users && users[username].instanceId == Some(token)
    {
      ok := false;
      if username in users {
        var row := users[username];
        ok := row.instanceId == Some(token);
      }
    }

    /** `/login`, with the random instance token given as `freshToken`. */
    method Login(username: string, password: string, freshToken: int) returns (r: Response)
      modifies this
      ensures users == AfterLogin(old(users), username, password, freshToken)
      ensures r == LoginResponse(old(users), username, password, freshToken)
    {
      if username !in users {
        r := ResponseObj(false, "User not found", NoData);
        return;
      }
      if users[username].password != password {
        r := ResponseObj(false, "Wrong password", NoData);
        return;
      }
      users := users[username := users[username].(instanceId := Some(freshToken))];
      r := ResponseObj(true, "", InstanceToken(freshToken));
    }

    /** `/submitPublicToken`, with the token exchange's outcome given as `exchange`. */
    method SubmitPublicToken(username: string, token: int, exchange: ExchangeReply) returns (r: Response)
      modifies this
      ensures users == AfterSubmit(old(users), username, token, exchange)
      ensures r == SubmitResponse(old(users), username, token, exchange)
    {
      var isVerified := VerifyInstance(username, token);
      if !isVerified {
        r := ResponseObj(false, "Invalid user", NoData);
        return;
      }
      match exchange
      case ExchangeFailed =>
        r := ResponseObj(false, "Plaid Error", NoData);
      case Exchanged(item) =>
        var row := users[username];
        var newTokens := AppendItem(row.plaidTokens, item);
        users := users[username := row.(plaidTokens := Some(newTokens))];
        r := ResponseObj(true, "", NoData);
    }

    /**
      `/getAllAccountData`: one balance request per stored access token, the
      successful replies' accounts tagged and merged; failed requests are
      dropped and the call still succeeds.
     */
    method GetAllAccountData(username: string, token: int, balanceOf: string -> BalanceReply)
      returns (r: Response)
      ensures !Verified(users, username, token) ==> r == ResponseObj(false, "Invalid user", NoData)
      ensures Verified(users, username, token) ==>
        r == ResponseObj(true, "", Accounts(Merged(BalanceReplies(Credentials(users[username].plaidTokens), balanceOf))))
    {
      var isVerified := VerifyInstance(username, token);
      if !isVerified {
        r := ResponseObj(false, "Invalid user", NoData);
        return;
      }
      var tokens := Credentials(users[username].plaidTokens);
      var accountsLS := GatherAccounts(BalanceReplies(tokens, balanceOf));
      r := ResponseObj(true, "", Accounts(accountsLS));
    }

    /**
      `/getTransactions`: the item_id is looked up in the stored column; an
      unknown item_id (or an empty credential) is 'Invalid item_id', a failed
      provider call is 'server error'.
     */
    method GetTransactions(username: string, token: int, itemId: string, accountId: string,
                           transactionsOf: (string, string) -> TransactionsReply)
      returns (r: Response)
      ensures !Verified(users, username, token) ==> r == ResponseObj(false, "Invalid user", NoData)
      ensures Verified(users, username, token) ==>
        match AccessTokenFor(users[username].plaidTokens, itemId)
        case None => r == ResponseObj(false, "Invalid item_id", NoData)
        case Some(accessToken) =>
          match transactionsOf(accessToken, accountId)
          case TransactionsFetched(transactions) => r == ResponseObj(true, "", Transactions(transactions))
          case TransactionsFailed => r == ResponseObj(false, "server error", NoData)
    {
      var isVerified := VerifyInstance(username, token);
      if !isVerified {
        r := ResponseObj(false, "Invalid user", NoData);
        return;
      }
      var accessToken := LookupAccessToken(users[username].plaidTokens, itemId);
      match accessToken
      case None =>
        r := ResponseObj(false, "Invalid item_id", NoData);
      case Some(t) =>
        match transactionsOf(t, accountId)
        case TransactionsFetched(transactions) =>
          r := ResponseObj(true, "", Transactions(transactions));
        case TransactionsFailed =>
          r := ResponseObj(false, "server error", NoData);
    }
  }
}
