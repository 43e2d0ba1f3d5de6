# Linked-item registry of the fibox backend, in Dafny

This project models the logic of the fibox Express backend (`src/server.ts`)
that keeps a user's linked Plaid items. Every user row of `public.users` packs
its items into the single text column `plaid_tokens`. Each entry is
`access_token|item_id`, and entries are joined by `~`. The model covers:

- the JavaScript `split` and `join` the handlers use on that column (`JsStrings`);
- appending a newly linked item, taking the access tokens for the balance
  fan-out, and looking an item up by its item_id (`PlaidTokens`);
- the balance fan-out's tag-and-merge of per-item replies (`Balances`);
- the response envelope `responseObj`, the session check `verifyInstance`, and
  the `/login`, `/submitPublicToken`, `/getAllAccountData` and
  `/getTransactions` handlers over an in-memory users table (`Server`).

The model follows the code in places a reader might not expect:

- Appending to a NULL or empty column stores a leading `~`
  (`"~" + access_token + "|" + item_id`), because `''.split('~')` is `['']`.
  The empty first chunk is harmless: the balance fan-out drops empty chunks,
  and an empty chunk never names an item_id.
- Lookup by item_id is last match wins, not first match wins. The loop
  overwrites the token on every match. So the item linked most recently under
  an item_id shadows the earlier ones (`LookupAfterAppend`).
- The fan-out issues one request per non-empty chunk. Duplicate access tokens
  are not merged.
- A chunk counts as naming an item when its second `|`-field equals the
  item_id. That field is the text between the first and second `|`, not the
  rest of the chunk.

Provider calls (token exchange, balances, transactions) are function
parameters that give each call's outcome. The random login token is a
parameter too.

## Model

| member | source | states |
|---|---|---|
| JsStrings.Split | src/server.ts:152 | `split` always returns at least one piece, and no piece contains the separator |
| JsStrings.SplitHead | src/server.ts:210 | `split` gives a single piece exactly when the text has no separator; the first piece is the longest separator-free prefix |
| JsStrings.JoinSplit | src/server.ts:152-154 | joining the pieces of a split gives back the original text |
| JsStrings.SplitJoin | src/server.ts:152-154 | splitting a join of separator-free pieces gives back those pieces |
| JsStrings.JoinSnoc | src/server.ts:153-154 | joining one more pushed piece appends the separator and that piece |
| JsStrings.SplitSnoc | src/server.ts:152-154 | text followed by a separator and a separator-free piece splits into the old pieces plus that piece |
| JsStrings.Join | src/server.ts:154 | `join`: the separator between consecutive pieces, `""` for no pieces; `JoinSplit` and `SplitJoin` tie it to `Split` |
| PlaidTokens.AppendItem | src/server.ts:148-154 | the new column is the old text (NULL read as empty), then `~`, then the entry `access_token`, pipe, `item_id`; an empty column gives exactly `"~"` + access_token + pipe + item_id |
| PlaidTokens.StoredText | src/server.ts:148-151 | the column's text, with NULL read as the empty text; `AppendItem` states what the append builds on it |
| PlaidTokens.Entry | src/server.ts:153 | the entry access_token, pipe, item_id; `EntryFields` states that it splits back into those two fields |
| PlaidTokens.EntryFields | src/server.ts:153 | an entry whose fields contain no separator splits on the pipe into exactly its access token and item_id |
| PlaidTokens.AppendKeepsChunks | src/server.ts:152-154 | append keeps every existing `~`-chunk in order and adds exactly the new entry at the end |
| PlaidTokens.NonEmpty | src/server.ts:209 | the filter keeps exactly the non-empty chunks and never adds any |
| PlaidTokens.NonEmptyConcat | src/server.ts:209 | filtering distributes over concatenation, so the kept chunks stay in stored order |
| PlaidTokens.Credential | src/server.ts:210 | a chunk's credential is the prefix before its first pipe, and it contains no pipe |
| PlaidTokens.CredentialsOf | src/server.ts:208-210 | one credential per non-empty chunk, in order; each is the prefix of its chunk before the first pipe (the whole chunk when it has none) |
| PlaidTokens.CredentialsOfSnoc | src/server.ts:208-210 | a non-empty chunk at the end adds its credential at the end |
| PlaidTokens.Credentials | src/server.ts:205-210 | the fan-out's access tokens for a column: `CredentialsOf` its `~`-chunks; `CredentialsAfterAppend` and `CredentialsAfterLinking` state what they are after linking |
| PlaidTokens.CredentialsAfterAppend | src/server.ts:148-154 | after linking an item, the fan-out requests the old access tokens plus the new one, in that order |
| PlaidTokens.CredentialsAfterLinking | src/server.ts:201-210 | linking items into an empty column makes the fan-out request exactly their access tokens, in linking order; the leading empty chunk contributes nothing |
| PlaidTokens.FieldLists | src/server.ts:241-242 | one pipe-field list per `~`-chunk, each with at least one field; list k holds pipe-free fields that join back with the pipe into chunk k |
| PlaidTokens.Names | src/server.ts:246 | `tokenPair[1] === item_id`: the chunk has a second field and it equals the item_id; `UnpairedNeverNames` covers the chunk without a pipe |
| PlaidTokens.UnpairedNeverNames | src/server.ts:246 | a chunk without a pipe never matches any item_id |
| PlaidTokens.LastMatchIsLast | src/server.ts:244-249 | the loop's result is None exactly when no chunk names the item; otherwise it is field 0 of the last chunk that does |
| PlaidTokens.AccessTokenIsLastMatch | src/server.ts:244-252 | a token is used exactly when the last naming chunk has a non-empty credential; 'Invalid item_id' exactly when no chunk names the item or that credential is empty |
| PlaidTokens.AccessTokenFor | src/server.ts:244-252 | the token `/getTransactions` uses for an item_id; `AccessTokenIsLastMatch` characterizes it and `LookupAccessToken` computes it with the source's loop |
| PlaidTokens.LookupAccessToken | src/server.ts:237-252 | the overwriting loop plus the `!access_token` test computes the last-match lookup |
| PlaidTokens.AppendFieldLists | src/server.ts:153 | after appending, the field lists are the old ones plus `[access_token, item_id]` |
| PlaidTokens.LookupAfterAppend | src/server.ts:245-249 | after linking an item, looking up its item_id gives its access token (or nothing if that token is empty), whatever entries came before |
| PlaidTokens.LookupOtherAfterAppend | src/server.ts:245-249 | linking an item does not change the lookup of any other item_id |
| PlaidTokens.LookupAfterLinking | src/server.ts:244-252 | after linking items into an empty column, a lookup gives the token of the last item linked under that item_id |
| Balances.GatherAccounts | src/server.ts:172-185 | the sequential fold of `accountsLS = accountsLS.concat(...)` computes the merge of the replies |
| Balances.Tagged | src/server.ts:180 | one reply's accounts, each tagged with the reply's item_id; nothing for a failed request |
| Balances.Merged | src/server.ts:172-185 | `accountsLS` after the replies settle in the given order; `MergedMembership`, `MergedConcat` and `MergedOrderIrrelevant` state its properties |
| Balances.MergedMembership | src/server.ts:179-181 | an account is in the result exactly when a successful reply lists it, tagged with that reply's item_id |
| Balances.MergedConcat | src/server.ts:181 | merging two runs of replies is merging each and concatenating the results |
| Balances.FailureAddsNothing | src/server.ts:182-185 | a failed request adds nothing to the result, wherever it settles |
| Balances.MergedOrderIrrelevant | src/server.ts:207-212 | any settling order of the concurrent requests gives the same multiset of tagged accounts |
| Server.ResponseObj | src/server.ts:30-36 | result is "success" exactly when hasSucceeded, and "failed" otherwise; message and data pass through unchanged |
| Server.Verified | src/server.ts:38-44 | `verifyInstance`: a row has this username and this instance_id, and a NULL instance_id matches nothing; `UserStore.VerifyInstance` computes it |
| Server.AfterLogin | src/server.ts:80-93 | login changes only the user's instance_id, and only when the user exists and the password matches; then exactly the fresh token verifies |
| Server.LoginResponse | src/server.ts:80-94 | 'User not found', 'Wrong password', or success carrying the fresh token |
| Server.SecondLoginEndsFirstSession | src/server.ts:88-93 | a second login with a different token makes the first token fail verification |
| Server.AfterSubmit | src/server.ts:133-159 | linking rewrites only the user's plaid_tokens, to the appended value, and only for a verified session and a successful exchange; the password, every session and every other row stay as they were |
| Server.SubmitResponse | src/server.ts:133-165 | 'Invalid user' when the session fails, 'Plaid Error' when the exchange fails, success otherwise |
| Server.LinkedItemIsUsed | src/server.ts:148-159 | after a successful link, the fan-out requests the new access token last and a lookup of its item_id finds it |
| Server.BalanceReplies | src/server.ts:207-211 | one balance request per credential, in stored order |
| Server.UserStore.VerifyInstance | src/server.ts:38-44 | true exactly when a user with that username exists and its stored instance_id equals the token |
| Server.UserStore.Login | src/server.ts:80-94 | the table and the response after `/login` are those of AfterLogin and LoginResponse |
| Server.UserStore.SubmitPublicToken | src/server.ts:133-165 | the table and the response after `/submitPublicToken` are those of AfterSubmit and SubmitResponse |
| Server.UserStore.GetAllAccountData | src/server.ts:191-214 | 'Invalid user' without a session; otherwise success carrying the merge of one reply per stored credential, even when every request failed |
| Server.UserStore.GetTransactions | src/server.ts:227-270 | 'Invalid user' without a session, 'Invalid item_id' when the lookup finds no usable token, otherwise the provider's transactions for that token, or 'server error' if the call fails |

## Left out

- HTTP routing, the query-parameter presence checks, status codes and `app.listen` are transport. So is `parseInt` of the session token; the model takes the token as an integer.
- The pg pool, the SQL text and the dotenv configuration are left out. The users table is a map from username to row.
- `/signup` is left out. Whether a second row with the same username fails depends on a table schema that is not part of this model. Rows are given to the `UserStore` constructor.
- `/newLinkToken` and every Plaid request body are remote calls. Their outcomes are parameters: `ExchangeReply`, `balanceOf`, `transactionsOf`.
- `Math.random()` is left out. The fresh login token is a parameter, and the source's range `0 <= token < 10^7` is not modelled.
- `Promise.all` concurrency is modelled as a sequential fold. `MergedOrderIrrelevant` states that the settling order changes nothing in the multiset of accounts.
- The lost-update race between two concurrent appends to the same row is a concurrency effect and is not modelled.
- Console logging of caught errors is left out.
- Database failures and a row that disappears between the session check and the read are left out. The handlers answer them differently: `/login` answers a failed query with 'Server Error'; a failure inside the `try` of `/submitPublicToken` gives 'Plaid Error' and inside that of `/getTransactions` 'server error'; and a failed `verifyInstance` query is awaited outside any `try`, so no response is sent at all.
- The transactions request's fixed dates, `count: 35` and the account filter go to the provider unchanged. The model passes only the access token and account id to `transactionsOf`.
- Account objects keep only an id and a name. The handler copies accounts unchanged apart from the item_id tag, so their other fields (floating-point balances and so on) do not affect any property.
- The earlier top-level `server.ts` is a draft whose `/submitPublicToken` never writes the column. It holds no logic beyond the handlers modelled here.
