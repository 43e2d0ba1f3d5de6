/**
  The `plaid_tokens` column of a user row: every item the user has linked,
  written `access_token|item_id`, the entries joined by `~`. Three handlers
  work on it: `/submitPublicToken` appends an entry, `/getAllAccountData`
  takes the access token of every entry, and `/getTransactions` looks an entry
  up by its item_id.
 */
module PlaidTokens {
  import opened Wrappers
  import opened JsStrings

  /** Separates the entries of the column. */
  const ItemSeparator: char := '~'
  /** Separates the access token from the item_id inside an entry. */
  const PairSeparator: char := '|'

  /** One linked item as the token exchange returns it. */
  datatype Item = Item(accessToken: string, itemId: string)

  /** Neither field contains a separator, so the entry reads back as written. */
  predicate Plain(item: Item)
  {
    && ItemSeparator !in item.accessToken && PairSeparator !in item.accessToken
    && ItemSeparator !in item.itemId && PairSeparator !in item.itemId
  }

  /**
    The text the handlers work on: a NULL column (None) and an empty one both
    fail `!cur_tokens` and are replaced by "".
   */
  function StoredText(column: Option<string>): string
  {
    if column.None? then "" else column.value
  }

  /** `${access_token}|${item_id}`. */
  function Entry(item: Item): string
  {
    item.accessToken + [PairSeparator] + item.itemId
  }

  /** The `~`-chunks of the column, as `cur_tokens.split('~')` gives them. */
  function Chunks(column: Option<string>): seq<string>
  {
    Split(StoredText(column), ItemSeparator)
  }

  // ---------------------------------------------------------------------------
  // Append (/submitPublicToken)

  /**
    The value written back after linking `item`: split on `~`, push the entry,
    join on `~`. Whatever was stored is kept verbatim and the entry follows a
    `~`, so a column that was NULL or empty becomes "~" + entry, with a leading
    separator.
   */
  function AppendItem(column: Option<string>, item: Item): (stored: string)
    ensures stored == StoredText(column) + [ItemSeparator] + Entry(item)
    ensures StoredText(column) == "" ==> stored == "~" + item.accessToken + "|" + item.itemId
  {
    var chunks := Chunks(column);
    JoinSplit(StoredText(column), ItemSeparator);
    JoinSnoc(chunks, Entry(item), ItemSeparator);
    Join(chunks + [Entry(item)], ItemSeparator)
  }

  /** An entry of a plain item splits on `|` into exactly its two fields. */
  lemma EntryFields(item: Item)
    requires Plain(item)
    ensures Split(Entry(item), PairSeparator) == [item.accessToken, item.itemId]
  {
    var fields := [item.accessToken, item.itemId];
    assert Join(fields, PairSeparator) == Entry(item);
    SplitJoin(fields, PairSeparator);
  }

  /** Appending keeps every stored chunk, in order, and adds exactly the new entry at the end. */
  lemma AppendKeepsChunks(column: Option<string>, item: Item)
    requires Plain(item)
    ensures Chunks(Some(AppendItem(column, item))) == Chunks(column) + [Entry(item)]
  {
    assert ItemSeparator !in Entry(item) by {
      var e := Entry(item);
      forall k | 0 <= k < |e| ensures e[k] != ItemSeparator {
        if k < |item.accessToken| {
          assert e[k] == item.accessToken[k];
        } else if k > |item.accessToken| {
          assert e[k] == item.itemId[k - |item.accessToken| - 1];
        }
      }
    }
    SplitSnoc(StoredText(column), Entry(item), ItemSeparator);
  }

  /** The column after linking `items` one after the other. */
  function Linked(column: Option<string>, items: seq<Item>): Option<string>
  {
    if items == [] then column
    else Some(AppendItem(Linked(column, items[..|items| - 1]), items[|items| - 1]))
  }

  // ---------------------------------------------------------------------------
  // Credential extraction (/getAllAccountData)

  /** `chunks.filter(i => i && i.length !== 0)`: the non-empty chunks, in order. */
  function NonEmpty(chunks: seq<string>): (kept: seq<string>)
    ensures |kept| <= |chunks|
    ensures forall x :: x in kept <==> x in chunks && x != []
  {
    if chunks == [] then []
    else (if chunks[0] != [] then [chunks[0]] else []) + NonEmpty(chunks[1..])
  }

  lemma {:induction false} NonEmptyConcat(a: seq<string>, b: seq<string>)
    ensures NonEmpty(a + b) == NonEmpty(a) + NonEmpty(b)
  {
    if a != [] {
      assert (a + b)[1..] == a[1..] + b;
      NonEmptyConcat(a[1..], b);
    } else {
      assert a + b == b;
    }
  }

  /** `chunk.split('|')[0]`: the text of a chunk before its first `|`. */
  function Credential(chunk: string): (token: string)
    ensures token <= chunk
    ensures PairSeparator !in token
    ensures |token| < |chunk| ==> chunk[|token|] == PairSeparator
  {
    SplitHead(chunk, PairSeparator);
    Split(chunk, PairSeparator)[0]
  }

  /** `.map(tokenPair => tokenPair.split('|')[0])` applied to the non-empty chunks. */
  function CredentialsOf(chunks: seq<string>): (tokens: seq<string>)
    ensures |tokens| == |NonEmpty(chunks)|
    ensures forall k :: 0 <= k < |tokens| ==>
      tokens[k] <= NonEmpty(chunks)[k] && PairSeparator !in tokens[k]
      && (|tokens[k]| < |NonEmpty(chunks)[k]| ==> NonEmpty(chunks)[k][|tokens[k]|] == PairSeparator)
  {
    var kept := NonEmpty(chunks);
    seq(|kept|, k requires 0 <= k < |kept| => Credential(kept[k]))
  }

  /** A non-empty chunk at the end adds its credential at the end. */
  lemma CredentialsOfSnoc(chunks: seq<string>, chunk: string)
    requires chunk != ""
    ensures CredentialsOf(chunks + [chunk]) == CredentialsOf(chunks) + [Credential(chunk)]
  {
    NonEmptyConcat(chunks, [chunk]);
    assert NonEmpty([chunk]) == [chunk];
  }

  /**
    The access tokens the balance fan-out requests, one per non-empty chunk in
    stored order; empty chunks, such as the one before a leading `~`, give none.
   */
  function Credentials(column: Option<string>): seq<string>
  {
    CredentialsOf(Chunks(column))
  }

  /** Linking a plain item adds exactly its access token after the existing ones. */
  lemma CredentialsAfterAppend(column: Option<string>, item: Item)
    requires Plain(item)
    ensures Credentials(Some(AppendItem(column, item))) == Credentials(column) + [item.accessToken]
  {
    AppendKeepsChunks(column, item);
    CredentialsOfSnoc(Chunks(column), Entry(item));
    EntryFields(item);
  }

  /** The access tokens of `items`, in order. */
  function AccessTokens(items: seq<Item>): seq<string>
  {
    if items == [] then [] else AccessTokens(items[..|items| - 1]) + [items[|items| - 1].accessToken]
  }

  /** Linking plain items into an empty column yields their access tokens, in linking order. */
  lemma {:induction false} CredentialsAfterLinking(items: seq<Item>)
    requires forall k :: 0 <= k < |items| ==> Plain(items[k])
    ensures Credentials(Linked(None, items)) == AccessTokens(items)
  {
    if items == [] {
      assert Chunks(None) == [""];
    } else {
      var n := |items| - 1;
      var before := Linked(None, items[..n]);
      CredentialsAfterLinking(items[..n]);
      CredentialsAfterAppend(before, items[n]);
    }
  }

  // ---------------------------------------------------------------------------
  // Lookup by item_id (/getTransactions)

  /** Every text of `texts` is the join of its own split. */
  lemma JoinSplitEach(texts: seq<string>, c: char)
    ensures forall k :: 0 <= k < |texts| ==> Join(Split(texts[k], c), c) == texts[k]
  {
    forall k | 0 <= k < |texts|
      ensures Join(Split(texts[k], c), c) == texts[k]
    {
      JoinSplit(texts[k], c);
    }
  }

  /** `tokens_ls.map(i => i.split('|'))`: the `|`-fields of every `~`-chunk. */
  function FieldLists(column: Option<string>): (pairs: seq<seq<string>>)
    ensures |pairs| == |Chunks(column)|
    ensures forall k :: 0 <= k < |pairs| ==> |pairs[k]| >= 1
    ensures forall k :: 0 <= k < |pairs| ==>
      Join(pairs[k], PairSeparator) == Chunks(column)[k]
      && forall j :: 0 <= j < |pairs[k]| ==> PairSeparator !in pairs[k][j]
  {
    var chunks := Chunks(column);
    JoinSplitEach(chunks, PairSeparator);
    seq(|chunks|, k requires 0 <= k < |chunks| => Split(chunks[k], PairSeparator))
  }

  /**
    `tokenPair[1] === item_id`: field 1 is the text between the first and the
    second `|` of the chunk. A chunk without `|` has no field 1 (it reads as
    undefined) and never matches.
   */
  predicate Names(fields: seq<string>, itemId: string)
  {
    |fields| >= 2 && fields[1] == itemId
  }

  lemma UnpairedNeverNames(chunk: string, itemId: string)
    requires PairSeparator !in chunk
    ensures !Names(Split(chunk, PairSeparator), itemId)
  {
  }

  /** Chunk k names the item and no later chunk does. */
  predicate LastNaming(pairs: seq<seq<string>>, k: int, itemId: string)
  {
    0 <= k < |pairs| && Names(pairs[k], itemId)
    && forall j :: k < j < |pairs| ==> !Names(pairs[j], itemId)
  }

  /** The credential (field 0) of the last chunk that names the item: later matches overwrite earlier ones. */
  function LastMatch(pairs: seq<seq<string>>, itemId: string): Option<string>
  {
    if pairs == [] then None
    else if Names(pairs[|pairs| - 1], itemId) then Some(pairs[|pairs| - 1][0])
    else LastMatch(pairs[..|pairs| - 1], itemId)
  }

  /** LastMatch finds nothing exactly when no chunk names the item, and otherwise gives the last naming chunk's field 0. */
  lemma {:induction false} LastMatchIsLast(pairs: seq<seq<string>>, itemId: string)
    ensures LastMatch(pairs, itemId).None? <==> forall k :: 0 <= k < |pairs| ==> !Names(pairs[k], itemId)
    ensures LastMatch(pairs, itemId).Some? ==>
      exists k :: LastNaming(pairs, k, itemId) && LastMatch(pairs, itemId).value == pairs[k][0]
  {
    if pairs != [] {
      var n := |pairs| - 1;
      if Names(pairs[n], itemId) {
        assert LastNaming(pairs, n, itemId);
      } else {
        var prefix := pairs[..n];
        LastMatchIsLast(prefix, itemId);
        assert forall k :: 0 <= k < n ==> prefix[k] == pairs[k];
        if LastMatch(prefix, itemId).Some? {
          var k :| LastNaming(prefix, k, itemId) && LastMatch(prefix, itemId).value == prefix[k][0];
          assert LastNaming(pairs, k, itemId);
        }
      }
    }
  }

  /**
    The access token `/getTransactions` uses for `itemId`: the credential of
    the last chunk naming it, unless no chunk names it or that credential is
    empty (the `!access_token` test); None is answered with 'Invalid item_id'.
   */
  function AccessTokenFor(column: Option<string>, itemId: string): Option<string>
  {
    var found := LastMatch(FieldLists(column), itemId);
    if found.Some? && found.value != "" then found else None
  }

  /**
    The lookup yields a token exactly when some chunk names the item and the
    last such chunk has a non-empty credential, and the token is that credential.
   */
  lemma AccessTokenIsLastMatch(column: Option<string>, itemId: string)
    ensures AccessTokenFor(column, itemId).Some? ==>
      exists k :: LastNaming(FieldLists(column), k, itemId)
        && AccessTokenFor(column, itemId).value == FieldLists(column)[k][0] != ""
    ensures AccessTokenFor(column, itemId).None? <==>
      (forall k :: 0 <= k < |FieldLists(column)| ==> !Names(FieldLists(column)[k], itemId))
      || (exists k :: LastNaming(FieldLists(column), k, itemId) && FieldLists(column)[k][0] == "")
  {
    var pairs := FieldLists(column);
    LastMatchIsLast(pairs, itemId);
    if LastMatch(pairs, itemId).Some? {
      var k :| LastNaming(pairs, k, itemId) && LastMatch(pairs, itemId).value == pairs[k][0];
      assert forall j :: LastNaming(pairs, j, itemId) ==> j == k;
    }
  }

  /**
    The lookup loop of `/getTransactions`: split the column on `~`, each chunk
    on `|`, walk the chunks overwriting the token on every match, then apply
    the `!access_token` test.
   */
  method LookupAccessToken(column: Option<string>, itemId: string) returns (token: Option<string>)
    ensures token == AccessTokenFor(column, itemId)
  {
    var pairs := FieldLists(column);
    var accessToken: Option<string> := None;
    for k := 0 to |pairs|
      invariant accessToken == LastMatch(pairs[..k], itemId)
    {
      if |pairs[k]| >= 2 && pairs[k][1] == itemId {
        accessToken := Some(pairs[k][0]);
      }
      assert pairs[..k + 1][..k] == pairs[..k];
    }
    assert pairs[..|pairs|] == pairs;
    if accessToken.None? || accessToken.value == "" {
      token := None;
    } else {
      token := accessToken;
    }
  }

  /** Appending a plain item adds its two fields as the last field list. */
  lemma AppendFieldLists(column: Option<string>, item: Item)
    requires Plain(item)
    ensures FieldLists(Some(AppendItem(column, item))) == FieldLists(column) + [[item.accessToken, item.itemId]]
  {
    AppendKeepsChunks(column, item);
    EntryFields(item);
  }

  /**
    The item linked last shadows every earlier entry with the same item_id:
    the lookup gives its access token, or nothing when that token is empty.
   */
  lemma LookupAfterAppend(column: Option<string>, item: Item)
    requires Plain(item)
    ensures AccessTokenFor(Some(AppendItem(column, item)), item.itemId)
         == if item.accessToken != "" then Some(item.accessToken) else None
  {
    AppendFieldLists(column, item);
  }

  /** Linking an item leaves the lookup of every other item_id as it was. */
  lemma LookupOtherAfterAppend(column: Option<string>, item: Item, itemId: string)
    requires Plain(item) && itemId != item.itemId
    ensures AccessTokenFor(Some(AppendItem(column, item)), itemId) == AccessTokenFor(column, itemId)
  {
    var pairs := FieldLists(column);
    var pairs' := FieldLists(Some(AppendItem(column, item)));
    AppendFieldLists(column, item);
    assert pairs'[..|pairs'| - 1] == pairs;
    assert !Names(pairs'[|pairs'| - 1], itemId);
    assert LastMatch(pairs', itemId) == LastMatch(pairs, itemId);
  }

  /** What the lookup of `itemId` gives after linking `items`: the token of the last of them with that item_id. */
  function LastLinked(items: seq<Item>, itemId: string): Option<string>
  {
    if items == [] then None
    else
      var item := items[|items| - 1];
      if item.itemId == itemId then
        if item.accessToken != "" then Some(item.accessToken) else None
      else LastLinked(items[..|items| - 1], itemId)
  }

  /** Linking plain items into an empty column, the lookup of any item_id finds the last item linked under it. */
  lemma {:induction false} LookupAfterLinking(items: seq<Item>, itemId: string)
    requires forall k :: 0 <= k < |items| ==> Plain(items[k])
    ensures AccessTokenFor(Linked(None, items), itemId) == LastLinked(items, itemId)
  {
    if items == [] {
      var pairs := FieldLists(None);
      assert Chunks(None) == [""];
      assert pairs == [[""]];
      assert !Names(pairs[0], itemId);
      assert pairs[..0] == [];
      assert LastMatch(pairs, itemId) == LastMatch([], itemId);
      assert Linked(None, items) == None;
    } else {
      var n := |items| - 1;
      var before := Linked(None, items[..n]);
      if items[n].itemId == itemId {
        LookupAfterAppend(before, items[n]);
      } else {
        LookupAfterLinking(items[..n], itemId);
        LookupOtherAfterAppend(before, items[n], itemId);
      }
    }
  }
}
