/**
 * The read-only operations of `MongoStorage`: lookups in the three
 * collections and the expiry comparisons. Each reads the collection it
 * queries, passed as a map from `_id` to document.
 */
module Queries {
  import opened Records

  /** `get_client_credentials`: the client document stored under `clientId`. */
  function GetClientCredentials(clients: map<string, Client>, clientId: string): (r: Option<Client>)
    ensures r.Some? <==> clientId in clients
    ensures r.Some? ==> r.value == clients[clientId]
  {
    if clientId in clients then Some(clients[clientId]) else None
  }

  /** `exists_client` as written: the cursor `find` returns is never None, so the
      test holds whatever the collection holds. */
  function ExistsClientAsWritten(clients: map<string, Client>, clientId: string): (r: bool)
    ensures r
  {
    true
  }

  /** `exists_client` as its docstring intends: a client is registered under
      `clientId` exactly when its credentials can be read back. */
  function ExistsClient(clients: map<string, Client>, clientId: string): (r: bool)
    ensures r <==> GetClientCredentials(clients, clientId).Some?
  {
    clientId in clients
  }

  /** An unregistered client passes `exists_client` as written. */
  lemma ExistsClientAsWrittenAdmitsUnknown()
    ensures var clients: map<string, Client> := map[];
      ExistsClientAsWritten(clients, "unknown") && !ExistsClient(clients, "unknown")
  {
  }

  /** The compound match `find_one({'_id': code, 'client_id': clientId})`. */
  function FindCode(codes: map<string, Code>, code: string, clientId: string): Option<Code>
  {
    if code in codes && codes[code].client_id == clientId then Some(codes[code]) else None
  }

  /** `exists_code`: some document is stored under `code`, whichever client it
      was issued to and whether or not it has expired. */
  function ExistsCode(codes: map<string, Code>, code: string): (r: bool)
    ensures r <==> exists clientId :: FindCode(codes, code, clientId).Some?
  {
    if code in codes then
      assert FindCode(codes, code, codes[code].client_id).Some?;
      true
    else
      false
  }

  /** `get_user_id`: the user a code was issued for, found by the compound match
      on code and client; subscripting the None of a miss raises TypeError.
      Expiry is not consulted. */
  function GetUserId(codes: map<string, Code>, clientId: string, code: string): (r: Result<UserId>)
    ensures r.Ok? <==> ExistsCode(codes, code) && codes[code].client_id == clientId
    ensures r.Ok? ==> r.value == codes[code].user_id
  {
    match FindCode(codes, code, clientId)
    case Some(data) => Ok(data.user_id)
    case None => TypeError
  }

  /** `valid_code`: the code was issued to this very client and `now` is
      strictly before its expiry. */
  function ValidCode(codes: map<string, Code>, clientId: string, code: string, now: Time): (r: bool)
    ensures r <==> code in codes && codes[code].client_id == clientId && now < codes[code].expires
    ensures r ==> ExistsCode(codes, code) && GetUserId(codes, clientId, code) == Ok(codes[code].user_id)
  {
    match FindCode(codes, code, clientId)
    case Some(data) => now < data.expires
    case None => false
  }

  /** `expired_access_token`: strictly past the access expiry. */
  function ExpiredAccessToken(token: Token, now: Time): (r: bool)
    ensures now <= token.expires_access ==> !r
    ensures token.expires_access < now ==> r
  {
    token.expires_access < now
  }

  /** `expired_refresh_token`: strictly past the refresh expiry; a record saved
      with no refresh expiry cannot be compared with a datetime and raises. */
  function ExpiredRefreshToken(token: Token, now: Time): (r: Result<bool>)
    ensures r.TypeError? <==> token.expires_refresh.None?
    ensures r == Ok(true) <==> token.expires_refresh.Some? && token.expires_refresh.value < now
  {
    match token.expires_refresh
    case None => TypeError
    case Some(expires) => Ok(expires < now)
  }

  /** The access tokens carried by the token documents. */
  function AccessTokens(tokens: map<string, Token>): set<string>
  {
    set k | k in tokens :: tokens[k].access_token
  }

  /** `get_refresh_token`: the token document stored under refresh token `rt`. */
  function GetRefreshToken(tokens: map<string, Token>, rt: string): (r: Option<Token>)
    ensures r.Some? <==> rt in tokens
    ensures r.Some? ==> r.value == tokens[rt]
  {
    if rt in tokens then Some(tokens[rt]) else None
  }

  /** `get_access_token`: a token document carrying access token `at`. MongoDB
      returns the first match in its own order; the model picks any match. */
  ghost function GetAccessToken(tokens: map<string, Token>, at: string): (r: Option<Token>)
    ensures r.Some? <==> at in AccessTokens(tokens)
    ensures r.Some? ==> r.value.access_token == at && r.value in tokens.Values
  {
    if at in AccessTokens(tokens) then
      var k :| k in tokens && tokens[k].access_token == at;
      Some(tokens[k])
    else
      None
  }

  /** The shape `add_access_token` keeps: every document sits under its own
      refresh token, and no two documents carry the same access token. */
  ghost predicate TokensWellFormed(tokens: map<string, Token>)
  {
    && (forall k :: k in tokens ==> tokens[k].id == k)
    && (forall k, k' :: k in tokens && k' in tokens && k != k' ==>
          tokens[k].access_token != tokens[k'].access_token)
  }

  /** In a well-formed collection the lookup by access token finds the one
      document that carries it, the same one the lookup by refresh token finds. */
  lemma AccessLookupIsUnique(tokens: map<string, Token>, rt: string)
    requires TokensWellFormed(tokens)
    requires rt in tokens
    ensures GetAccessToken(tokens, tokens[rt].access_token) == Some(tokens[rt])
    ensures GetAccessToken(tokens, tokens[rt].access_token) == GetRefreshToken(tokens, rt)
  {
    var at := tokens[rt].access_token;
    assert at in AccessTokens(tokens);
    var found := GetAccessToken(tokens, at).value;
    var k :| k in tokens && tokens[k] == found;
    assert tokens[k].access_token == at;
  }

  /** Saving a document under its refresh token, with an access token no
      document carried before, keeps the collection well formed. */
  lemma SaveKeepsWellFormed(tokens: map<string, Token>, doc: Token)
    requires TokensWellFormed(tokens)
    requires doc.access_token !in AccessTokens(tokens)
    ensures TokensWellFormed(tokens[doc.id := doc])
  {
    var saved := tokens[doc.id := doc];
    forall k, k' | k in saved && k' in saved && k != k'
      ensures saved[k].access_token != saved[k'].access_token
    {
      if k == doc.id {
        assert tokens[k'].access_token in AccessTokens(tokens);
      } else if k' == doc.id {
        assert tokens[k].access_token in AccessTokens(tokens);
      }
    }
  }

  /** After a save with a fresh access token, both lookups find the saved
      document, and every other refresh token still finds what it found before. */
  lemma SavedDocumentIsFound(tokens: map<string, Token>, doc: Token)
    requires doc.access_token !in AccessTokens(tokens)
    ensures GetRefreshToken(tokens[doc.id := doc], doc.id) == Some(doc)
    ensures GetAccessToken(tokens[doc.id := doc], doc.access_token) == Some(doc)
    ensures forall rt :: rt != doc.id ==>
      GetRefreshToken(tokens[doc.id := doc], rt) == GetRefreshToken(tokens, rt)
  {
    var saved := tokens[doc.id := doc];
    assert saved[doc.id].access_token == doc.access_token;
    assert doc.access_token in AccessTokens(saved);
    assert forall k :: k in tokens ==> tokens[k].access_token in AccessTokens(tokens);
  }

  /** Issuing a code that was not stored and then removing it leaves the code
      collection as it was: `remove_code` undoes `add_code`. */
  lemma RemoveUndoesAdd(codes: map<string, Code>, code: string, doc: Code)
    requires code !in codes
    ensures codes[code := doc] - {code} == codes
    ensures forall clientId, t :: ValidCode(codes[code := doc] - {code}, clientId, code, t) == ValidCode(codes, clientId, code, t)
  {
  }

  /** A valid code is valid for one client only: any other client is refused,
      and cannot read the user id either, even before expiry. */
  lemma CodeBoundToClient(codes: map<string, Code>, code: string, clientId: string, other: string, now: Time)
    requires ValidCode(codes, clientId, code, now)
    requires other != clientId
    ensures !ValidCode(codes, other, code, now)
    ensures GetUserId(codes, other, code) == TypeError
  {
  }

  /** Expiry is final: a code invalid at some instant stays invalid later, and a
      token expired at some instant stays expired later. */
  lemma ExpiryIsFinal(codes: map<string, Code>, clientId: string, code: string, token: Token, t: Time, t': Time)
    requires t <= t'
    ensures !ValidCode(codes, clientId, code, t) ==> !ValidCode(codes, clientId, code, t')
    ensures ExpiredAccessToken(token, t) ==> ExpiredAccessToken(token, t')
    ensures ExpiredRefreshToken(token, t) == Ok(true) ==> ExpiredRefreshToken(token, t') == Ok(true)
  {
  }

  /** The two comparisons differ at the boundary: at the very second of expiry a
      code is no longer valid, while a token is not yet expired. */
  lemma ExpiryBoundaryDiffers(codes: map<string, Code>, clientId: string, code: string, token: Token, now: Time)
    requires code in codes && codes[code].client_id == clientId
    requires codes[code].expires == now && token.expires_access == now
    requires token.expires_refresh == Some(now)
    ensures !ValidCode(codes, clientId, code, now)
    ensures !ExpiredAccessToken(token, now)
    ensures ExpiredRefreshToken(token, now) == Ok(false)
    ensures ValidCode(codes, clientId, code, now - 1)
  {
  }
}
