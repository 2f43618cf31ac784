/**
 * `MongoStorage`: the OAuth 2.0 credential store. The three MongoDB
 * collections are maps from `_id` to document, which `save` overwrites and
 * `remove` deletes; the values the hash generators will produce are the
 * stream `hashes`, of which the first `drawn` have been used.
 */
module Storage {
  import opened Records
  import opened Queries
  import opened Generation

  class MongoStorage {
    var clients: map<string, Client>
    var codes: map<string, Code>
    var tokens: map<string, Token>
    const hashes: nat -> string
    var drawn: nat

    /** The invariant `add_access_token` keeps on the token collection. */
    ghost predicate Valid()
      reads this
    {
      TokensWellFormed(tokens)
    }

    /** A store over empty collections, drawing hashes from the start of `hashes`. */
    constructor (hashes: nat -> string)
      ensures Valid()
      ensures this.hashes == hashes && drawn == 0
      ensures clients == map[] && codes == map[] && tokens == map[]
    {
      this.hashes := hashes;
      drawn := 0;
      clients, codes, tokens := map[], map[], map[];
    }

    /** One call of a hash generator: the next value of the stream. `add_client`
        draws this way; the generate-and-check loops of `add_code` and
        `add_access_token` consume the stream through `FirstFresh` instead, up to
        and including the position it returns. */
    method Draw() returns (h: string)
      modifies this`drawn
      ensures h == hashes(old(drawn)) && drawn == old(drawn) + 1
    {
      h := hashes(drawn);
      drawn := drawn + 1;
    }

    /** `add_client`: draws an id and a secret, with no uniqueness check, and
        saves the client under that id, replacing any client already there. */
    method AddClient(clientName: string, redirectUri: string) returns (clientId: string, clientSecret: string)
      modifies this
      ensures clientId == hashes(old(drawn)) && clientSecret == hashes(old(drawn) + 1)
      ensures drawn == old(drawn) + 2
      ensures clients == old(clients)[clientId := Client(clientSecret, redirectUri, clientName)]
      ensures codes == old(codes) && tokens == old(tokens)
      ensures GetClientCredentials(clients, clientId) == Some(Client(clientSecret, redirectUri, clientName))
      ensures ExistsClient(clients, clientId)
      ensures forall id :: id != clientId ==> GetClientCredentials(clients, id) == GetClientCredentials(old(clients), id)
      ensures old(Valid()) ==> Valid()
    {
      clientId := Draw();
      clientSecret := Draw();
      clients := clients[clientId := Client(clientSecret, redirectUri, clientName)];
    }

    /** `add_code`: draws codes until one is not stored yet, and saves it for
        `clientId` and `userId`, expiring `lifetime` seconds after `now`. */
    method AddCode(clientId: string, userId: UserId, lifetime: int, now: Time) returns (code: string)
      requires EventuallyFresh(hashes, drawn, codes.Keys)
      modifies this
      ensures code !in old(codes)
      ensures old(drawn) < drawn && code == hashes(drawn - 1)
      ensures FirstFreshAt(hashes, old(drawn), old(codes).Keys, drawn - 1)
      ensures codes == old(codes)[code := Code(clientId, userId, now + lifetime)]
      ensures clients == old(clients) && tokens == old(tokens)
      ensures ExistsCode(codes, code)
      ensures GetUserId(codes, clientId, code) == Ok(userId)
      ensures forall t :: ValidCode(codes, clientId, code, t) <==> t < now + lifetime
      ensures forall other, t :: other != clientId ==> !ValidCode(codes, other, code, t)
      ensures old(Valid()) ==> Valid()
    {
      var expires := AddSecondsToDate(now, lifetime);
      var i := FirstFresh(hashes, drawn, codes.Keys);
      code := hashes(i);
      drawn := i + 1;
      codes := codes[code := Code(clientId, userId, expires)];
    }

    /** `remove_code`: deletes the code, if stored; nothing else changes. */
    method RemoveCode(code: string)
      modifies this`codes
      ensures codes == old(codes) - {code}
      ensures !ExistsCode(codes, code)
      ensures forall clientId, t :: !ValidCode(codes, clientId, code, t)
      ensures forall other :: other != code ==> FindCodeUnchanged(old(codes), codes, other)
    {
      codes := codes - {code};
    }

    /** Every query on `code` answers alike in both collections. */
    static ghost predicate FindCodeUnchanged(before: map<string, Code>, after: map<string, Code>, code: string)
    {
      forall clientId :: FindCode(after, code, clientId) == FindCode(before, code, clientId)
    }

    /** `add_access_token`: draws an access token no document carries yet; unless
        a refresh token is supplied, draws a refresh token not stored yet and sets
        its expiry `refreshLifetime` seconds after `now`; saves the document under
        the refresh token, replacing any document already there. With neither a
        refresh token nor a refresh lifetime, `timedelta(0, None)` raises
        TypeError before the save. */
    method AddAccessToken(clientId: string, userId: UserId, accessLifetime: int,
                          refreshToken: Option<string>, refreshLifetime: Option<int>,
                          expiresRefresh: Option<Time>, scope: Option<string>, now: Time)
      returns (r: Result<Issued>)
      requires EventuallyFresh(hashes, drawn, AccessTokens(tokens))
      requires refreshToken.None? ==> forall i: nat :: FirstFreshAt(hashes, drawn, AccessTokens(tokens), i) ==>
                                     EventuallyFresh(hashes, i + 1, tokens.Keys)
      modifies this`tokens, this`drawn
      ensures r.TypeError? <==> refreshToken.None? && refreshLifetime.None?
      ensures r.TypeError? ==> tokens == old(tokens)
      ensures r.Ok? ==>
        var at, rt := r.value.access_token, r.value.refresh_token;
        && at !in AccessTokens(old(tokens))
        && r.value.expires_access == now + accessLifetime
        && (refreshToken.Some? ==> rt == refreshToken.value)
        && (refreshToken.None? ==> rt !in old(tokens))
        && tokens == old(tokens)[rt := Token(rt, clientId, userId, at, now + accessLifetime,
                                             if refreshToken.Some? then expiresRefresh
                                             else Some(now + refreshLifetime.value),
                                             scope)]
        && GetRefreshToken(tokens, rt) == Some(tokens[rt])
        && GetAccessToken(tokens, at) == Some(tokens[rt])
      ensures exists i :: FirstFreshAt(hashes, old(drawn), AccessTokens(old(tokens)), i) && Drew(i, refreshToken, old(tokens), r)
      ensures old(Valid()) ==> Valid()
    {
      var i := FirstFresh(hashes, drawn, AccessTokens(tokens));
      var accessToken := hashes(i);
      drawn := i + 1;
      var expiresAccess := AddSecondsToDate(now, accessLifetime);
      var rt, expires := "", expiresRefresh;
      if refreshToken.None? {
        var j := FirstFresh(hashes, drawn, tokens.Keys);
        rt := hashes(j);
        drawn := j + 1;
        if refreshLifetime.None? {
          r := TypeError;
          return;
        }
        expires := Some(AddSecondsToDate(now, refreshLifetime.value));
      } else {
        rt := refreshToken.value;
      }
      var doc := Token(rt, clientId, userId, accessToken, expiresAccess, expires, scope);
      if old(Valid()) {
        SaveKeepsWellFormed(tokens, doc);
      }
      SavedDocumentIsFound(tokens, doc);
      tokens := tokens[rt := doc];
      r := Ok(Issued(accessToken, rt, expiresAccess));
    }

    /** The draws of `add_access_token` after the access token was found at
        position `i`: none more when a refresh token is supplied, otherwise up to
        the first position whose value is not a stored refresh token. */
    ghost predicate Drew(i: nat, refreshToken: Option<string>, before: map<string, Token>, r: Result<Issued>)
      reads this
    {
      && (r.Ok? ==> r.value.access_token == hashes(i))
      && (refreshToken.Some? ==> drawn == i + 1)
      && (refreshToken.None? ==>
            && drawn > i + 1
            && FirstFreshAt(hashes, i + 1, before.Keys, drawn - 1)
            && (r.Ok? ==> r.value.refresh_token == hashes(drawn - 1)))
    }
  }
}
