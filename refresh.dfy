/**
 * The decision `refresh_access_token` makes before it would reissue an
 * access token: look up the token document by refresh token and client,
 * compare the refresh expiry with `now`, and compare the client secret.
 * Only the decision is modelled; what follows it is not.
 */
module Refresh {
  import opened Records
  import opened Queries

  /** The compound match `find_one({'_id': refresh_token, 'client_id': client_id})`. */
  function FindToken(tokens: map<string, Token>, rt: string, clientId: string): Option<Token>
  {
    if rt in tokens && tokens[rt].client_id == clientId then Some(tokens[rt]) else None
  }

  /** `Denied` is the `(False, False, False)` triple of line 258; `Reissue`
      proceeds to `add_access_token` with the stored document. */
  datatype Decision = Denied | Reissue(token: Token)

  /** The guard of lines 249-250 as written: it proceeds only when the refresh
      token HAS expired. A missing document short-circuits to the denial; a
      document without refresh expiry, or an unregistered client reached after
      the expiry test, raises TypeError. */
  function RefreshDecisionAsWritten(clients: map<string, Client>, tokens: map<string, Token>,
                                    clientId: string, clientSecret: string, rt: string, now: Time): (r: Result<Decision>)
    ensures r.Ok? && r.value.Reissue? ==>
      FindToken(tokens, rt, clientId) == Some(r.value.token) && ExpiredRefreshToken(r.value.token, now) == Ok(true)
  {
    match FindToken(tokens, rt, clientId)
    case None => Ok(Denied)
    case Some(stored) =>
      match ExpiredRefreshToken(stored, now)
      case TypeError => TypeError
      case Ok(expired) =>
        if !expired then Ok(Denied)
        else
          match GetClientCredentials(clients, clientId)
          case None => TypeError
          case Some(credentials) =>
            if credentials.client_secret == clientSecret then Ok(Reissue(stored)) else Ok(Denied)
  }

  /** The guard as intended: reissue only for a stored refresh token of this
      client that has NOT expired, presented with the registered secret. */
  function RefreshDecision(clients: map<string, Client>, tokens: map<string, Token>,
                           clientId: string, clientSecret: string, rt: string, now: Time): (r: Result<Decision>)
    ensures r.Ok? && r.value.Reissue? <==>
      && rt in tokens && tokens[rt].client_id == clientId
      && ExpiredRefreshToken(tokens[rt], now) == Ok(false)
      && GetClientCredentials(clients, clientId).Some?
      && GetClientCredentials(clients, clientId).value.client_secret == clientSecret
    ensures r.Ok? && r.value.Reissue? ==> r.value.token == tokens[rt]
    ensures r.TypeError? ==> rt in tokens
  {
    match FindToken(tokens, rt, clientId)
    case None => Ok(Denied)
    case Some(stored) =>
      match ExpiredRefreshToken(stored, now)
      case TypeError => TypeError
      case Ok(expired) =>
        if expired then Ok(Denied)
        else
          match GetClientCredentials(clients, clientId)
          case None => TypeError
          case Some(credentials) =>
            if credentials.client_secret == clientSecret then Ok(Reissue(stored)) else Ok(Denied)
  }

  /** A wrong secret is denied even for a live refresh token, an expired refresh
      token is denied even with the right secret, and a refresh token issued to
      another client is denied. */
  lemma RefreshDenials(clients: map<string, Client>, tokens: map<string, Token>,
                       clientId: string, clientSecret: string, rt: string, now: Time)
    requires clientId in clients && rt in tokens
    ensures clients[clientId].client_secret != clientSecret ==>
      RefreshDecision(clients, tokens, clientId, clientSecret, rt, now) != Ok(Reissue(tokens[rt]))
    ensures ExpiredRefreshToken(tokens[rt], now) == Ok(true) ==>
      RefreshDecision(clients, tokens, clientId, clientSecret, rt, now) == Ok(Denied)
    ensures tokens[rt].client_id != clientId ==>
      RefreshDecision(clients, tokens, clientId, clientSecret, rt, now) == Ok(Denied)
  {
  }

  /** One live and one expired refresh token on which the two guards disagree:
      as written, the live token with the right secret is denied and the expired
      one is reissued. */
  lemma RefreshGuardInverted()
    ensures var clients := map["app" := Client("secret", "https://app/cb", "app")];
      var doc := Token("rt", "app", "user", "at", 10, Some(100), None);
      var tokens := map["rt" := doc];
      && RefreshDecisionAsWritten(clients, tokens, "app", "secret", "rt", 50) == Ok(Denied)
      && RefreshDecision(clients, tokens, "app", "secret", "rt", 50) == Ok(Reissue(doc))
      && RefreshDecisionAsWritten(clients, tokens, "app", "secret", "rt", 150) == Ok(Reissue(doc))
      && RefreshDecision(clients, tokens, "app", "secret", "rt", 150) == Ok(Denied)
  {
  }
}
