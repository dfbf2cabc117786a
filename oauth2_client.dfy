/** The OAuth2 client: the authorization-code grant and the refresh of
    RFC 6749 (sections 4.1 and 6), with the `state` parameter carrying a
    CSRF token (section 10.12). The consent page, the token endpoint, the
    persister and the clock are inputs; what the client does with them is
    returned as a list of effects. */
module Oauth2 {
  import opened Wrappers
  import opened Text
  import opened AuthTokens
  import opened UserAuthTokens

  /** Form fields and query parameters, in order. */
  type Form = seq<(string, string)>

  /** Five minutes in ticks: a token is refreshed once it is this close to
      its expiration. */
  const EarlyRefreshPeriod: int := 5 * 60 * 10_000_000

  const DeniedMessage: string := "Application was denied access to your Inoreader account"
  const WrongCsrfMessage: string := "Wrong CSRF token, you are being hacked"
  const TokenFailurePrefix: string := "Failed to get auth token: "

  /** The app's registration and the callback address of this client. */
  datatype Oauth2Parameters = Oauth2Parameters(clientId: int, clientSecret: string, redirectUri: string)

  /** What the consent page reported back through the redirect. */
  datatype ConsentResult = ConsentResult(
    authorizationCode: Option<string>,
    csrfToken: Option<string>,
    errorCode: Option<string>,
    errorMessage: Option<string>)

  /** What the token endpoint answered. */
  datatype TokenEndpointAnswer =
    | Granted(response: Oauth2TokenResponse)
    | Refused(statusCode: int, errorDescription: Option<string>)  // an HTTP error status with a JSON body
    | RefusedUnreadable(statusCode: int)                         // an HTTP error status whose body is not JSON
    | Unreachable                                                // a network or deserialization failure

  datatype AuthError =
    | Unauthorized(message: string)   // InoreaderException.Unauthorized
    | ProcessingFailed                // ProcessingException

  /** What the client did, in order. */
  datatype Effect =
    | LoadTokens                               // asked the persister for its record
    | ShowConsent(query: Form)                 // opened the consent page with this query
    | PostToken(grantType: string, form: Form) // posted this form to the token endpoint
    | ConsentSettled(success: bool)            // told the consent page how authorization ended
    | SaveTokens(saved: TokenRecord)           // handed the record to the persister

  predicate IsLoad(e: Effect) { e.LoadTokens? }
  predicate IsConsent(e: Effect) { e.ShowConsent? }
  predicate IsPost(e: Effect) { e.PostToken? }
  predicate IsRefresh(e: Effect) { e.PostToken? && e.grantType == "refresh_token" }
  predicate IsSave(e: Effect) { e.SaveTokens? }

  /** How many effects satisfy `p`. */
  function Count(effects: seq<Effect>, p: Effect -> bool): nat
  {
    if effects == [] then 0 else (if p(effects[0]) then 1 else 0) + Count(effects[1..], p)
  }

  lemma {:induction false} CountConcat(a: seq<Effect>, b: seq<Effect>, p: Effect -> bool)
    ensures Count(a + b, p) == Count(a, p) + Count(b, p)
  {
    if a != [] {
      assert (a + b)[0] == a[0];
      assert (a + b)[1..] == a[1..] + b;
      CountConcat(a[1..], b, p);
    } else {
      assert a + b == b;
    }
  }

  lemma CountOne(e: Effect, p: Effect -> bool)
    ensures Count([e], p) == if p(e) then 1 else 0
  {
    assert [e][1..] == [];
  }

  lemma CountPair(e1: Effect, e2: Effect, p: Effect -> bool)
    ensures Count([e1, e2], p) == Count([e1], p) + Count([e2], p)
  {
    CountConcat([e1], [e2], p);
    assert [e1] + [e2] == [e1, e2];
  }

  /** The query of the consent page link. */
  function ConsentQuery(p: Oauth2Parameters, csrfToken: string): (q: Form)
    ensures |q| == 5
    ensures q[0] == ("client_id", IntToString(p.clientId)) && q[1] == ("redirect_uri", p.redirectUri)
    ensures q[2] == ("response_type", "code") && q[3] == ("scope", "read write")
    ensures q[4] == ("state", csrfToken)
  {
    [("client_id", IntToString(p.clientId)), ("redirect_uri", p.redirectUri),
     ("response_type", "code"), ("scope", "read write"), ("state", csrfToken)]
  }

  /** The body posted to the token endpoint: the caller's fields, then the
      client credentials and the grant type. */
  function TokenRequestForm(p: Oauth2Parameters, grantType: string, fields: Form): (f: Form)
    ensures |f| == |fields| + 3 && f[..|fields|] == fields
    ensures f[|fields|..] == [("client_id", IntToString(p.clientId)), ("client_secret", p.clientSecret), ("grant_type", grantType)]
  {
    fields + [("client_id", IntToString(p.clientId)), ("client_secret", p.clientSecret), ("grant_type", grantType)]
  }

  /** The body that exchanges an authorization code. */
  function AuthorizationCodeForm(p: Oauth2Parameters, code: string): Form
  {
    TokenRequestForm(p, "authorization_code", [("code", code), ("redirect_uri", p.redirectUri), ("scope", "")])
  }

  /** The body that exchanges a refresh token: the token is its only field
      of its own. */
  function RefreshForm(p: Oauth2Parameters, refreshToken: string): (f: Form)
    ensures f == [("refresh_token", refreshToken), ("client_id", IntToString(p.clientId)),
                  ("client_secret", p.clientSecret), ("grant_type", "refresh_token")]
  {
    TokenRequestForm(p, "refresh_token", [("refresh_token", refreshToken)])
  }

  /** RequestOAuthToken's answer: the token, an Unauthorized error naming the
      status and the error description, or a processing failure. */
  function TokenResult(answer: TokenEndpointAnswer): (r: Result<Oauth2TokenResponse, AuthError>)
    ensures r.Ok? <==> answer.Granted?
    ensures r.Ok? ==> r.value == answer.response
    ensures r == Err(ProcessingFailed) <==> answer.RefusedUnreadable? || answer.Unreachable?
    ensures answer.Refused? ==>
              r == Err(Unauthorized(TokenFailurePrefix + IntToString(answer.statusCode) + " "
                                    + answer.errorDescription.GetOr("")))
  {
    match answer
    case Granted(response) => Ok(response)
    case Refused(status, description) =>
      Err(Unauthorized(TokenFailurePrefix + IntToString(status) + " " + description.GetOr("")))
    case RefusedUnreadable(_) => Err(ProcessingFailed)
    case Unreachable => Err(ProcessingFailed)
  }

  /** The consent is good: a code and a CSRF token came back, and the token
      is the one the client generated. */
  predicate ConsentAccepted(expectedCsrfToken: string, consent: ConsentResult)
  {
    consent.authorizationCode.Some? && consent.csrfToken.Some? && consent.csrfToken.value == expectedCsrfToken
  }

  /** The error for a consent that is not good. */
  function ConsentRefusal(consent: ConsentResult): (e: AuthError)
    ensures e.Unauthorized?
    ensures consent.errorCode == Some("access_denied") ==> e.message == DeniedMessage
    ensures consent.errorCode.Some? && consent.errorCode != Some("access_denied") ==>
              e.message == consent.errorCode.value + ": " + consent.errorMessage.GetOr("")
    ensures consent.errorCode.None? ==> e.message == WrongCsrfMessage
  {
    match consent.errorCode
    case Some(code) =>
      if code == "access_denied" then Unauthorized(DeniedMessage)
      else Unauthorized(code + ": " + consent.errorMessage.GetOr(""))
    case None => Unauthorized(WrongCsrfMessage)
  }

  /** An authorization attempt: its outcome and its effects. */
  datatype Attempt = Attempt(result: Result<Oauth2TokenResponse, AuthError>, effects: seq<Effect>)

  /** Authorize: show the consent page, check what came back, exchange the
      code, and tell the page how it ended. */
  function Authorize(p: Oauth2Parameters, csrfToken: string, consent: ConsentResult, exchange: TokenEndpointAnswer): (a: Attempt)
    ensures |a.effects| >= 2 && a.effects[0] == ShowConsent(ConsentQuery(p, csrfToken))
    ensures a.effects[|a.effects| - 1] == ConsentSettled(a.result.Ok?)
    ensures a.result.Ok? <==> ConsentAccepted(csrfToken, consent) && exchange.Granted?
    ensures a.result.Ok? ==> a.result.value == exchange.response
    ensures !ConsentAccepted(csrfToken, consent) ==> a.result == Err(ConsentRefusal(consent))
  {
    var show := ShowConsent(ConsentQuery(p, csrfToken));
    if ConsentAccepted(csrfToken, consent) then
      var r := TokenResult(exchange);
      var post := PostToken("authorization_code", AuthorizationCodeForm(p, consent.authorizationCode.value));
      Attempt(r, [show, post, ConsentSettled(r.Ok?)])
    else
      Attempt(Err(ConsentRefusal(consent)), [show, ConsentSettled(false)])
  }

  /** An authorization shows the consent page once, posts once exactly when
      the consent was accepted, and neither loads, refreshes nor saves. */
  lemma AuthorizeCounts(p: Oauth2Parameters, csrfToken: string, consent: ConsentResult, exchange: TokenEndpointAnswer)
    ensures var a := Authorize(p, csrfToken, consent, exchange);
            && Count(a.effects, IsConsent) == 1 && Count(a.effects, IsSave) == 0
            && Count(a.effects, IsLoad) == 0 && Count(a.effects, IsRefresh) == 0
            && Count(a.effects, IsPost) == if ConsentAccepted(csrfToken, consent) then 1 else 0
  {
    var show := ShowConsent(ConsentQuery(p, csrfToken));
    if ConsentAccepted(csrfToken, consent) {
      var post := PostToken("authorization_code", AuthorizationCodeForm(p, consent.authorizationCode.value));
      CountTriple(show, post, ConsentSettled(TokenResult(exchange).Ok?));
    } else {
      CountTriple(show, ConsentSettled(false), ConsentSettled(false));
    }
  }

  /** The counts of a three-effect trace whose first effect opens the
      consent page and whose others are neither loads, saves nor refreshes. */
  lemma CountTriple(show: Effect, mid: Effect, last: Effect)
    requires show.ShowConsent? && !mid.ShowConsent? && !mid.LoadTokens? && !mid.SaveTokens?
    requires last.ConsentSettled?
    ensures Count([show, mid, last], IsConsent) == 1 && Count([show, last], IsConsent) == 1
    ensures Count([show, mid, last], IsSave) == 0 && Count([show, last], IsSave) == 0
    ensures Count([show, mid, last], IsLoad) == 0 && Count([show, last], IsLoad) == 0
    ensures Count([show, mid, last], IsRefresh) == Count([mid], IsRefresh) && Count([show, last], IsRefresh) == 0
    ensures Count([show, mid, last], IsPost) == Count([mid], IsPost) && Count([show, last], IsPost) == 0
  {
    assert [show, mid, last] == [show] + [mid, last];
    assert [show, last] == [show] + [last];
    CountConcat([show], [mid, last], IsConsent); CountConcat([show], [mid, last], IsSave);
    CountConcat([show], [mid, last], IsLoad); CountConcat([show], [mid, last], IsRefresh);
    CountConcat([show], [mid, last], IsPost);
    CountConcat([show], [last], IsConsent); CountConcat([show], [last], IsSave);
    CountConcat([show], [last], IsLoad); CountConcat([show], [last], IsRefresh);
    CountConcat([show], [last], IsPost);
    CountPair(mid, last, IsConsent); CountPair(mid, last, IsSave); CountPair(mid, last, IsLoad);
    CountPair(mid, last, IsRefresh); CountPair(mid, last, IsPost);
    CountOne(show, IsConsent); CountOne(show, IsSave); CountOne(show, IsLoad); CountOne(show, IsRefresh); CountOne(show, IsPost);
    CountOne(mid, IsConsent); CountOne(mid, IsSave); CountOne(mid, IsLoad);
    CountOne(last, IsConsent); CountOne(last, IsSave); CountOne(last, IsLoad); CountOne(last, IsRefresh); CountOne(last, IsPost);
  }

  /** The outcome of FetchValidUserToken: the credential or error, the
      cached record afterwards, and the effects. */
  datatype Fetch = Fetch(result: Result<UserAuthToken, AuthError>, record: TokenRecord, effects: seq<Effect>)

  /** The persister is consulted when no record is cached or the cached one
      has no access token. */
  predicate LoadsStored(cached: Option<TokenRecord>)
  {
    cached.None? || cached.value.accessToken.None?
  }

  /** The cached record after the load step: the stored record merged into
      it (or into an empty record), never assigned in its place. */
  function AfterLoad(cached: Option<TokenRecord>, stored: Option<TokenRecord>): TokenRecord
  {
    var start := if cached.Some? then cached.value else NoTokens;
    if LoadsStored(cached) && stored.Some? then WithDefaults(start, stored.value) else start
  }

  /** The token is within five minutes of expiring, or past it; a record
      without an expiration is never in the window. */
  predicate InRefreshWindow(r: TokenRecord, now: int)
  {
    r.expiration.Some? && r.expiration.value - EarlyRefreshPeriod < now
  }

  /** A refresh is attempted: an access token exists, it is in the window and
      there is a refresh token. */
  predicate RefreshDue(r: TokenRecord, now: int)
  {
    r.accessToken.Some? && InRefreshWindow(r, now) && r.refreshToken.Some?
  }

  /** An exchange that succeeded: the answer loaded into the record, which is
      then saved, and the bearer credential of its access token. */
  function Succeeded(r: TokenRecord, response: Oauth2TokenResponse, effects: seq<Effect>): Fetch
  {
    var loaded := Loaded(r, response);
    Fetch(Ok(Oauth2UserToken(response.accessToken)), loaded, effects + [SaveTokens(loaded)])
  }

  /** The outcome of an authorization that follows `effects`. */
  function AfterAuthorize(r: TokenRecord, a: Attempt, effects: seq<Effect>): Fetch
  {
    match a.result
    case Ok(response) => Succeeded(r, response, effects + a.effects)
    case Err(e) => Fetch(Err(e), r, effects + a.effects)
  }

  /** FetchValidUserToken as a function of the cached record, the
      persister's record, the clock, the generated CSRF token and the
      answers of the consent page and the token endpoint. */
  function FetchValidUserTokenSpec(p: Oauth2Parameters, cached: Option<TokenRecord>, stored: Option<TokenRecord>,
                               now: int, csrfToken: string, consent: ConsentResult,
                               exchange: TokenEndpointAnswer, refresh: TokenEndpointAnswer): Fetch
  {
    var r := AfterLoad(cached, stored);
    var loads := if LoadsStored(cached) then [LoadTokens] else [];
    if r.accessToken.None? then
      AfterAuthorize(r, Authorize(p, csrfToken, consent, exchange), loads)
    else if RefreshDue(r, now) then
      var posted := loads + [PostToken("refresh_token", RefreshForm(p, r.refreshToken.value))];
      match TokenResult(refresh)
      case Ok(response) => Succeeded(r, response, posted)
      case Err(Unauthorized(_)) => AfterAuthorize(r, Authorize(p, csrfToken, consent, exchange), posted)
      case Err(e) => Fetch(Err(e), r, posted)
    else
      Fetch(Ok(Oauth2UserToken(r.accessToken.value)), r, loads)
  }

  /** The consent page is shown: no access token after the load step, or
      the refresh was refused as unauthorized. */
  predicate ConsentShown(r: TokenRecord, now: int, refresh: TokenEndpointAnswer)
  {
    r.accessToken.None? || (RefreshDue(r, now) && refresh.Refused?)
  }

  /** A new token comes from the endpoint: by authorization, by refresh, or
      by authorization after a refused refresh. */
  predicate Exchanged(r: TokenRecord, now: int, csrfToken: string, consent: ConsentResult,
                      exchange: TokenEndpointAnswer, refresh: TokenEndpointAnswer)
  {
    if ConsentShown(r, now, refresh) then ConsentAccepted(csrfToken, consent) && exchange.Granted?
    else RefreshDue(r, now) && refresh.Granted?
  }

  lemma CountSnoc(a: seq<Effect>, e: Effect, p: Effect -> bool)
    ensures Count(a + [e], p) == Count(a, p) + (if p(e) then 1 else 0)
  {
    CountConcat(a, [e], p);
    CountOne(e, p);
  }

  /** The counts of the load prefix. */
  lemma CountLoads(cached: Option<TokenRecord>)
    ensures var loads: seq<Effect> := if LoadsStored(cached) then [LoadTokens] else [];
            && Count(loads, IsLoad) == (if LoadsStored(cached) then 1 else 0)
            && Count(loads, IsConsent) == 0 && Count(loads, IsPost) == 0
            && Count(loads, IsRefresh) == 0 && Count(loads, IsSave) == 0
  {
    CountOne(LoadTokens, IsLoad); CountOne(LoadTokens, IsConsent); CountOne(LoadTokens, IsPost);
    CountOne(LoadTokens, IsRefresh); CountOne(LoadTokens, IsSave);
  }

  /** The counts of an authorization that follows `pre`. */
  lemma CountAfterAuthorize(r: TokenRecord, a: Attempt, pre: seq<Effect>, p: Effect -> bool)
    ensures Count(AfterAuthorize(r, a, pre).effects, p)
            == Count(pre, p) + Count(a.effects, p) + (if a.result.Ok? && p(SaveTokens(Loaded(r, a.result.value))) then 1 else 0)
  {
    CountConcat(pre, a.effects, p);
    if a.result.Ok? {
      CountSnoc(pre + a.effects, SaveTokens(Loaded(r, a.result.value)), p);
    }
  }

  /** The count of any kind of effect in FetchValidUserToken's trace, path
      by path. */
  lemma FetchCount(p: Oauth2Parameters, cached: Option<TokenRecord>, stored: Option<TokenRecord>,
                   now: int, csrfToken: string, consent: ConsentResult,
                   exchange: TokenEndpointAnswer, refresh: TokenEndpointAnswer, q: Effect -> bool)
    ensures var r := AfterLoad(cached, stored);
            var loads: seq<Effect> := if LoadsStored(cached) then [LoadTokens] else [];
            var a := Authorize(p, csrfToken, consent, exchange);
            var authorized := Count(a.effects, q) + (if a.result.Ok? && q(SaveTokens(Loaded(r, a.result.value))) then 1 else 0);
            Count(FetchValidUserTokenSpec(p, cached, stored, now, csrfToken, consent, exchange, refresh).effects, q)
            == Count(loads, q)
               + if r.accessToken.None? then authorized
                 else if RefreshDue(r, now) then
                   (if q(PostToken("refresh_token", RefreshForm(p, r.refreshToken.value))) then 1 else 0)
                   + (if refresh.Granted? then (if q(SaveTokens(Loaded(r, refresh.response))) then 1 else 0)
                      else if refresh.Refused? then authorized
                      else 0)
                 else 0
  {
    var r := AfterLoad(cached, stored);
    var loads: seq<Effect> := if LoadsStored(cached) then [LoadTokens] else [];
    var a := Authorize(p, csrfToken, consent, exchange);
    if r.accessToken.None? {
      CountAfterAuthorize(r, a, loads, q);
    } else if RefreshDue(r, now) {
      var post := PostToken("refresh_token", RefreshForm(p, r.refreshToken.value));
      var posted := loads + [post];
      CountSnoc(loads, post, q);
      if refresh.Granted? {
        CountSnoc(posted, SaveTokens(Loaded(r, refresh.response)), q);
      } else if refresh.Refused? {
        CountAfterAuthorize(r, a, posted, q);
      }
    }
  }

  /** How often FetchValidUserToken loads, shows the consent page, posts a
      refresh and saves: the persister is consulted only when no access
      token is cached, a refresh is posted exactly when one is due, the
      consent page is shown at most once, and the record is saved exactly
      once when a new token came from the endpoint and never otherwise. */
  lemma FetchCounts(p: Oauth2Parameters, cached: Option<TokenRecord>, stored: Option<TokenRecord>,
                    now: int, csrfToken: string, consent: ConsentResult,
                    exchange: TokenEndpointAnswer, refresh: TokenEndpointAnswer)
    ensures var f := FetchValidUserTokenSpec(p, cached, stored, now, csrfToken, consent, exchange, refresh);
            var r := AfterLoad(cached, stored);
            && Count(f.effects, IsLoad) == (if LoadsStored(cached) then 1 else 0)
            && Count(f.effects, IsRefresh) == (if RefreshDue(r, now) then 1 else 0)
            && Count(f.effects, IsConsent) == (if ConsentShown(r, now, refresh) then 1 else 0)
            && Count(f.effects, IsSave) == (if Exchanged(r, now, csrfToken, consent, exchange, refresh) then 1 else 0)
  {
    FetchLoadCount(p, cached, stored, now, csrfToken, consent, exchange, refresh);
    FetchRefreshCount(p, cached, stored, now, csrfToken, consent, exchange, refresh);
    FetchConsentCount(p, cached, stored, now, csrfToken, consent, exchange, refresh);
    FetchSaveCount(p, cached, stored, now, csrfToken, consent, exchange, refresh);
  }

  /** The persister is asked once, exactly when no record with a token is cached. */
  lemma FetchLoadCount(p: Oauth2Parameters, cached: Option<TokenRecord>, stored: Option<TokenRecord>,
                    now: int, csrfToken: string, consent: ConsentResult,
                    exchange: TokenEndpointAnswer, refresh: TokenEndpointAnswer)
    ensures Count(FetchValidUserTokenSpec(p, cached, stored, now, csrfToken, consent, exchange, refresh).effects, IsLoad)
            == (if LoadsStored(cached) then 1 else 0)
  {
    CountLoads(cached);
    AuthorizeCounts(p, csrfToken, consent, exchange);
    FetchCount(p, cached, stored, now, csrfToken, consent, exchange, refresh, IsLoad);
  }

  /** A refresh is posted once, exactly when one is due. */
  lemma FetchRefreshCount(p: Oauth2Parameters, cached: Option<TokenRecord>, stored: Option<TokenRecord>,
                    now: int, csrfToken: string, consent: ConsentResult,
                    exchange: TokenEndpointAnswer, refresh: TokenEndpointAnswer)
    ensures Count(FetchValidUserTokenSpec(p, cached, stored, now, csrfToken, consent, exchange, refresh).effects, IsRefresh)
            == (if RefreshDue(AfterLoad(cached, stored), now) then 1 else 0)
  {
    CountLoads(cached);
    AuthorizeCounts(p, csrfToken, consent, exchange);
    FetchCount(p, cached, stored, now, csrfToken, consent, exchange, refresh, IsRefresh);
  }

  /** The consent page is shown at most once, exactly when an authorization runs. */
  lemma FetchConsentCount(p: Oauth2Parameters, cached: Option<TokenRecord>, stored: Option<TokenRecord>,
                    now: int, csrfToken: string, consent: ConsentResult,
                    exchange: TokenEndpointAnswer, refresh: TokenEndpointAnswer)
    ensures Count(FetchValidUserTokenSpec(p, cached, stored, now, csrfToken, consent, exchange, refresh).effects, IsConsent)
            == (if ConsentShown(AfterLoad(cached, stored), now, refresh) then 1 else 0)
  {
    CountLoads(cached);
    AuthorizeCounts(p, csrfToken, consent, exchange);
    FetchCount(p, cached, stored, now, csrfToken, consent, exchange, refresh, IsConsent);
  }

  /** The record is saved once, exactly when a new token came from the endpoint. */
  lemma FetchSaveCount(p: Oauth2Parameters, cached: Option<TokenRecord>, stored: Option<TokenRecord>,
                    now: int, csrfToken: string, consent: ConsentResult,
                    exchange: TokenEndpointAnswer, refresh: TokenEndpointAnswer)
    ensures Count(FetchValidUserTokenSpec(p, cached, stored, now, csrfToken, consent, exchange, refresh).effects, IsSave)
            == (if Exchanged(AfterLoad(cached, stored), now, csrfToken, consent, exchange, refresh) then 1 else 0)
  {
    CountLoads(cached);
    AuthorizeCounts(p, csrfToken, consent, exchange);
    FetchCount(p, cached, stored, now, csrfToken, consent, exchange, refresh, IsSave);
  }

  /** The credential returned is the bearer form of the access token in the
      record, and a record that was saved is the record kept; a failure
      leaves the record as the load step made it. */
  lemma FetchOutcome(p: Oauth2Parameters, cached: Option<TokenRecord>, stored: Option<TokenRecord>,
                     now: int, csrfToken: string, consent: ConsentResult,
                     exchange: TokenEndpointAnswer, refresh: TokenEndpointAnswer)
    ensures var f := FetchValidUserTokenSpec(p, cached, stored, now, csrfToken, consent, exchange, refresh);
            && (f.result.Ok? ==> f.record.accessToken.Some? && f.result.value == Oauth2UserToken(f.record.accessToken.value))
            && (f.result.Err? ==> f.record == AfterLoad(cached, stored))
            && (Exchanged(AfterLoad(cached, stored), now, csrfToken, consent, exchange, refresh) ==>
                  f.result.Ok? && f.effects[|f.effects| - 1] == SaveTokens(f.record))
            && (f.result.Ok? <==> (AfterLoad(cached, stored).accessToken.Some? && !RefreshDue(AfterLoad(cached, stored), now))
                                  || Exchanged(AfterLoad(cached, stored), now, csrfToken, consent, exchange, refresh))
  {
    var r := AfterLoad(cached, stored);
    var loads: seq<Effect> := if LoadsStored(cached) then [LoadTokens] else [];
    var a := Authorize(p, csrfToken, consent, exchange);
    var f := FetchValidUserTokenSpec(p, cached, stored, now, csrfToken, consent, exchange, refresh);
    if r.accessToken.None? {
      assert f == AfterAuthorize(r, a, loads);
      AuthorizedOutcome(r, a, loads);
    } else if RefreshDue(r, now) {
      var posted := loads + [PostToken("refresh_token", RefreshForm(p, r.refreshToken.value))];
      if refresh.Granted? {
        assert f == Succeeded(r, refresh.response, posted);
        AuthorizedOutcome(r, Attempt(Ok(refresh.response), []), posted);
        assert posted + [] == posted;
      } else if refresh.Refused? {
        assert f == AfterAuthorize(r, a, posted);
        AuthorizedOutcome(r, a, posted);
      } else {
        assert f == Fetch(Err(TokenResult(refresh).error), r, posted);
      }
    } else {
      assert f == Fetch(Ok(Oauth2UserToken(r.accessToken.value)), r, loads);
    }
  }

  /** An authorization's outcome: success exactly when the attempt
      succeeded, with the bearer form of the loaded access token and the
      record saved last; a failure keeps the record. */
  lemma AuthorizedOutcome(r: TokenRecord, a: Attempt, pre: seq<Effect>)
    ensures var f := AfterAuthorize(r, a, pre);
            && (f.result.Ok? <==> a.result.Ok?)
            && (f.result.Ok? ==> f.record.accessToken.Some? && f.result.value == Oauth2UserToken(f.record.accessToken.value)
                                 && f.effects[|f.effects| - 1] == SaveTokens(f.record))
            && (f.result.Err? ==> f.record == r)
  {
  }

  /** A new token is loaded into the record, keeping its password token. */
  lemma ExchangedTokenLoaded(p: Oauth2Parameters, cached: Option<TokenRecord>, stored: Option<TokenRecord>,
                             now: int, csrfToken: string, consent: ConsentResult,
                             exchange: TokenEndpointAnswer, refresh: TokenEndpointAnswer)
    requires Exchanged(AfterLoad(cached, stored), now, csrfToken, consent, exchange, refresh)
    ensures var r := AfterLoad(cached, stored);
            var f := FetchValidUserTokenSpec(p, cached, stored, now, csrfToken, consent, exchange, refresh);
            f.record == Loaded(r, if ConsentShown(r, now, refresh) then exchange.response else refresh.response)
  {
  }

  /** A token that is present and not near its expiration is returned as it
      is: nothing is posted, nothing is shown and nothing is saved; when it
      was already cached the persister is not consulted either. */
  lemma ValidTokenReturnedAsIs(p: Oauth2Parameters, cached: Option<TokenRecord>, stored: Option<TokenRecord>,
                               now: int, csrfToken: string, consent: ConsentResult,
                               exchange: TokenEndpointAnswer, refresh: TokenEndpointAnswer)
    requires AfterLoad(cached, stored).accessToken.Some? && !RefreshDue(AfterLoad(cached, stored), now)
    ensures var f := FetchValidUserTokenSpec(p, cached, stored, now, csrfToken, consent, exchange, refresh);
            && f.result == Ok(Oauth2UserToken(AfterLoad(cached, stored).accessToken.value))
            && f.record == AfterLoad(cached, stored)
            && f.effects == (if LoadsStored(cached) then [LoadTokens] else [])
  {
  }

  /** A refresh that fails for any reason other than an authorization
      refusal is reported as is: no consent page, no save. */
  lemma RefreshFailurePropagates(p: Oauth2Parameters, cached: Option<TokenRecord>, stored: Option<TokenRecord>,
                                 now: int, csrfToken: string, consent: ConsentResult,
                                 exchange: TokenEndpointAnswer, refresh: TokenEndpointAnswer)
    requires AfterLoad(cached, stored).accessToken.Some? && RefreshDue(AfterLoad(cached, stored), now)
    requires refresh.RefusedUnreadable? || refresh.Unreachable?
    ensures var f := FetchValidUserTokenSpec(p, cached, stored, now, csrfToken, consent, exchange, refresh);
            f.result == Err(ProcessingFailed) && f.record == AfterLoad(cached, stored)
            && f.effects[|f.effects| - 1].PostToken? && f.effects[|f.effects| - 1].grantType == "refresh_token"
  {
  }

  /** A refresh refused as unauthorized falls back to a full authorization,
      whose outcome is the outcome of the fetch. */
  lemma RefusedRefreshReauthorizes(p: Oauth2Parameters, cached: Option<TokenRecord>, stored: Option<TokenRecord>,
                                   now: int, csrfToken: string, consent: ConsentResult,
                                   exchange: TokenEndpointAnswer, refresh: TokenEndpointAnswer)
    requires AfterLoad(cached, stored).accessToken.Some? && RefreshDue(AfterLoad(cached, stored), now)
    requires refresh.Refused?
    ensures var f := FetchValidUserTokenSpec(p, cached, stored, now, csrfToken, consent, exchange, refresh);
            var a := Authorize(p, csrfToken, consent, exchange);
            && (f.result.Ok? <==> a.result.Ok?)
            && (a.result.Err? ==> f.result == Err(a.result.error))
            && (a.result.Ok? ==> f.result == Ok(Oauth2UserToken(exchange.response.accessToken)))
  {
  }

  /** A CSRF token that is not the generated one is refused before any code
      is exchanged, whatever else the consent page sent back. */
  lemma ForgedCsrfTokenRefused(p: Oauth2Parameters, csrfToken: string, consent: ConsentResult, exchange: TokenEndpointAnswer)
    requires consent.csrfToken != Some(csrfToken)
    ensures var a := Authorize(p, csrfToken, consent, exchange);
            && a.result.Err? && a.result.error.Unauthorized?
            && Count(a.effects, IsPost) == 0
            && a.effects == [ShowConsent(ConsentQuery(p, csrfToken)), ConsentSettled(false)]
  {
    AuthorizeCounts(p, csrfToken, consent, exchange);
  }

  // ---------------------------------------------------------------- examples

  const ExampleParameters: Oauth2Parameters := Oauth2Parameters(123, "abc", "http://localhost/oauth2/callback")

  /** No saved tokens: the consent page is shown, the code "ghi" is exchanged
      with the fields code, redirect_uri, scope, client_id, client_secret and
      grant_type in that order, and the answer is saved. */
  lemma ExampleMiss(csrfToken: string, now: int, expiration: int, refresh: TokenEndpointAnswer)
    ensures var answer := Oauth2TokenResponse("jkl", "mno", expiration);
            var f := FetchValidUserTokenSpec(ExampleParameters, None, None, now, csrfToken,
                                         ConsentResult(Some("ghi"), Some(csrfToken), None, None), Granted(answer), refresh);
            var record := TokenRecord(Some("jkl"), Some("mno"), Some(expiration), None);
            && f.result == Ok(Oauth2UserToken("jkl"))
            && f.record == record
            && f.effects == [LoadTokens, ShowConsent(ConsentQuery(ExampleParameters, csrfToken)),
                             PostToken("authorization_code",
                                       [("code", "ghi"), ("redirect_uri", "http://localhost/oauth2/callback"), ("scope", ""),
                                        ("client_id", "123"), ("client_secret", "abc"), ("grant_type", "authorization_code")]),
                             ConsentSettled(true), SaveTokens(record)]
  {
    assert NatToString(123) == "123" by {
      assert NatToString(1) == "1";
      assert NatToString(12) == NatToString(1) + "2";
    }
    var answer := Oauth2TokenResponse("jkl", "mno", expiration);
    var consent := ConsentResult(Some("ghi"), Some(csrfToken), None, None);
    var a := Authorize(ExampleParameters, csrfToken, consent, Granted(answer));
    var show := ShowConsent(ConsentQuery(ExampleParameters, csrfToken));
    var post := PostToken("authorization_code", AuthorizationCodeForm(ExampleParameters, "ghi"));
    assert a.effects == [show, post, ConsentSettled(true)];
    assert AuthorizationCodeForm(ExampleParameters, "ghi") ==
             [("code", "ghi"), ("redirect_uri", "http://localhost/oauth2/callback"), ("scope", ""),
              ("client_id", "123"), ("client_secret", "abc"), ("grant_type", "authorization_code")];
    var record := TokenRecord(Some("jkl"), Some("mno"), Some(expiration), None);
    assert [LoadTokens] + a.effects + [SaveTokens(record)] == [LoadTokens, show, post, ConsentSettled(true), SaveTokens(record)];
  }

  /** A saved token 4.9 minutes from expiring is refreshed with the fields
      refresh_token, client_id, client_secret and grant_type, without the
      consent page. */
  lemma ExampleRefresh(now: int, newExpiration: int, csrfToken: string, consent: ConsentResult, exchange: TokenEndpointAnswer)
    ensures var stored := TokenRecord(Some("def"), Some("mno"), Some(now + 2_940_000_000), None);
            var f := FetchValidUserTokenSpec(ExampleParameters, None, Some(stored), now, csrfToken, consent, exchange,
                                         Granted(Oauth2TokenResponse("jkl", "pqr", newExpiration)));
            && f.result == Ok(Oauth2UserToken("jkl"))
            && f.effects == [LoadTokens,
                             PostToken("refresh_token", [("refresh_token", "mno"), ("client_id", "123"),
                                                         ("client_secret", "abc"), ("grant_type", "refresh_token")]),
                             SaveTokens(TokenRecord(Some("jkl"), Some("pqr"), Some(newExpiration), None))]
  {
    assert NatToString(123) == "123" by {
      assert NatToString(1) == "1";
      assert NatToString(12) == NatToString(1) + "2";
    }
  }

  /** A saved token a day from expiring is returned as it is and not saved. */
  lemma ExampleHit(now: int, csrfToken: string, consent: ConsentResult, exchange: TokenEndpointAnswer, refresh: TokenEndpointAnswer)
    ensures var stored := TokenRecord(Some("def"), None, Some(now + 864_000_000_000), None);
            var f := FetchValidUserTokenSpec(ExampleParameters, None, Some(stored), now, csrfToken, consent, exchange, refresh);
            f.result == Ok(Oauth2UserToken("def")) && f.effects == [LoadTokens]
  {
  }

  /** A denied consent fails with the denial message after showing the page
      once. */
  lemma ExampleConsentDenied(now: int, csrfToken: string, exchange: TokenEndpointAnswer, refresh: TokenEndpointAnswer)
    ensures var f := FetchValidUserTokenSpec(ExampleParameters, None, None, now, csrfToken,
                                         ConsentResult(None, None, Some("access_denied"), Some("User canceled")), exchange, refresh);
            && f.result == Err(Unauthorized(DeniedMessage))
            && f.effects == [LoadTokens, ShowConsent(ConsentQuery(ExampleParameters, csrfToken)), ConsentSettled(false)]
  {
    var show := ShowConsent(ConsentQuery(ExampleParameters, csrfToken));
    assert [LoadTokens] + [show, ConsentSettled(false)] == [LoadTokens, show, ConsentSettled(false)];
  }

  // ------------------------------------------------------------------ client

  /** The OAuth2 client: its parameters, its persister and the record it
      caches between calls. */
  class Oauth2Client {
    const parameters: Oauth2Parameters
    const persister: AuthTokenStore
    var cached: PersistedAuthTokens?

    constructor (parameters: Oauth2Parameters, persister: AuthTokenStore)
      ensures this.parameters == parameters && this.persister == persister && cached == null
    {
      this.parameters := parameters;
      this.persister := persister;
      cached := null;
    }

    function CachedValue(): Option<TokenRecord>
      reads this, cached
    {
      if cached == null then None else Some(cached.Value())
    }

    /** The load step: without a cached access token, the persister's
        record is merged into the cached record, created empty if there was
        none. */
    method LoadCached() returns (loads: seq<Effect>)
      modifies this, cached
      ensures cached != null && cached.Value() == AfterLoad(old(CachedValue()), persister.saved)
      ensures loads == if LoadsStored(old(CachedValue())) then [LoadTokens] else []
      ensures old(cached) != null ==> cached == old(cached)
      ensures old(cached) == null ==> fresh(cached)
    {
      loads := [];
      if cached == null || cached.accessToken.None? {
        loads := [LoadTokens];
        if cached == null {
          cached := new PersistedAuthTokens();
        }
        var loaded := persister.LoadAuthTokens();
        if loaded != null {
          var self := cached.LoadDefaults(loaded);
        }
      }
    }

    /** Saves the cached record and notes it in the effects. */
    method Save(pre: seq<Effect>) returns (effects: seq<Effect>)
      requires cached != null
      modifies persister
      ensures persister.saved == Some(cached.Value())
      ensures effects == pre + [SaveTokens(cached.Value())]
    {
      persister.SaveAuthTokens(cached);
      effects := pre + [SaveTokens(cached.Value())];
    }

    /** Authorize, then load and save the new token. */
    method AuthorizeAndSave(csrfToken: string, consent: ConsentResult, exchange: TokenEndpointAnswer, pre: seq<Effect>)
      returns (r: Result<UserAuthToken, AuthError>, effects: seq<Effect>)
      requires cached != null
      modifies cached, persister
      ensures var f := AfterAuthorize(old(cached.Value()), Authorize(parameters, csrfToken, consent, exchange), pre);
              && r == f.result && effects == f.effects && cached.Value() == f.record
              && persister.saved == (if r.Ok? then Some(f.record) else old(persister.saved))
    {
      var a := Authorize(parameters, csrfToken, consent, exchange);
      effects := pre + a.effects;
      if a.result.Err? {
        return Err(a.result.error), effects;
      }
      var self := cached.Load(a.result.value);
      effects := Save(effects);
      r := Ok(Oauth2UserToken(cached.accessToken.value));
    }

    /** Makes sure the cached access token is valid now: loads it, authorizes
        or refreshes as needed, saves a new token, and returns the bearer
        credential. The consent page and the token endpoint answer as given;
        the generated CSRF token is a parameter. */
    method FetchValidUserToken(now: int, csrfToken: string, consent: ConsentResult,
                               exchange: TokenEndpointAnswer, refresh: TokenEndpointAnswer)
      returns (r: Result<UserAuthToken, AuthError>, effects: seq<Effect>)
      modifies this, cached, persister
      ensures var f := FetchValidUserTokenSpec(parameters, old(CachedValue()), old(persister.saved), now,
                                               csrfToken, consent, exchange, refresh);
              && r == f.result && effects == f.effects
              && CachedValue() == Some(f.record)
              && persister.saved == (if Exchanged(AfterLoad(old(CachedValue()), old(persister.saved)), now, csrfToken, consent, exchange, refresh)
                                     then Some(f.record) else old(persister.saved))
      ensures old(cached) != null ==> cached == old(cached)
      ensures old(cached) == null ==> fresh(cached)
    {
      ghost var f := FetchValidUserTokenSpec(parameters, CachedValue(), persister.saved, now,
                                             csrfToken, consent, exchange, refresh);
      ghost var record := AfterLoad(CachedValue(), persister.saved);
      ghost var exchanged := Exchanged(record, now, csrfToken, consent, exchange, refresh);
      ghost var a := Authorize(parameters, csrfToken, consent, exchange);
      effects := LoadCached();
      if cached.accessToken.None? {
        assert f == AfterAuthorize(record, a, effects);
        r, effects := AuthorizeAndSave(csrfToken, consent, exchange, effects);
      } else if cached.expiration.Some? && cached.expiration.value - EarlyRefreshPeriod < now && cached.refreshToken.Some? {
        assert RefreshDue(record, now);
        effects := effects + [PostToken("refresh_token", RefreshForm(parameters, cached.refreshToken.value))];
        var answer := TokenResult(refresh);
        if answer.Ok? {
          assert f == Succeeded(record, answer.value, effects);
          var self := cached.Load(answer.value);
          effects := Save(effects);
          r := Ok(Oauth2UserToken(cached.accessToken.value));
        } else if answer.error.Unauthorized? {
          assert f == AfterAuthorize(record, a, effects);
          r, effects := AuthorizeAndSave(csrfToken, consent, exchange, effects);
        } else {
          assert f == Fetch(Err(answer.error), record, effects);
          r := Err(answer.error);
        }
      } else {
        assert f == Fetch(Ok(Oauth2UserToken(record.accessToken.value)), record, effects);
        r := Ok(Oauth2UserToken(cached.accessToken.value));
      }
    }
  }
}
