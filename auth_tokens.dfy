/** The token record the authorization clients keep in memory and hand to
    the persister, with its two in-place merge rules, and the persister. */
module AuthTokens {
  import opened Wrappers

  /** A token endpoint answer; all three fields are required. Instants are
      .NET ticks. */
  datatype Oauth2TokenResponse = Oauth2TokenResponse(accessToken: string, refreshToken: string, expiration: int)

  /** The value of a PersistedAuthTokens record. */
  datatype TokenRecord = TokenRecord(
    accessToken: Option<string>,
    refreshToken: Option<string>,
    expiration: Option<int>,
    passwordAuthToken: Option<string>)

  const NoTokens: TokenRecord := TokenRecord(None, None, None, None)

  /** The record after Load: the OAuth2 fields taken from the answer. */
  function Loaded(r: TokenRecord, response: Oauth2TokenResponse): (l: TokenRecord)
    ensures l.accessToken == Some(response.accessToken)
    ensures l.refreshToken == Some(response.refreshToken)
    ensures l.expiration == Some(response.expiration)
    ensures l.passwordAuthToken == r.passwordAuthToken
  {
    r.(accessToken := Some(response.accessToken),
       refreshToken := Some(response.refreshToken),
       expiration := Some(response.expiration))
  }

  /** The record after LoadDefaults from `source`: the OAuth2 fields come
      from the source together, and only when this record has no access
      token and the source has one; the password token is filled in only
      when this record has none. */
  function WithDefaults(r: TokenRecord, source: TokenRecord): TokenRecord
  {
    var oauth :=
      if r.accessToken.None? && source.accessToken.Some? then
        r.(accessToken := source.accessToken, refreshToken := source.refreshToken, expiration := source.expiration)
      else r;
    oauth.(passwordAuthToken := if r.passwordAuthToken.Some? then r.passwordAuthToken else source.passwordAuthToken)
  }

  /** The merge never overwrites a token already in memory. */
  lemma DefaultsNeverClobber(r: TokenRecord, source: TokenRecord)
    ensures var m := WithDefaults(r, source);
            && (r.accessToken.Some? ==>
                  m.accessToken == r.accessToken && m.refreshToken == r.refreshToken && m.expiration == r.expiration)
            && (r.passwordAuthToken.Some? ==> m.passwordAuthToken == r.passwordAuthToken)
  {
  }

  /** The OAuth2 fields move as one: all three from the source (even an
      absent refresh token or expiration) or all three kept. */
  lemma DefaultsCopyTogether(r: TokenRecord, source: TokenRecord)
    ensures var m := WithDefaults(r, source);
            if r.accessToken.None? && source.accessToken.Some? then
              m.accessToken == source.accessToken && m.refreshToken == source.refreshToken
              && m.expiration == source.expiration
            else
              m.accessToken == r.accessToken && m.refreshToken == r.refreshToken && m.expiration == r.expiration
    ensures WithDefaults(r, source).passwordAuthToken ==
              if r.passwordAuthToken.Some? then r.passwordAuthToken else source.passwordAuthToken
  {
  }

  /** Merging the same source twice is merging it once. */
  lemma DefaultsIdempotent(r: TokenRecord, source: TokenRecord)
    ensures WithDefaults(WithDefaults(r, source), source) == WithDefaults(r, source)
  {
  }

  /** An empty record takes a stored record whole, as long as the stored one
      has an access token. */
  lemma DefaultsIntoEmpty(source: TokenRecord)
    requires source.accessToken.Some?
    ensures WithDefaults(NoTokens, source) == source
  {
  }

  /** A freshly loaded answer survives any later merge. */
  lemma LoadedSurvivesDefaults(r: TokenRecord, response: Oauth2TokenResponse, source: TokenRecord)
    ensures WithDefaults(Loaded(r, response), source).accessToken == Some(response.accessToken)
    ensures WithDefaults(Loaded(r, response), source).refreshToken == Some(response.refreshToken)
    ensures WithDefaults(Loaded(r, response), source).expiration == Some(response.expiration)
  {
  }

  /** PersistedAuthTokens: the record, updated in place. */
  class PersistedAuthTokens {
    var accessToken: Option<string>
    var refreshToken: Option<string>
    var expiration: Option<int>
    var passwordAuthToken: Option<string>

    constructor ()
      ensures Value() == NoTokens
    {
      accessToken, refreshToken, expiration, passwordAuthToken := None, None, None, None;
    }

    /** A record holding only a password token. */
    constructor WithPasswordAuthToken(token: string)
      ensures Value() == TokenRecord(None, None, None, Some(token))
    {
      accessToken, refreshToken, expiration, passwordAuthToken := None, None, None, Some(token);
    }

    /** A record with the given fields (a deserialized copy). */
    constructor FromValue(v: TokenRecord)
      ensures Value() == v
    {
      accessToken, refreshToken, expiration, passwordAuthToken :=
        v.accessToken, v.refreshToken, v.expiration, v.passwordAuthToken;
    }

    function Value(): TokenRecord
      reads this
    {
      TokenRecord(accessToken, refreshToken, expiration, passwordAuthToken)
    }

    /** Copies an OAuth2 answer into this record and returns this record. */
    method Load(response: Oauth2TokenResponse) returns (self: PersistedAuthTokens)
      modifies this
      ensures self == this
      ensures Value() == Loaded(old(Value()), response)
    {
      accessToken := Some(response.accessToken);
      refreshToken := Some(response.refreshToken);
      expiration := Some(response.expiration);
      return this;
    }

    /** Fills the fields this record lacks from `source` and returns this
        record. */
    method LoadDefaults(source: PersistedAuthTokens) returns (self: PersistedAuthTokens)
      modifies this
      ensures self == this
      ensures Value() == WithDefaults(old(Value()), old(source.Value()))
    {
      if accessToken.None? && source.accessToken.Some? {
        accessToken := source.accessToken;
        refreshToken := source.refreshToken;
        expiration := source.expiration;
      }
      if passwordAuthToken.None? {
        passwordAuthToken := source.passwordAuthToken;
      }
      return this;
    }
  }

  /** The persister the client is configured with, as a slot holding the
      last saved record. Loading hands out a new copy; saving stores the
      record's current fields. */
  class AuthTokenStore {
    var saved: Option<TokenRecord>

    constructor (saved: Option<TokenRecord>)
      ensures this.saved == saved
    {
      this.saved := saved;
    }

    method LoadAuthTokens() returns (tokens: PersistedAuthTokens?)
      ensures (tokens == null) == saved.None?
      ensures tokens != null ==> fresh(tokens) && tokens.Value() == saved.value
    {
      if saved.Some? {
        tokens := new PersistedAuthTokens.FromValue(saved.value);
      } else {
        tokens := null;
      }
    }

    method SaveAuthTokens(tokens: PersistedAuthTokens)
      modifies this
      ensures saved == Some(tokens.Value())
    {
      saved := Some(tokens.Value());
    }
  }
}
