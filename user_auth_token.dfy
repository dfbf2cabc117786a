/** The user credentials the request filter attaches to every API call: an
    OAuth2 bearer token (RFC 6750, section 2.1) or a ClientLogin token sent
    with the app's id and key. */
module UserAuthTokens {
  import opened Wrappers

  /** The value of an Authorization header. */
  datatype AuthenticationHeaderValue = AuthenticationHeaderValue(scheme: string, parameter: string)

  /** The values of the extra request headers, which are of type object. */
  datatype HeaderObject = IntHeader(i: int) | StringHeader(s: string)

  const PasswordTokenPrefix: string := "auth="

  datatype UserAuthToken =
    | Oauth2UserToken(userToken: string)
    | UserPasswordToken(userToken: string, appId: int, appKey: string)
  {
    /** "Bearer" with the access token verbatim, or "GoogleLogin" with
        "auth=" and the token. */
    function AuthenticationHeader(): (h: AuthenticationHeaderValue)
      ensures h.scheme == "Bearer" <==> Oauth2UserToken?
      ensures h.scheme == "GoogleLogin" <==> UserPasswordToken?
      ensures Oauth2UserToken? ==> h.parameter == userToken
      ensures UserPasswordToken? ==> h.parameter == PasswordTokenPrefix + userToken
    {
      match this
      case Oauth2UserToken(t) => AuthenticationHeaderValue("Bearer", t)
      case UserPasswordToken(t, _, _) => AuthenticationHeaderValue("GoogleLogin", PasswordTokenPrefix + t)
    }

    /** Headers other than Authorization: none for OAuth2, exactly the app id
        and app key for a password token. */
    function RequestHeaders(): (r: Option<map<string, HeaderObject>>)
      ensures r.None? <==> Oauth2UserToken?
      ensures r.Some? ==> r.value.Keys == {"AppId", "AppKey"}
      ensures r.Some? ==> r.value["AppId"] == IntHeader(appId) && r.value["AppKey"] == StringHeader(appKey)
    {
      match this
      case Oauth2UserToken(_) => None
      case UserPasswordToken(_, id, key) => Some(map["AppId" := IntHeader(id), "AppKey" := StringHeader(key)])
    }
  }

  /** How a receiver reads the token back out of the Authorization header. */
  function TokenOf(h: AuthenticationHeaderValue): Option<string>
  {
    if h.scheme == "Bearer" then Some(h.parameter)
    else if h.scheme == "GoogleLogin" && PasswordTokenPrefix <= h.parameter then
      Some(h.parameter[|PasswordTokenPrefix|..])
    else None
  }

  /** The header carries the token: it reads back unchanged, whichever kind
      of credential it is. */
  lemma HeaderCarriesToken(t: UserAuthToken)
    ensures TokenOf(t.AuthenticationHeader()) == Some(t.userToken)
  {
    if t.UserPasswordToken? {
      assert (PasswordTokenPrefix + t.userToken)[|PasswordTokenPrefix|..] == t.userToken;
    }
  }

  /** Two credentials of the same kind with the same header carry the same
      token. */
  lemma HeaderDeterminesToken(a: UserAuthToken, b: UserAuthToken)
    requires a.AuthenticationHeader() == b.AuthenticationHeader()
    ensures a.userToken == b.userToken
    ensures a.Oauth2UserToken? == b.Oauth2UserToken?
  {
    HeaderCarriesToken(a);
    HeaderCarriesToken(b);
  }
}
