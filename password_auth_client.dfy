/** The password client: a ClientLogin request with the user's email
    address and password and the app's id and key, whose plain-text answer
    of `key=value` lines carries the token under "Auth". */
module PasswordAuth {
  import opened Wrappers
  import opened Text
  import opened AuthTokens
  import opened UserAuthTokens

  type Form = seq<(string, string)>

  const UserAgent: string := "Inoreader Android v7.9.5"
  const ContentLanguage: string := "en_US"
  const LoginFailurePrefix: string := "Failed to create web API user auth token: "

  /** The user's and the app's credentials. */
  datatype PasswordAuthParameters = PasswordAuthParameters(
    userEmailAddress: string, userPassword: string, appId: int, appKey: string)

  /** What the ClientLogin endpoint answered. */
  datatype LoginOutcome =
    | LoginBody(body: string)          // a success status with this body
    | LoginRejected(statusCode: int)   // an error status
    | LoginUnprocessable               // a network or decoding failure

  datatype LoginError =
    | AuthenticationFailed(message: string)  // AuthenticationException
    | ProcessingFailed                       // ProcessingException
    | MissingSeparator(line: string)         // a line without '=': the index of its value is out of range
    | DuplicateKey(key: string)              // ToDictionary met a key twice
    | MissingAuth                            // no "Auth" key

  /** The login form, in order. */
  function LoginForm(p: PasswordAuthParameters): (f: Form)
    ensures |f| == 4 && f[0] == ("Email", p.userEmailAddress) && f[1] == ("Passwd", p.userPassword)
    ensures f[2] == ("AppId", IntToString(p.appId)) && f[3] == ("AppKey", p.appKey)
  {
    [("Email", p.userEmailAddress), ("Passwd", p.userPassword), ("AppId", IntToString(p.appId)), ("AppKey", p.appKey)]
  }

  // ------------------------------------------------------- response parsing

  /** A line split at its first '=' into the key and the rest. */
  function KeyValue(line: string): Option<(string, string)>
  {
    var split := Split(line, '=', 2);
    if |split| == 2 then Some((split[0], split[1])) else None
  }

  /** The key and value of a line read back: the key ends at the first
      '=', and the value may hold further '=' signs. */
  lemma KeyValueOfRendered(key: string, value: string)
    requires '=' !in key
    ensures KeyValue(key + "=" + value) == Some((key, value))
  {
    SplitCons(key + "=" + value, '=', 2, key, value);
  }

  /** ToDictionary over the lines, into `acc`: the first line without '='
      or with a key already present stops it. */
  function ToDictionary(lines: seq<string>, acc: map<string, string>): (r: Result<map<string, string>, LoginError>)
    ensures r.Err? ==> (r.error.MissingSeparator? && r.error.line in lines) || r.error.DuplicateKey?
  {
    if lines == [] then Ok(acc)
    else match KeyValue(lines[0])
      case None => Err(MissingSeparator(lines[0]))
      case Some(kv) =>
        if kv.0 in acc then Err(DuplicateKey(kv.0))
        else ToDictionary(lines[1..], acc[kv.0 := kv.1])
  }

  /** A dictionary comes out only when every line has a '=' and a key of its
      own; it keeps `acc` and holds every line's key. */
  lemma {:induction false} ToDictionaryAccepts(lines: seq<string>, acc: map<string, string>)
    requires ToDictionary(lines, acc).Ok?
    ensures var m := ToDictionary(lines, acc).value;
            && (forall k :: k in acc ==> k in m && m[k] == acc[k])
            && (forall i :: 0 <= i < |lines| ==> KeyValue(lines[i]).Some? && KeyValue(lines[i]).value.0 !in acc)
            && (forall i :: 0 <= i < |lines| ==> KeyValue(lines[i]).value.0 in m)
  {
    if lines != [] {
      var kv := KeyValue(lines[0]).value;
      ToDictionaryAccepts(lines[1..], acc[kv.0 := kv.1]);
      forall i | 1 <= i < |lines| ensures lines[i] == lines[1..][i - 1] { }
    }
  }

  /** The ClientLogin answer read for its token: trimmed, split into lines,
      each line split at its first '=', collected into a dictionary, and the
      value under "Auth" taken. */
  function ParseLoginResponse(body: string): Result<string, LoginError>
  {
    match ToDictionary(SplitAll(Trim(body), '\n'), map[])
    case Err(e) => Err(e)
    case Ok(m) => if "Auth" in m then Ok(m["Auth"]) else Err(MissingAuth)
  }

  /** An answer rendered as lines from key/value pairs. */
  function Render(entries: seq<(string, string)>): string
    requires |entries| >= 1
  {
    Join(Lines(entries), '\n')
  }

  function Lines(entries: seq<(string, string)>): (lines: seq<string>)
    ensures |lines| == |entries|
    ensures forall i :: 0 <= i < |entries| ==> lines[i] == entries[i].0 + "=" + entries[i].1
  {
    if entries == [] then [] else [entries[0].0 + "=" + entries[0].1] + Lines(entries[1..])
  }

  /** Keys are free of '=' and '\n', values of '\n', and no key repeats. */
  predicate WellFormed(entries: seq<(string, string)>)
  {
    && (forall i :: 0 <= i < |entries| ==> '=' !in entries[i].0 && '\n' !in entries[i].0 && '\n' !in entries[i].1)
    && (forall i, j :: 0 <= i < j < |entries| ==> entries[i].0 != entries[j].0)
  }

  /** Reading the rendered lines into `acc` adds exactly the pairs. */
  lemma {:induction false} ToDictionaryRendered(entries: seq<(string, string)>, acc: map<string, string>)
    requires WellFormed(entries)
    requires forall i :: 0 <= i < |entries| ==> entries[i].0 !in acc
    ensures ToDictionary(Lines(entries), acc) == Ok(acc + MapOf(entries))
    decreases |entries|
  {
    if entries != [] {
      var k, v := entries[0].0, entries[0].1;
      var tail := entries[1..];
      RenderedStep(entries, acc);
      TailWellFormed(entries);
      forall i | 0 <= i < |tail| ensures tail[i].0 !in acc[k := v] {
        assert tail[i] == entries[i + 1];
      }
      ToDictionaryRendered(tail, acc[k := v]);
      UnionStep(acc, k, v, MapOf(tail));
    } else {
      assert acc + MapOf(entries) == acc;
    }
  }

  lemma UnionStep(acc: map<string, string>, k: string, v: string, m: map<string, string>)
    ensures acc[k := v] + m == acc + (map[k := v] + m)
  {
  }

  lemma EmptyUnion(m: map<string, string>)
    ensures map[] + m == m
  {
  }

  /** The first rendered line is read as the first pair. */
  lemma RenderedStep(entries: seq<(string, string)>, acc: map<string, string>)
    requires entries != [] && '=' !in entries[0].0 && entries[0].0 !in acc
    ensures ToDictionary(Lines(entries), acc) == ToDictionary(Lines(entries[1..]), acc[entries[0].0 := entries[0].1])
  {
    var lines := Lines(entries);
    assert lines[0] == entries[0].0 + "=" + entries[0].1;
    KeyValueOfRendered(entries[0].0, entries[0].1);
    assert lines[1..] == Lines(entries[1..]);
  }

  lemma TailWellFormed(entries: seq<(string, string)>)
    requires WellFormed(entries) && entries != []
    ensures WellFormed(entries[1..])
  {
    var tail := entries[1..];
    forall i | 0 <= i < |tail| ensures '=' !in tail[i].0 && '\n' !in tail[i].0 && '\n' !in tail[i].1 {
      assert tail[i] == entries[i + 1];
    }
    forall i, j | 0 <= i < j < |tail| ensures tail[i].0 != tail[j].0 {
      assert tail[i] == entries[i + 1] && tail[j] == entries[j + 1];
    }
  }

  /** The pairs as a dictionary. */
  function MapOf(entries: seq<(string, string)>): map<string, string>
  {
    if entries == [] then map[] else map[entries[0].0 := entries[0].1] + MapOf(entries[1..])
  }

  lemma {:induction false} KeyAbsent(entries: seq<(string, string)>, k: string)
    requires forall i :: 0 <= i < |entries| ==> entries[i].0 != k
    ensures k !in MapOf(entries)
  {
    if entries != [] {
      KeyAbsent(entries[1..], k);
    }
  }

  /** A key present in the pairs maps to its value. */
  lemma {:induction false} MapOfLookup(entries: seq<(string, string)>, i: nat)
    requires WellFormed(entries) && i < |entries|
    ensures entries[i].0 in MapOf(entries) && MapOf(entries)[entries[i].0] == entries[i].1
    decreases |entries|
  {
    if i > 0 {
      var tail := entries[1..];
      assert tail[i - 1] == entries[i];
      TailWellFormed(entries);
      MapOfLookup(tail, i - 1);
      assert entries[0].0 != entries[i].0;
    } else {
      forall j | 0 <= j < |entries| - 1 ensures entries[1..][j].0 != entries[0].0 {
        assert entries[1..][j] == entries[j + 1];
      }
      KeyAbsent(entries[1..], entries[0].0);
    }
  }

  /** No rendered line holds a line break. */
  lemma LinesUnbroken(entries: seq<(string, string)>)
    requires WellFormed(entries)
    ensures forall k :: 0 <= k < |Lines(entries)| ==> '\n' !in Lines(entries)[k]
  {
    var lines := Lines(entries);
    forall k | 0 <= k < |lines| ensures '\n' !in lines[k] {
      assert lines[k] == entries[k].0 + "=" + entries[k].1;
    }
  }

  /** A rendered answer reads back as its pairs. */
  lemma ParseRendered(entries: seq<(string, string)>)
    requires |entries| >= 1 && WellFormed(entries)
    ensures SplitAll(Render(entries), '\n') == Lines(entries)
    ensures ToDictionary(SplitAll(Render(entries), '\n'), map[]) == Ok(MapOf(entries))
  {
    LinesUnbroken(entries);
    SplitAllUnique(Render(entries), '\n', Lines(entries));
    ToDictionaryRendered(entries, map[]);
    EmptyUnion(MapOf(entries));
  }

  /** An answer carrying the token under "Auth" yields that token, whatever
      the other lines, as long as it has no white space at either end. */
  lemma AuthTokenRead(entries: seq<(string, string)>, i: nat)
    requires |entries| >= 1 && WellFormed(entries) && i < |entries| && entries[i].0 == "Auth"
    requires var body := Render(entries); body == [] || (!IsWhiteSpace(body[0]) && !IsWhiteSpace(body[|body| - 1]))
    ensures ParseLoginResponse(Render(entries)) == Ok(entries[i].1)
  {
    TrimIdentity(Render(entries));
    ParseRendered(entries);
    MapOfLookup(entries, i);
  }

  /** A key that comes back a second time stops the parse at that line. */
  lemma DuplicateKeyRejected(key: string, first: string, second: string, rest: seq<string>)
    requires '=' !in key
    ensures ToDictionary([key + "=" + first, key + "=" + second] + rest, map[]) == Err(DuplicateKey(key))
  {
    KeyValueOfRendered(key, first);
    KeyValueOfRendered(key, second);
    var lines := [key + "=" + first, key + "=" + second] + rest;
    assert lines[1..] == [key + "=" + second] + rest;
    assert lines[1..][1..] == rest;
  }

  /** A line without '=' stops the parse at that line. */
  lemma MissingSeparatorRejected(line: string, rest: seq<string>, acc: map<string, string>)
    requires '=' !in line
    ensures ToDictionary([line] + rest, acc) == Err(MissingSeparator(line))
  {
    assert ([line] + rest)[0] == line;
  }

  /** A well-formed answer without an "Auth" line yields no token. */
  lemma MissingAuthRejected(entries: seq<(string, string)>)
    requires |entries| >= 1 && WellFormed(entries)
    requires forall i :: 0 <= i < |entries| ==> entries[i].0 != "Auth"
    requires var body := Render(entries); body == [] || (!IsWhiteSpace(body[0]) && !IsWhiteSpace(body[|body| - 1]))
    ensures ParseLoginResponse(Render(entries)) == Err(MissingAuth)
  {
    TrimIdentity(Render(entries));
    ParseRendered(entries);
    KeyAbsent(entries, "Auth");
  }

  /** Every line of a parsed answer held a '=' and a key of its own, so an
      answer with a line lacking '=' or a repeated key yields no token. */
  lemma ParsedLinesWellFormed(body: string)
    requires ParseLoginResponse(body).Ok?
    ensures var lines := SplitAll(Trim(body), '\n');
            forall i :: 0 <= i < |lines| ==> KeyValue(lines[i]).Some?
  {
    ToDictionaryAccepts(SplitAll(Trim(body), '\n'), map[]);
  }

  /** AuthorizeAppUser: the token read from the answer, an authentication
      failure naming the status, or the processing failure passed on. */
  function AuthorizeAppUser(login: LoginOutcome): (r: Result<string, LoginError>)
    ensures login.LoginRejected? ==> r == Err(AuthenticationFailed(LoginFailurePrefix + IntToString(login.statusCode)))
    ensures login.LoginUnprocessable? ==> r == Err(ProcessingFailed)
    ensures login.LoginBody? ==> r == ParseLoginResponse(login.body)
  {
    match login
    case LoginBody(body) => ParseLoginResponse(body)
    case LoginRejected(status) => Err(AuthenticationFailed(LoginFailurePrefix + IntToString(status)))
    case LoginUnprocessable => Err(ProcessingFailed)
  }

  /** What the client did, in order. */
  datatype Effect =
    | LoadTokens                                                    // asked the persister for its record
    | PostLogin(userAgent: string, contentLanguage: string, form: Form)  // posted the login form
    | SaveTokens(saved: TokenRecord)                                // handed the record to the persister

  /** The outcome of FetchValidUserToken: the credential or error, the cached
      record afterwards (none when the persister had none), and the effects. */
  datatype Fetch = Fetch(result: Result<UserAuthToken, LoginError>, record: Option<TokenRecord>, effects: seq<Effect>)

  /** The persister is consulted when no record with a password token is
      cached. */
  predicate LoadsStored(cached: Option<TokenRecord>)
  {
    cached.None? || cached.value.passwordAuthToken.None?
  }

  /** The cached record after the load step: the persister's answer replaces
      the cached record outright, even when it is none. */
  function AfterLoad(cached: Option<TokenRecord>, stored: Option<TokenRecord>): Option<TokenRecord>
  {
    if LoadsStored(cached) then stored else cached
  }

  /** A record that holds only the new password token. */
  function TokenOnly(token: string): TokenRecord
  {
    TokenRecord(None, None, None, Some(token))
  }

  /** FetchValidUserToken as a function of the cached record, the
      persister's record and what AuthorizeAppUser returns for the
      endpoint's answer. */
  function FetchValidUserTokenSpec(p: PasswordAuthParameters, cached: Option<TokenRecord>, stored: Option<TokenRecord>,
                                   login: Result<string, LoginError>): Fetch
  {
    var r := AfterLoad(cached, stored);
    var loads := if LoadsStored(cached) then [LoadTokens] else [];
    if r.Some? && r.value.passwordAuthToken.Some? then
      Fetch(Ok(UserPasswordToken(r.value.passwordAuthToken.value, p.appId, p.appKey)), r, loads)
    else
      var posted := loads + [PostLogin(UserAgent, ContentLanguage, LoginForm(p))];
      match login
      case Ok(token) => Fetch(Ok(UserPasswordToken(token, p.appId, p.appKey)), Some(TokenOnly(token)), posted + [SaveTokens(TokenOnly(token))])
      case Err(e) => Fetch(Err(e), r, posted)
  }

  /** A login happens when, after the load step, there is no record with a
      password token. */
  predicate LogsIn(cached: Option<TokenRecord>, stored: Option<TokenRecord>)
  {
    var r := AfterLoad(cached, stored);
    r.None? || r.value.passwordAuthToken.None?
  }

  /** The credential returned carries the token of the record kept and the
      app's id and key; a failed login leaves the loaded record, and a
      successful one replaces it with a record holding only the new
      token. */
  lemma FetchOutcome(p: PasswordAuthParameters, cached: Option<TokenRecord>, stored: Option<TokenRecord>, login: Result<string, LoginError>)
    ensures var f := FetchValidUserTokenSpec(p, cached, stored, login);
            && (f.result.Ok? ==> f.record.Some? && f.record.value.passwordAuthToken.Some?
                                 && f.result.value == UserPasswordToken(f.record.value.passwordAuthToken.value, p.appId, p.appKey))
            && (f.result.Ok? <==> !LogsIn(cached, stored) || login.Ok?)
            && (f.result.Err? ==> f.record == AfterLoad(cached, stored))
            && (LogsIn(cached, stored) && f.result.Ok? ==> f.record == Some(TokenOnly(login.value)))
  {
  }

  /** The persister is asked first and only when no password token is
      cached; the login form is posted only when no token was found; the
      record is saved only after a successful login, as the last effect. */
  lemma FetchEffects(p: PasswordAuthParameters, cached: Option<TokenRecord>, stored: Option<TokenRecord>, login: Result<string, LoginError>)
    ensures var f := FetchValidUserTokenSpec(p, cached, stored, login);
            var logsIn := LogsIn(cached, stored);
            && |f.effects| == (if LoadsStored(cached) then 1 else 0) + (if logsIn then 1 else 0) + (if logsIn && f.result.Ok? then 1 else 0)
            && (LoadsStored(cached) <==> LoadTokens in f.effects)
            && (LoadsStored(cached) ==> f.effects[0] == LoadTokens)
            && (logsIn <==> PostLogin(UserAgent, ContentLanguage, LoginForm(p)) in f.effects)
            && (logsIn && login.Ok? ==> SaveTokens(TokenOnly(login.value)) in f.effects)
            && (forall e :: e in f.effects && e.SaveTokens? ==> e == f.effects[|f.effects| - 1] && Some(e.saved) == f.record)
  {
  }

  /** A cached password token is used as it is: nothing is loaded, posted or
      saved. */
  lemma CachedTokenUsed(p: PasswordAuthParameters, cached: TokenRecord, stored: Option<TokenRecord>, login: Result<string, LoginError>)
    requires cached.passwordAuthToken.Some?
    ensures FetchValidUserTokenSpec(p, Some(cached), stored, login)
            == Fetch(Ok(UserPasswordToken(cached.passwordAuthToken.value, p.appId, p.appKey)), Some(cached), [])
  {
  }

  // ---------------------------------------------------------------- examples

  const ExampleParameters: PasswordAuthParameters := PasswordAuthParameters("user@aldaviva.com", "abc123", 456, "789")

  /** Without a saved record the login form is posted, and the token the
      answer carries is returned and saved alone. */
  lemma ExampleMiss()
    ensures var f := FetchValidUserTokenSpec(ExampleParameters, None, None, Ok("asdf"));
            && f.result == Ok(UserPasswordToken("asdf", 456, "789"))
            && f.effects == [LoadTokens,
                             PostLogin(UserAgent, ContentLanguage,
                                       [("Email", "user@aldaviva.com"), ("Passwd", "abc123"), ("AppId", "456"), ("AppKey", "789")]),
                             SaveTokens(TokenRecord(None, None, None, Some("asdf")))]
  {
    assert NatToString(456) == "456" by {
      assert NatToString(4) == "4";
      assert NatToString(45) == NatToString(4) + "5";
    }
  }

  /** A 401 answer fails with its status in the message. */
  lemma ExampleWrongCredentials()
    ensures var f := FetchValidUserTokenSpec(ExampleParameters, None, None, AuthorizeAppUser(LoginRejected(401)));
            f.result == Err(AuthenticationFailed("Failed to create web API user auth token: 401"))
  {
    assert NatToString(401) == "401" by {
      assert NatToString(4) == "4";
      assert NatToString(40) == NatToString(4) + "0";
      assert NatToString(401) == NatToString(40) + "1";
    }
    assert IntToString(401) == "401";
    assert AuthorizeAppUser(LoginRejected(401)) == Err(AuthenticationFailed(LoginFailurePrefix + "401"));
    assert LoginFailurePrefix + "401" == "Failed to create web API user auth token: 401";
  }

  // ------------------------------------------------------------------ client

  /** The password client: its parameters, its persister and the record it
      caches between calls. */
  class PasswordAuthClient {
    const parameters: PasswordAuthParameters
    const persister: AuthTokenStore
    var cached: PersistedAuthTokens?

    constructor (parameters: PasswordAuthParameters, persister: AuthTokenStore)
      ensures this.parameters == parameters && this.persister == persister && cached == null
    {
      this.parameters := parameters;
      this.persister := persister;
      cached := null;
    }

    function CachedValue(): Option<TokenRecord>
      reads this, cached
    {
      if cached == null then None else Some(cached.Value())
    }

    /** The load step: without a cached password token, the persister's
        record, or none, replaces the cached one. */
    method LoadCached() returns (loads: seq<Effect>)
      modifies this
      ensures CachedValue() == AfterLoad(old(CachedValue()), persister.saved)
      ensures loads == if LoadsStored(old(CachedValue())) then [LoadTokens] else []
    {
      loads := [];
      if cached == null || cached.passwordAuthToken.None? {
        loads := [LoadTokens];
        cached := persister.LoadAuthTokens();
      }
    }

    /** Returns the password credential: the cached or saved token, or a new
        one from a login, which is then saved. `login` is what
        AuthorizeAppUser returns for the endpoint's answer to the posted
        form: the token, or the error that fails the call. */
    method FetchValidUserToken(login: Result<string, LoginError>) returns (r: Result<UserAuthToken, LoginError>, effects: seq<Effect>)
      modifies this, persister
      ensures var f := FetchValidUserTokenSpec(parameters, old(CachedValue()), old(persister.saved), login);
              && r == f.result && effects == f.effects && CachedValue() == f.record
              && persister.saved == (if |effects| > 0 && effects[|effects| - 1].SaveTokens? then f.record else old(persister.saved))
    {
      ghost var f := FetchValidUserTokenSpec(parameters, CachedValue(), persister.saved, login);
      effects := LoadCached();
      if cached == null || cached.passwordAuthToken.None? {
        effects := effects + [PostLogin(UserAgent, ContentLanguage, LoginForm(parameters))];
        if login.Err? {
          assert f == Fetch(Err(login.error), CachedValue(), effects);
          return Err(login.error), effects;
        }
        assert f.record == Some(TokenOnly(login.value));
        cached := new PersistedAuthTokens.WithPasswordAuthToken(login.value);
        persister.SaveAuthTokens(cached);
        effects := effects + [SaveTokens(cached.Value())];
      }
      r := Ok(UserPasswordToken(cached.passwordAuthToken.value, parameters.appId, parameters.appKey));
    }
  }
}
