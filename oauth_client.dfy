/** The OAuth client (`OAuth2Canva`): configuration, the authorization URL
    of RFC 6749 section 4.1.1 with the PKCE parameters of RFC 7636 section
    4.3, the token requests of RFC 6749 sections 4.1.3 and 6, introspection,
    revocation and the authenticated API request helper. The HTTP transport
    is a function `send` from request to response; logging is not modelled. */
module OAuth2Canva {
  import opened Wrappers
  import opened Text
  import Base64
  import PKCE
  import Query

  /** The exceptions the client and the token record raise. `TypeError`
      stands for PHP's `Error` hierarchy, which `catch (\Exception)` does not
      catch. `ErrorException` is the exception Laravel raises in place of a
      PHP warning, such as a read of an undefined array key. */
  datatype Failure =
    | TokenExchangeException(message: string)
    | TokenRefreshException(message: string)
    | ProviderException(message: string)
    | InvalidArgumentException(message: string)
    | ErrorException(message: string)
    | TypeError(message: string)
  {
    /** Whether `catch (\Exception $e)` catches it. */
    predicate IsException()
      ensures TokenExchangeException? || TokenRefreshException? || ProviderException? ==> IsException()
      ensures InvalidArgumentException? || ErrorException? ==> IsException()
      ensures TypeError? ==> !IsException()
    {
      !TypeError?
    }
  }

  /** The seven settings the constructor reads once; nothing updates them. */
  datatype Config = Config(
    clientId: string, clientSecret: string, redirectUri: string, scopes: string,
    apiBaseUrl: string, authorizationUrl: string, tokenUrl: string)

  const DefaultScopes := ""
  const DefaultApiBaseUrl := "https://api.canva.com"
  const DefaultAuthorizationUrl := "https://www.canva.com/api/oauth/authorize"
  const DefaultTokenUrl := "https://api.canva.com/rest/v1/oauth/token"

  /** The constructor. Each argument is the configured value, `None` when the
      environment does not set it. The four settings with defaults fall back to
      them; the other three are typed `string` properties, so a missing one
      makes the constructor fail. */
  function NewClient(
    clientId: Option<string>, clientSecret: Option<string>, redirectUri: Option<string>,
    scopes: Option<string>, apiBaseUrl: Option<string>, authorizationUrl: Option<string>,
    tokenUrl: Option<string>): (r: Result<Config, Failure>)
    ensures r.Ok? <==> clientId.Some? && clientSecret.Some? && redirectUri.Some?
    ensures r.Err? ==> r.error.TypeError?
    ensures r.Ok? ==> && r.value.clientId == clientId.value
                      && r.value.clientSecret == clientSecret.value
                      && r.value.redirectUri == redirectUri.value
    ensures r.Ok? ==> && (scopes.None? ==> r.value.scopes == DefaultScopes)
                      && (apiBaseUrl.None? ==> r.value.apiBaseUrl == DefaultApiBaseUrl)
                      && (authorizationUrl.None? ==> r.value.authorizationUrl == DefaultAuthorizationUrl)
                      && (tokenUrl.None? ==> r.value.tokenUrl == DefaultTokenUrl)
    ensures r.Ok? ==> && (scopes.Some? ==> r.value.scopes == scopes.value)
                      && (apiBaseUrl.Some? ==> r.value.apiBaseUrl == apiBaseUrl.value)
                      && (authorizationUrl.Some? ==> r.value.authorizationUrl == authorizationUrl.value)
                      && (tokenUrl.Some? ==> r.value.tokenUrl == tokenUrl.value)
  {
    if clientId.None? || clientSecret.None? || redirectUri.None? then
      Err(TypeError("Cannot assign null to property of type string"))
    else
      Ok(Config(clientId.value, clientSecret.value, redirectUri.value,
                scopes.GetOr(DefaultScopes), apiBaseUrl.GetOr(DefaultApiBaseUrl),
                authorizationUrl.GetOr(DefaultAuthorizationUrl), tokenUrl.GetOr(DefaultTokenUrl)))
  }

  // ---------------------------------------------------------------------
  // Authorization URL

  /** What `getAuthorizationUrl` returns. */
  datatype AuthorizationUrl = AuthorizationUrl(url: string, codeVerifier: string, state: string)

  /** The query parameters, in the order the source lists them. */
  function AuthorizationParams(cfg: Config, challenge: string, scopes: string, state: string, redirectUri: string)
    : (p: seq<(string, string)>)
    ensures Keys(p) == ["code_challenge", "code_challenge_method", "scope", "response_type", "client_id", "state", "redirect_uri"]
    ensures p[0].1 == challenge && p[2].1 == scopes && p[4].1 == cfg.clientId && p[5].1 == state && p[6].1 == redirectUri
  {
    [ ("code_challenge", challenge), ("code_challenge_method", "S256"), ("scope", scopes),
      ("response_type", "code"), ("client_id", cfg.clientId), ("state", state),
      ("redirect_uri", redirectUri) ]
  }

  /** `getAuthorizationUrl`. A missing verifier or state is generated from
      the random bytes given for it; missing scopes and redirect URI fall
      back to the configuration. */
  function GetAuthorizationUrl(
    cfg: Config, codeVerifier: Option<string>, state: Option<string>,
    scopes: Option<string>, redirectUri: Option<string>,
    verifierEntropy: PKCE.Bytes48, stateEntropy: PKCE.Bytes48, sha256: Bytes -> PKCE.Digest)
    : (r: AuthorizationUrl)
    ensures codeVerifier.Some? ==> r.codeVerifier == codeVerifier.value
    ensures codeVerifier.None? ==> r.codeVerifier == PKCE.GenerateCodeVerifier(verifierEntropy)
    ensures state.Some? ==> r.state == state.value
    ensures state.None? ==> r.state == PKCE.GenerateState(stateEntropy)
    ensures StartsWith(r.url, cfg.authorizationUrl + "?")
  {
    var verifier := codeVerifier.GetOr(PKCE.GenerateCodeVerifier(verifierEntropy));
    var challenge := PKCE.GenerateCodeChallenge(verifier, sha256);
    var st := state.GetOr(PKCE.GenerateState(stateEntropy));
    var params := AuthorizationParams(cfg, challenge, scopes.GetOr(cfg.scopes), st, redirectUri.GetOr(cfg.redirectUri));
    var url := cfg.authorizationUrl + "?" + Query.BuildQuery(params);
    assert url[..|cfg.authorizationUrl + "?"|] == cfg.authorizationUrl + "?";
    AuthorizationUrl(url, verifier, st)
  }

  /** The query string of an authorization URL, after the `?`. */
  function QueryOf(cfg: Config, a: AuthorizationUrl): string
    requires StartsWith(a.url, cfg.authorizationUrl + "?")
  {
    a.url[|cfg.authorizationUrl| + 1..]
  }

  /** Reading the query back yields the seven parameters in order; the
      challenge is the S256 challenge of the returned verifier and needs no
      escaping. */
  lemma AuthorizationUrlFields(
    cfg: Config, codeVerifier: Option<string>, state: Option<string>,
    scopes: Option<string>, redirectUri: Option<string>,
    verifierEntropy: PKCE.Bytes48, stateEntropy: PKCE.Bytes48, sha256: Bytes -> PKCE.Digest)
    ensures var a := GetAuthorizationUrl(cfg, codeVerifier, state, scopes, redirectUri, verifierEntropy, stateEntropy, sha256);
      var split := Query.SplitQuery(QueryOf(cfg, a));
      split.Some? &&
      var fields := split.value;
      && |fields| == 7
      && fields[0] == ("code_challenge", PKCE.GenerateCodeChallenge(a.codeVerifier, sha256))
      && fields[1] == ("code_challenge_method", "S256")
      && fields[2] == ("scope", Query.UrlEncode(scopes.GetOr(cfg.scopes)))
      && fields[3] == ("response_type", "code")
      && fields[4] == ("client_id", Query.UrlEncode(cfg.clientId))
      && fields[5] == ("state", Query.UrlEncode(a.state))
      && fields[6] == ("redirect_uri", Query.UrlEncode(redirectUri.GetOr(cfg.redirectUri)))
  {
    var a := GetAuthorizationUrl(cfg, codeVerifier, state, scopes, redirectUri, verifierEntropy, stateEntropy, sha256);
    var challenge := PKCE.GenerateCodeChallenge(a.codeVerifier, sha256);
    var params := AuthorizationParams(cfg, challenge, scopes.GetOr(cfg.scopes), a.state, redirectUri.GetOr(cfg.redirectUri));
    var q := Query.BuildQuery(params);
    assert a.url == cfg.authorizationUrl + "?" + q;
    assert QueryOf(cfg, a) == q;
    AuthorizationKeysSafe(cfg, challenge, scopes.GetOr(cfg.scopes), a.state, redirectUri.GetOr(cfg.redirectUri));
    Query.SplitBuildQuery(params);
    assert Query.SplitQuery(QueryOf(cfg, a)) == Some(Query.EncodedPairs(params));
    EncodedAuthorizationParams(cfg, challenge, scopes.GetOr(cfg.scopes), a.state, redirectUri.GetOr(cfg.redirectUri));
  }

  lemma AuthorizationKeysSafe(cfg: Config, challenge: string, scopes: string, state: string, redirectUri: string)
    ensures var params := AuthorizationParams(cfg, challenge, scopes, state, redirectUri);
      forall i :: 0 <= i < |params| ==> Query.IsSafeKey(params[i].0)
  {
  }

  /** The parameters as they stand in the query: only the scope, client id,
      state and redirect URI can need escaping. */
  lemma EncodedAuthorizationParams(cfg: Config, challenge: string, scopes: string, state: string, redirectUri: string)
    requires forall i :: 0 <= i < |challenge| ==> PKCE.IsBase64UrlChar(challenge[i])
    ensures var e := Query.EncodedPairs(AuthorizationParams(cfg, challenge, scopes, state, redirectUri));
      && |e| == 7
      && e[0] == ("code_challenge", challenge)
      && e[1] == ("code_challenge_method", "S256")
      && e[2] == ("scope", Query.UrlEncode(scopes))
      && e[3] == ("response_type", "code")
      && e[4] == ("client_id", Query.UrlEncode(cfg.clientId))
      && e[5] == ("state", Query.UrlEncode(state))
      && e[6] == ("redirect_uri", Query.UrlEncode(redirectUri))
  {
    Query.IsPlainAt(challenge);
    Query.UrlEncodePlain(challenge);
    FixedValuesUnescaped();
  }

  /** The two fixed values need no escaping. */
  lemma FixedValuesUnescaped()
    ensures Query.UrlEncode("S256") == "S256"
    ensures Query.UrlEncode("code") == "code"
  {
    var s256, code := "S256", "code";
    assert forall i :: 0 <= i < |s256| ==> Query.IsPlainChar(s256[i]);
    Query.IsPlainAt(s256);
    Query.UrlEncodePlain(s256);
    assert forall i :: 0 <= i < |code| ==> Query.IsPlainChar(code[i]);
    Query.IsPlainAt(code);
    Query.UrlEncodePlain(code);
  }

  /** A generated state (or verifier) is hex, so it appears in the URL as is. */
  lemma GeneratedValueUnescaped(entropy: PKCE.Bytes48)
    ensures Query.UrlEncode(PKCE.GenerateState(entropy)) == PKCE.GenerateState(entropy)
    ensures Query.UrlEncode(PKCE.GenerateCodeVerifier(entropy)) == PKCE.GenerateCodeVerifier(entropy)
  {
    Query.IsPlainAt(PKCE.GenerateState(entropy));
    Query.UrlEncodePlain(PKCE.GenerateState(entropy));
  }

  // ---------------------------------------------------------------------
  // Token endpoint

  /** A form-encoded POST. */
  datatype FormPost = FormPost(url: string, headers: seq<(string, string)>, form: seq<(string, string)>)

  /** What the transport returns: status, raw body and decoded JSON. */
  datatype HttpResponse<J> = HttpResponse(status: int, body: string, json: J) {
    /** `$response->successful()`: a 2xx status. */
    predicate Successful()
      ensures Successful() <==> status / 100 == 2
    {
      200 <= status < 300
    }
  }

  /** A JSON member read without `??`: a missing key is told apart from an
      explicit `null`. */
  datatype JsonString = Missing | JsonNull | JsonText(text: string)

  /** The fields of a decoded token response. `access_token` is read
      directly; the other three are read with `??`, under which a missing key
      and JSON `null` are both `None`. */
  datatype TokenPayload = TokenPayload(
    accessToken: JsonString, refreshToken: Option<string>, expiresIn: Option<int>, tokenType: Option<string>)

  /** The array both token calls return. */
  datatype TokenData = TokenData(
    accessToken: Option<string>, refreshToken: Option<string>, expiresIn: int, tokenType: string)

  const DefaultExpiresIn := 3600
  const DefaultTokenType := "Bearer"

  /** Shapes the decoded response (`None`: the body is not a JSON object,
      so `$data` is null). Reading `access_token` from null, or a missing
      `access_token`, is a warning that Laravel raises as `ErrorException`.
      Otherwise the tokens are copied, `expires_in` defaults to 3600 seconds
      and `token_type` to "Bearer". */
  function ShapeTokenResponse(json: Option<TokenPayload>): (r: Result<TokenData, Failure>)
    ensures r.Err? <==> json.None? || json.value.accessToken.Missing?
    ensures r.Err? ==> r.error.ErrorException?
    ensures r.Ok? ==> var p, d := json.value, r.value;
      && (p.accessToken.JsonNull? ==> d.accessToken.None?)
      && (p.accessToken.JsonText? ==> d.accessToken == Some(p.accessToken.text))
      && d.refreshToken == p.refreshToken
      && (p.expiresIn.Some? ==> d.expiresIn == p.expiresIn.value)
      && (p.expiresIn.None? ==> d.expiresIn == 3600)
      && (p.tokenType.Some? ==> d.tokenType == p.tokenType.value)
      && (p.tokenType.None? ==> d.tokenType == "Bearer")
  {
    match json
    case None => Err(ErrorException("Trying to access array offset on value of type null"))
    case Some(p) =>
      match p.accessToken
      case Missing => Err(ErrorException("Undefined array key \"access_token\""))
      case JsonNull => Ok(TokenData(None, p.refreshToken, p.expiresIn.GetOr(DefaultExpiresIn), p.tokenType.GetOr(DefaultTokenType)))
      case JsonText(t) => Ok(TokenData(Some(t), p.refreshToken, p.expiresIn.GetOr(DefaultExpiresIn), p.tokenType.GetOr(DefaultTokenType)))
  }

  /** The credentials of the HTTP Basic header: base64 of `id:secret`. */
  function BasicCredentials(cfg: Config): (c: string)
    ensures Base64.Decode(c) == Utf8Encode(cfg.clientId) + [':' as int] + Utf8Encode(cfg.clientSecret)
  {
    var bytes := Utf8Encode(cfg.clientId + ":" + cfg.clientSecret);
    Utf8EncodeAppend(cfg.clientId, ":");
    Utf8EncodeAppend(cfg.clientId + ":", cfg.clientSecret);
    Base64.DecodeEncode(bytes);
    Base64.Encode(bytes)
  }

  /** The headers every call to the provider's OAuth endpoints carries. */
  function ProviderHeaders(cfg: Config): (h: seq<(string, string)>)
    ensures |h| == 2 && h[0].0 == "Authorization" && StartsWith(h[0].1, "Basic ")
    ensures Base64.Decode(h[0].1[6..]) == Utf8Encode(cfg.clientId) + [':' as int] + Utf8Encode(cfg.clientSecret)
    ensures h[1] == ("Content-Type", "application/x-www-form-urlencoded")
  {
    [("Authorization", "Basic " + BasicCredentials(cfg)), ("Content-Type", "application/x-www-form-urlencoded")]
  }

  function Keys(pairs: seq<(string, string)>): (ks: seq<string>)
    ensures |ks| == |pairs| && forall i :: 0 <= i < |pairs| ==> ks[i] == pairs[i].0
  {
    if pairs == [] then [] else [pairs[0].0] + Keys(pairs[1..])
  }

  /** The request `exchangeCodeForToken` posts. */
  function ExchangeRequest(cfg: Config, code: string, verifier: string, redirectUri: Option<string>): (x: FormPost)
    ensures x.url == cfg.tokenUrl && x.headers == ProviderHeaders(cfg)
    ensures Keys(x.form) == ["grant_type", "code", "code_verifier", "redirect_uri"]
    ensures x.form[3].1 == redirectUri.GetOr(cfg.redirectUri)
  {
    FormPost(cfg.tokenUrl, ProviderHeaders(cfg),
      [("grant_type", "authorization_code"), ("code", code), ("code_verifier", verifier),
       ("redirect_uri", redirectUri.GetOr(cfg.redirectUri))])
  }

  /** The request `refreshAccessToken` posts. */
  function RefreshRequest(cfg: Config, refreshToken: string): (x: FormPost)
    ensures x.url == cfg.tokenUrl && x.headers == ProviderHeaders(cfg)
    ensures Keys(x.form) == ["grant_type", "refresh_token"] && x.form[1].1 == refreshToken
  {
    FormPost(cfg.tokenUrl, ProviderHeaders(cfg), [("grant_type", "refresh_token"), ("refresh_token", refreshToken)])
  }

  /** The exchange posts the authorization-code grant of RFC 6749 section
      4.1.3 (plus the verifier); the refresh posts only the two fields of
      section 6. Both go to the token URL with Basic credentials. */
  lemma TokenRequestForms(cfg: Config, code: string, verifier: string, redirectUri: Option<string>, refreshToken: string)
    ensures var x := ExchangeRequest(cfg, code, verifier, redirectUri);
      && x.url == cfg.tokenUrl
      && Keys(x.form) == ["grant_type", "code", "code_verifier", "redirect_uri"]
      && x.form[0].1 == "authorization_code" && x.form[1].1 == code && x.form[2].1 == verifier
      && (redirectUri.Some? ==> x.form[3].1 == redirectUri.value)
      && (redirectUri.None? ==> x.form[3].1 == cfg.redirectUri)
    ensures var r := RefreshRequest(cfg, refreshToken);
      && r.url == cfg.tokenUrl
      && Keys(r.form) == ["grant_type", "refresh_token"]
      && r.form[0].1 == "refresh_token" && r.form[1].1 == refreshToken
    ensures ExchangeRequest(cfg, code, verifier, redirectUri).headers == RefreshRequest(cfg, refreshToken).headers
    ensures ExchangeRequest(cfg, code, verifier, redirectUri).headers[0] == ("Authorization", "Basic " + BasicCredentials(cfg))
  {
  }

  const ExchangeFailedPrefix := "Failed to exchange authorization code for token: "
  const RefreshFailedPrefix := "Failed to refresh access token: "
  const IntrospectFailedPrefix := "Failed to introspect token: "
  const RevokeFailedPrefix := "Failed to revoke token: "

  /** `exchangeCodeForToken`: a non-2xx response raises
      `TokenExchangeException` whose message ends with the body; otherwise the
      shaped token data, or the `ErrorException` of a body without
      `access_token`. */
  function ExchangeCodeForToken(
    cfg: Config, code: string, verifier: string, redirectUri: Option<string>,
    send: FormPost -> HttpResponse<Option<TokenPayload>>): (r: Result<TokenData, Failure>)
    ensures var resp := send(ExchangeRequest(cfg, code, verifier, redirectUri));
      && (r.Ok? <==> resp.Successful() && ShapeTokenResponse(resp.json).Ok?)
      && (!resp.Successful() ==> r.Err? && r.error.TokenExchangeException? && EndsWith(r.error.message, resp.body)
                                 && r.error.message == ExchangeFailedPrefix + resp.body)
      && (resp.Successful() ==> r == ShapeTokenResponse(resp.json))
  {
    var resp := send(ExchangeRequest(cfg, code, verifier, redirectUri));
    if !resp.Successful() then
      var m := ExchangeFailedPrefix + resp.body;
      assert m[|m| - |resp.body|..] == resp.body;
      Err(TokenExchangeException(m))
    else ShapeTokenResponse(resp.json)
  }

  /** `refreshAccessToken`: as the exchange, with `TokenRefreshException`. */
  function RefreshAccessToken(
    cfg: Config, refreshToken: string, send: FormPost -> HttpResponse<Option<TokenPayload>>): (r: Result<TokenData, Failure>)
    ensures var resp := send(RefreshRequest(cfg, refreshToken));
      && (r.Ok? <==> resp.Successful() && ShapeTokenResponse(resp.json).Ok?)
      && (!resp.Successful() ==> r.Err? && r.error.TokenRefreshException? && EndsWith(r.error.message, resp.body)
                                 && r.error.message == RefreshFailedPrefix + resp.body)
      && (resp.Successful() ==> r == ShapeTokenResponse(resp.json))
  {
    var resp := send(RefreshRequest(cfg, refreshToken));
    if !resp.Successful() then
      var m := RefreshFailedPrefix + resp.body;
      assert m[|m| - |resp.body|..] == resp.body;
      Err(TokenRefreshException(m))
    else ShapeTokenResponse(resp.json)
  }

  /** A 2xx token response that is not a JSON object, or that has no
      `access_token`, makes both token calls raise `ErrorException`. */
  lemma TokenResponseWithoutAccessToken(
    cfg: Config, code: string, verifier: string, redirectUri: Option<string>, refreshToken: string,
    send: FormPost -> HttpResponse<Option<TokenPayload>>)
    requires forall x :: send(x).Successful() && (send(x).json.None? || send(x).json.value.accessToken.Missing?)
    ensures ExchangeCodeForToken(cfg, code, verifier, redirectUri, send).Err?
    ensures ExchangeCodeForToken(cfg, code, verifier, redirectUri, send).error.ErrorException?
    ensures RefreshAccessToken(cfg, refreshToken, send).Err?
    ensures RefreshAccessToken(cfg, refreshToken, send).error.ErrorException?
  {
  }

  // ---------------------------------------------------------------------
  // Introspection and revocation

  /** The introspection payload: the `active` flag and the other claims,
      passed through untouched. */
  datatype IntrospectionPayload = IntrospectionPayload(active: Option<bool>, claims: map<string, string>)

  function IntrospectUrl(cfg: Config): string { cfg.apiBaseUrl + "/rest/v1/oauth/introspect" }
  function RevokeUrl(cfg: Config): string { cfg.apiBaseUrl + "/rest/v1/oauth/revoke" }

  function IntrospectRequest(cfg: Config, token: string): (x: FormPost)
    ensures x.url == IntrospectUrl(cfg) && x.headers == ProviderHeaders(cfg) && x.form == [("token", token)]
  {
    FormPost(IntrospectUrl(cfg), ProviderHeaders(cfg), [("token", token)])
  }

  function RevokeRequest(cfg: Config, token: string): (x: FormPost)
    ensures x.url == RevokeUrl(cfg) && x.headers == ProviderHeaders(cfg) && x.form == [("token", token)]
  {
    FormPost(RevokeUrl(cfg), ProviderHeaders(cfg), [("token", token)])
  }

  /** `introspectToken`. The decoded JSON is `None` when the body is not a
      JSON object or array; the method is declared to return an array, so a
      2xx response with such a body raises a `TypeError`. */
  function IntrospectToken(
    cfg: Config, token: string, send: FormPost -> HttpResponse<Option<IntrospectionPayload>>)
    : (r: Result<IntrospectionPayload, Failure>)
    ensures var resp := send(IntrospectRequest(cfg, token));
      && (!resp.Successful() ==> r == Err(ProviderException(IntrospectFailedPrefix + resp.body)))
      && (resp.Successful() && resp.json.None? ==> r.Err? && r.error.TypeError?)
      && (resp.Successful() && resp.json.Some? ==> r == Ok(resp.json.value))
  {
    var resp := send(IntrospectRequest(cfg, token));
    if !resp.Successful() then Err(ProviderException(IntrospectFailedPrefix + resp.body))
    else if resp.json.None? then Err(TypeError("Return value must be of type array, null returned"))
    else Ok(resp.json.value)
  }

  /** `revokeToken`: `true` on a 2xx response, an exception otherwise. */
  function RevokeToken(cfg: Config, token: string, send: FormPost -> HttpResponse<()>): (r: Result<bool, Failure>)
    ensures var resp := send(RevokeRequest(cfg, token));
      && (r == Ok(true) <==> resp.Successful())
      && (r.Err? <==> !resp.Successful())
      && (r.Err? ==> r.error == ProviderException(RevokeFailedPrefix + resp.body))
  {
    var resp := send(RevokeRequest(cfg, token));
    if resp.Successful() then Ok(true) else Err(ProviderException(RevokeFailedPrefix + resp.body))
  }

  /** Introspection and revocation post the token alone to their endpoint
      under the API base URL. */
  lemma ProviderRequestForms(cfg: Config, token: string)
    ensures IntrospectRequest(cfg, token).url == cfg.apiBaseUrl + "/rest/v1/oauth/introspect"
    ensures RevokeRequest(cfg, token).url == cfg.apiBaseUrl + "/rest/v1/oauth/revoke"
    ensures IntrospectRequest(cfg, token).form == RevokeRequest(cfg, token).form == [("token", token)]
  {
  }

  // ---------------------------------------------------------------------
  // API requests

  /** The methods `makeApiRequest` dispatches on. */
  datatype HttpMethod = Get | Post | Put | Patch | Delete

  function MethodName(m: HttpMethod): string {
    match m
    case Get => "GET"
    case Post => "POST"
    case Put => "PUT"
    case Patch => "PATCH"
    case Delete => "DELETE"
  }

  /** The `match (strtoupper($method))`: any other name raises
      `InvalidArgumentException` carrying the name as given. */
  function ParseMethod(name: string): (r: Result<HttpMethod, Failure>)
    ensures r.Ok? ==> MethodName(r.value) == ToUpper(name)
    ensures r.Err? ==> r.error == InvalidArgumentException("Unsupported HTTP method: " + name)
    ensures r.Err? ==> forall m: HttpMethod :: MethodName(m) != ToUpper(name)
  {
    var u := ToUpper(name);
    if u == "GET" then Ok(Get)
    else if u == "POST" then Ok(Post)
    else if u == "PUT" then Ok(Put)
    else if u == "PATCH" then Ok(Patch)
    else if u == "DELETE" then Ok(Delete)
    else Err(InvalidArgumentException("Unsupported HTTP method: " + name))
  }

  /** Every method name is accepted, and in any letter case. */
  lemma ParseMethodCaseInsensitive(name: string, m: HttpMethod)
    requires ToUpper(name) == MethodName(m)
    ensures ParseMethod(name) == Ok(m)
  {
  }

  /** `Str::startsWith($endpoint, 'http') ? $endpoint : "{$apiBaseUrl}/{$endpoint}"`. */
  function ResolveUrl(cfg: Config, endpoint: string): (url: string)
    ensures StartsWith(endpoint, "http") ==> url == endpoint
    ensures !StartsWith(endpoint, "http") ==> url == cfg.apiBaseUrl + "/" + endpoint
  {
    if StartsWith(endpoint, "http") then endpoint else cfg.apiBaseUrl + "/" + endpoint
  }

  /** The request `makeApiRequest` dispatches: method, URL, bearer token and data. */
  datatype ApiCall<D> = ApiCall(verb: HttpMethod, url: string, bearerToken: string, data: D)

  /** `makeApiRequest`: an unsupported method fails before any request is
      made; otherwise one request, with the resolved URL and the bearer token. */
  function MakeApiRequest<D, R>(
    cfg: Config, verb: string, endpoint: string, accessToken: string, data: D, send: ApiCall<D> -> R)
    : (r: Result<R, Failure>)
    ensures r.Err? <==> ParseMethod(verb).Err?
    ensures r.Err? ==> r.error.InvalidArgumentException?
    ensures r.Ok? ==> exists m :: MethodName(m) == ToUpper(verb)
                        && r.value == send(ApiCall(m, ResolveUrl(cfg, endpoint), accessToken, data))
  {
    match ParseMethod(verb)
    case Err(e) => Err(e)
    case Ok(m) => Ok(send(ApiCall(m, ResolveUrl(cfg, endpoint), accessToken, data)))
  }
}
