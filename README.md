# OAuth2Canva in Dafny

A model of the core of the Laravel package OAuth2Canva, with proofs about it.
The package is an OAuth 2.0 client for Canva: the authorization-code grant with PKCE (RFC 7636), plus token refresh, introspection and revocation. It also keeps an Eloquent record of each user's tokens.

The model has three parts:

- **PKCE** (`pkce.dfy` on top of `hex.dfy`, `base64.dfy` and `text.dfy`).
  - The code verifier and the state are `bin2hex` of 48 entropy bytes, which are passed in.
  - The S256 challenge is the unpadded base64url of a SHA-256 digest. The digest is a function parameter returning 32 bytes.
  - PHP's `bin2hex` and `base64_encode` are modelled with their inverses, so the round trips can be proved.
- **The OAuth client** (`oauth_client.dfy` on top of `query.dfy`).
  - The configuration is a read-only record built by the constructor.
  - The authorization URL uses `http_build_query` in RFC 1738 style. The query splitter proves that the seven parameters come back in order.
  - Token-response shaping applies the defaults 3600 and "Bearer".
  - Basic credentials and the two grant form bodies are modelled.
  - A non-2xx status maps to a typed error.
  - API URL resolution and the closed set of HTTP methods are modelled.
  - Each network call is a function of an abstract `send` transport returning `(status, body, json)`.
- **The token record** (`canva_token.dfy`). It is a class with the record's fields.
  - The clock is an integer `now` in seconds.
  - `isValid`, `needsRefresh` and the `scopeValid` filter are predicates.
  - `refreshIfNeeded`, `getValidAccessToken` and `revoke` are methods that change the fields. Each returns the trace of outside calls it made.
  - `save` and `delete` are success flags.
  - `isActive` is modelled twice: once as written and once as intended (see Findings).

In these places the model follows the code, where a reader might expect otherwise:

- `exchangeCodeForToken` and `refreshAccessToken` read `access_token` without `??`, so a 2xx body without it raises `ErrorException` (Laravel turns the PHP warning into an exception); `refreshIfNeeded` then changes nothing.
- `needsRefresh` is a strict `expires_at - 300 < now`, because Carbon's `isPast` is a strict `<`, not `<=`.
- `revoke` stops at the first failed revocation, because nothing catches the exception `revokeToken` throws; it is not best-effort.
- `getValidAccessToken` propagates a `TokenRefreshException` from a refresh, because it does not catch it; it does not turn it into `null`.
- A failed exchange's message carries the response body only, not the status.

## Model

| member | source | states |
|---|---|---|
| Wrappers.Option.GetOr | src/OAuth2Canva.php:80-84 | `x ?? d`: the value when present, the default when null |
| Text.ToUpper | src/OAuth2Canva.php:273 | `strtoupper` keeps the length and upper-cases exactly the ASCII lower-case letters |
| Text.ToUpperIdempotent | src/OAuth2Canva.php:273 | upper-casing twice is upper-casing once |
| Text.Utf8Encode | src/PKCE.php:23 | the UTF-8 bytes of a text string, between one and four bytes per character |
| Text.Utf8EncodeAppend | src/OAuth2Canva.php:122 | the byte encoding of a concatenation is the concatenation of the encodings |
| Text.Utf8EncodeAscii | src/OAuth2Canva.php:122 | an ASCII string is one byte per character, equal to its code |
| Hex.DigitValueInverse | src/PKCE.php:13 | reading a lower-case hex digit back gives the nibble it encodes |
| Hex.Bin2Hex | src/PKCE.php:13 | `bin2hex` doubles the length and yields only `[0-9a-f]` |
| Hex.Bin2HexAt | src/PKCE.php:13 | byte k becomes characters 2k and 2k+1, high nibble first |
| Hex.Hex2BinBin2Hex | src/PKCE.php:13 | decoding the hex gives back the bytes |
| Hex.Bin2HexInjective | src/PKCE.php:13 | distinct byte strings give distinct hex strings |
| Base64.IndexChar | src/PKCE.php:40 | the RFC 4648 section 4 alphabet is read back to the value it encodes |
| Base64.Encode | src/PKCE.php:40 | `base64_encode` output has length 4 * ceil(n / 3) |
| Base64.DecodeEncode | src/PKCE.php:40 | decoding `base64_encode` gives back the bytes |
| Base64.EncodeShape | src/PKCE.php:40 | `=` fills exactly the last (3 - n mod 3) mod 3 positions, and alphabet characters come before them |
| Base64.EncodeInjective | src/PKCE.php:40 | distinct byte strings give distinct encodings |
| PKCE.GenerateCodeVerifier | src/PKCE.php:10-14 | 48 bytes give 96 lower-case hex characters, which are unreserved and within RFC 7636's 43..128 |
| PKCE.GenerateCodeVerifierInjective | src/PKCE.php:10-14 | distinct entropy gives distinct verifiers |
| PKCE.GenerateState | src/PKCE.php:30-33 | the same encoding of its own entropy: 96 unreserved hex characters |
| PKCE.TrimRight | src/PKCE.php:40 | `rtrim(s, c)` keeps a prefix and removes exactly the trailing run of `c` |
| PKCE.ToUrlAlphabet | src/PKCE.php:40 | `strtr(s, '+/', '-_')` changes only `+` and `/`, position by position |
| PKCE.Base64UrlEncode | src/PKCE.php:38-41 | a prefix of the standard encoding with `+/` translated to `-_`, never ending in `=` |
| PKCE.Base64UrlShape | src/PKCE.php:38-41 | the length is the standard length minus the padding; character i is standard character i with `+`→`-` and `/`→`_`; no `+`, `/` or `=` |
| PKCE.FromBase64UrlEncode | src/PKCE.php:38-41 | mapping back the alphabet and re-padding restores the standard encoding, so nothing is lost |
| PKCE.Base64UrlEncodeInjective | src/PKCE.php:38-41 | distinct inputs give distinct base64url strings |
| PKCE.GenerateCodeChallenge | src/PKCE.php:19-25 | a 32-byte digest gives exactly 43 base64url characters |
| PKCE.SameChallengeIffSameDigest | src/PKCE.php:19-25 | two verifiers share a challenge exactly when their digests are equal: the challenge is a function of the verifier only |
| Query.EncodeBytes | src/OAuth2Canva.php:96 | the urlencoded bytes use only letters, digits and `-_.+%` |
| Query.UrlEncode | src/OAuth2Canva.php:96 | an encoded value never contains `&` or `=` |
| Query.EncodeBytesAppend | src/OAuth2Canva.php:96 | encoding distributes over concatenation of bytes |
| Query.UrlEncodeAppend | src/OAuth2Canva.php:96 | encoding distributes over concatenation of strings |
| Query.UrlEncodePlain | src/OAuth2Canva.php:96 | letters, digits and `-_.` pass through unchanged |
| Query.DecodeEncodeBytes | src/OAuth2Canva.php:96 | percent-decoding the encoding gives back the bytes |
| Query.UrlDecodeEncode | src/OAuth2Canva.php:96 | percent-decoding `urlencode(s)` gives the UTF-8 bytes of s |
| Query.BuildQuery | src/OAuth2Canva.php:96 | the query is empty exactly when there are no pairs, and starts with the first `key=value` field |
| Query.SplitField | src/OAuth2Canva.php:96 | a field splits exactly when it contains `=`, into a key without `=` and the rest, which rebuild the field |
| Query.SplitOneField | src/OAuth2Canva.php:96 | one `key=value` field splits back into the key and the encoded value |
| Query.SplitBuildQuery | src/OAuth2Canva.php:96 | splitting `http_build_query` at `&` and `=` succeeds and gives every pair in order, with its value encoded |
| Query.SplitFieldsJoin | src/OAuth2Canva.php:96 | a non-empty query that splits has at least one field, and joining its fields again gives the query back |
| Query.SplitQueryJoin | src/OAuth2Canva.php:96 | joining the fields of any query that splits gives that query back |
| Query.SplitQueryInjective | src/OAuth2Canva.php:96 | two queries that split into the same fields are the same query |
| Query.BuildQueryJoin | src/OAuth2Canva.php:96 | `http_build_query` equals the `&`-join of the `key=encoded value` pairs |
| Query.StrictSplit | src/OAuth2Canva.php:96 | a trailing `&` and a field without `=` are rejected, while `a=b` and `k=` split into one field each |
| Query.EscapedCharacters | src/OAuth2Canva.php:96 | `:` is `%3A`, `/` is `%2F`, space is `+` |
| Query.RedirectUriExample | src/OAuth2Canva.php:93-96 | the redirect URI `https://app/cb` appears as `https%3A%2F%2Fapp%2Fcb` |
| OAuth2Canva.NewClient | src/OAuth2Canva.php:29-38 | fails with a TypeError exactly when client id, secret or redirect URI is unset; the other four settings default to "", the API base, the authorize URL and the token URL |
| OAuth2Canva.AuthorizationParams | src/OAuth2Canva.php:86-94 | the seven keys in source order, carrying the challenge, scopes, client id, state and redirect URI |
| OAuth2Canva.GetAuthorizationUrl | src/OAuth2Canva.php:74-103 | a supplied verifier and state are returned unchanged, missing ones are generated from the entropy; the URL starts with the authorization URL and `?` |
| OAuth2Canva.AuthorizationUrlFields | src/OAuth2Canva.php:80-96 | the query holds, in order, `code_challenge` (the challenge of the returned verifier), `code_challenge_method=S256`, `scope` (given or configured), `response_type=code`, `client_id`, `state` (the returned one) and `redirect_uri` (given or configured) |
| OAuth2Canva.EncodedAuthorizationParams | src/OAuth2Canva.php:86-94 | the base64url challenge and the fixed values appear unescaped; the others appear urlencoded |
| OAuth2Canva.GeneratedValueUnescaped | src/OAuth2Canva.php:80-82 | a generated verifier or state needs no escaping in the URL |
| OAuth2Canva.Failure.IsException | src/Models/CanvaToken.php:135 | `catch (\Exception)` catches every failure the client raises except a `TypeError` |
| OAuth2Canva.ShapeTokenResponse | src/OAuth2Canva.php:143-150 | fails with `ErrorException` exactly when the body is not a JSON object or has no `access_token` key; otherwise the access token is copied (null when JSON null), the refresh token is copied (null when absent), `expires_in` defaults to 3600 and `token_type` to "Bearer" |
| OAuth2Canva.BasicCredentials | src/OAuth2Canva.php:122 | the credentials are base64 decodable to the bytes of `clientId:clientSecret` |
| OAuth2Canva.HttpResponse.Successful | src/OAuth2Canva.php:134 | `successful()` holds exactly for a 2xx status |
| OAuth2Canva.ProviderHeaders | src/OAuth2Canva.php:124-127 | two headers: `Authorization: Basic` with credentials decoding to `clientId:clientSecret`, and the form content type |
| OAuth2Canva.ExchangeRequest | src/OAuth2Canva.php:124-132 | posts to the token URL with the provider headers the four authorization-code fields, `redirect_uri` given or configured |
| OAuth2Canva.RefreshRequest | src/OAuth2Canva.php:165-171 | posts to the token URL with the provider headers only `grant_type` and `refresh_token` |
| OAuth2Canva.TokenRequestForms | src/OAuth2Canva.php:120-132 | the exchange posts `grant_type=authorization_code`, `code`, `code_verifier`, the given or configured `redirect_uri`; the refresh posts `grant_type=refresh_token` and `refresh_token` only; both go to the token URL with the same Basic header |
| OAuth2Canva.ExchangeCodeForToken | src/OAuth2Canva.php:115-151 | succeeds exactly on a 2xx whose body shapes; a 2xx gives the shaped response or its `ErrorException`; a non-2xx gives `TokenExchangeException` whose message is the fixed prefix followed by, and ending with, the body |
| OAuth2Canva.RefreshAccessToken | src/OAuth2Canva.php:161-190 | succeeds exactly on a 2xx whose body shapes; a 2xx gives the shaped response or its `ErrorException`; a non-2xx gives `TokenRefreshException` whose message is the fixed prefix followed by, and ending with, the body |
| OAuth2Canva.TokenResponseWithoutAccessToken | src/OAuth2Canva.php:143-146 | a 2xx token response that is not a JSON object or lacks `access_token` makes both the exchange and the refresh raise `ErrorException` |
| OAuth2Canva.IntrospectToken | src/OAuth2Canva.php:200-221 | a non-2xx raises an exception carrying the body; a 2xx non-JSON body raises a TypeError; otherwise the decoded payload |
| OAuth2Canva.IntrospectRequest | src/OAuth2Canva.php:204-209 | posts only the token to the introspection URL with the provider headers |
| OAuth2Canva.RevokeRequest | src/OAuth2Canva.php:235-240 | posts only the token to the revocation URL with the provider headers |
| OAuth2Canva.RevokeToken | src/OAuth2Canva.php:231-252 | true exactly on a 2xx; otherwise an exception carrying the body |
| OAuth2Canva.ProviderRequestForms | src/OAuth2Canva.php:207-239 | introspection (lines 207-208) and revocation (lines 238-239) post only the token, to `/rest/v1/oauth/introspect` and `/rest/v1/oauth/revoke` under the API base |
| OAuth2Canva.ParseMethod | src/OAuth2Canva.php:273-280 | accepts a name whose upper-casing is GET, POST, PUT, PATCH or DELETE; any other raises `InvalidArgumentException` naming the method as given |
| OAuth2Canva.ParseMethodCaseInsensitive | src/OAuth2Canva.php:273 | every spelling of a method in any letter case is accepted as that method |
| OAuth2Canva.ResolveUrl | src/OAuth2Canva.php:269 | an endpoint starting with `http` is used as is; otherwise it is appended to the API base after `/` |
| OAuth2Canva.MakeApiRequest | src/OAuth2Canva.php:263-281 | fails exactly when the method is unsupported, and then sends nothing; otherwise sends one request with the parsed method, resolved URL, bearer token and data |
| CanvaTokenModel.Truthy | src/Models/CanvaToken.php:32 | PHP truthiness of a nullable string: null, "" and "0" are falsy, any string of two or more characters is truthy |
| CanvaTokenModel.CanvaToken.constructor | src/Models/CanvaToken.php:13-21 | a record filled from the fillable attributes, not yet stored |
| CanvaTokenModel.CanvaToken.IsValid | src/Models/CanvaToken.php:30-41 | a valid record has a truthy access token and an expiry, if any, not before `now`; without expiry it is valid exactly when the token is truthy |
| CanvaTokenModel.CanvaToken.NeedsRefresh | src/Models/CanvaToken.php:46-54 | never without an expiry; always once the expiry is past; never while the expiry is at least five minutes ahead |
| CanvaTokenModel.CanvaToken.InScopeValid | src/Models/CanvaToken.php:151-157 | the `scopeValid` condition requires a non-null access token, and with a truthy one implies `isValid` |
| CanvaTokenModel.CanvaToken.RefreshIfNeeded | src/Models/CanvaToken.php:63-81 | without need or refresh token: false, nothing called, nothing changed; a refresh failure propagates with nothing changed; on success the access token is the returned one, the refresh token is the returned one or the old one, `expires_at = now + expires_in`, then save: true, or `TokenRefreshException` when the save fails |
| CanvaTokenModel.CanvaToken.GetValidAccessToken | src/Models/CanvaToken.php:88-99 | a valid token is returned as is with no call, even inside the window; an invalid one that cannot be refreshed gives null; a failed refresh propagates with nothing changed; after a refresh the fields are those `refreshIfNeeded` assigns (refresh token kept when none is returned), whether or not the save succeeds; a token is returned only when valid or freshly refreshed and saved |
| CanvaTokenModel.CanvaToken.Revoke | src/Models/CanvaToken.php:106-119 | revokes the access token, then the refresh token (each only when truthy), then deletes; the first failed revocation propagates and nothing after it is called; returns delete's outcome |
| CanvaTokenModel.CanvaToken.IsActiveAsWritten | src/Models/CanvaToken.php:124-138 | false without an access token; false on a non-2xx introspection; on a 2xx JSON body, whether `active` is true (false when absent); given a client that was constructed, it raises, with a TypeError, exactly on a 2xx non-JSON body |
| CanvaTokenModel.CanvaToken.IsActive | src/Models/CanvaToken.php:124-138 | never raises; true exactly when a truthy access token introspects to `active: true` |
| CanvaTokenModel.NeedsRefreshWindow | src/Models/CanvaToken.php:46-54 | `needsRefresh` holds exactly when an expiry is present and less than `now + 300`; false without expiry |
| CanvaTokenModel.ExpiredNeedsRefresh | src/Models/CanvaToken.php:36-53 | an expired token always needs refresh |
| CanvaTokenModel.InvalidTokenNeedsRefresh | src/Models/CanvaToken.php:30-54 | a truthy access token that is not valid needs refresh, so with a refresh token a refresh is attempted |
| CanvaTokenModel.RefreshWindowEdges | src/Models/CanvaToken.php:36-53 | 300 s ahead: not due, due a second later; 240 s ahead: valid and due; 600 s ahead: not due; an expiry equal to `now` is still valid |
| CanvaTokenModel.ValidityMonotone | src/Models/CanvaToken.php:30-54 | as time passes, validity and the `scopeValid` condition are only lost and the need to refresh only gained |
| CanvaTokenModel.ScopeValidAgrees | src/Models/CanvaToken.php:151-157 | `scopeValid` and `isValid` agree except at the instant of expiry and for the tokens "" and "0" |
| CanvaTokenModel.ValidAfterRefresh | src/Models/CanvaToken.php:72-74 | after storing `now + expires_in`, the record is valid exactly when the new token is truthy and `expires_in >= 0`, and due again exactly when `expires_in < 300` |
| CanvaTokenModel.IsActiveAgrees | src/Models/CanvaToken.php:124-138 | whenever the code as written returns, it returns what the intended `isActive` does |
| CanvaTokenModel.IsActiveRaisesOnNonJson | src/Models/CanvaToken.php:130-137 | a 2xx non-JSON introspection makes the code as written raise a TypeError, where the intended result is false |

## Left out

- HTTP transport, timeouts and transport exceptions: each call is a function `send` from the request to an abstract `(status, body, json)` response.
- `Log::error`: logging is not modelled.
- `random_bytes(48)`: the entropy is a parameter.
- `hash('sha256', …, true)`: an uninterpreted function returning 32 bytes. So distinct verifiers are not proved to give distinct challenges, only challenges that are equal exactly when the digests are.
- The clock (`now()`, Carbon): integer seconds passed as `now`. Time zones and sub-second precision are not modelled.
- Eloquent `save` and `delete` are success flags. On a record that was never stored, Eloquent's `delete` returns null rather than a boolean; `revoke` is declared `: bool`, so it then raises a `TypeError` after the revocations. That case is not modelled.
- CanvaTokenModel.CanvaToken.Revoke: returns `Ok(deleteOk)` after the revocations; it does not raise the `TypeError` that the source's `revoke` raises when `delete` returns null on a record that was never stored.
- CanvaTokenModel.CanvaToken.RefreshIfNeeded, CanvaTokenModel.CanvaToken.GetValidAccessToken, CanvaTokenModel.CanvaToken.Revoke, CanvaTokenModel.CanvaToken.IsActiveAsWritten, CanvaTokenModel.CanvaToken.IsActive: each is given a client that was constructed successfully. In the source they fetch the client with `app(OAuth2Canva::class)`, which runs the constructor, and the constructor raises a `TypeError` when the client id, secret or redirect URI is unset (NewClient models that). Then `refreshIfNeeded` raises just after its guard; `getValidAccessToken` raises through it; `revoke` raises before any revocation and before `delete`, even on a record with no tokens; and `isActive` raises from inside its `try`, because `catch (\Exception)` does not catch a `TypeError`.
- JSON: a response is decoded into fields of the expected types, or into "not a JSON object". A field of another JSON type is not modelled. A body that decodes to a JSON scalar is treated like a non-JSON body, although on a string PHP raises an `Error` rather than a warning.
- Strings: every string is modelled as Unicode text (`seq<char>`) and turned into bytes by UTF-8 encoding. So only PHP byte strings that are valid UTF-8 are represented; for example, a caller-supplied verifier that holds the byte 0xFF cannot be expressed.
- Introspection payload: only the `active` flag is interpreted; other claims are an opaque map.
- `makeApiRequest`'s `$data` array and its response are opaque type parameters.
- Concurrency, such as two refreshes racing on one record.
- `scopeForUser` and the query builder: `scopeValid` is modelled only as the condition it filters on (`CanvaToken.InScopeValid`).
- The service provider, facade, console command and test bootstrap: framework glue. `config/oauth2canva.php` contributes only its defaults.
- Query.BuildQuery: keys are written unescaped. This matches `http_build_query` only for the fixed keys used here (letters and `_`).
- NewClient: a configuration entry that is present but explicitly null is treated like a missing one, so it takes the default.
- OAuth2Canva.ExchangeCodeForToken and OAuth2Canva.RefreshAccessToken: the message carries the body only, because the code does not put the status in it.

## Findings

| source | as written | input that shows it | evidently intended | confidence | as-written member | corrected member |
|---|---|---|---|---|---|---|
| src/Models/CanvaToken.php:130-137 with src/OAuth2Canva.php:200-221 | `introspectToken` is declared `: array` and returns `$response->json()`; `isActive` catches only `\Exception` | with a client that was constructed, an access token whose introspection answers 2xx with a non-JSON body: `json()` is null, the return type raises a `TypeError` (an `Error`, not an `Exception`), and `isActive` raises | every failure degrades to `false` | not executed | CanvaTokenModel.CanvaToken.IsActiveAsWritten | CanvaTokenModel.CanvaToken.IsActive |
