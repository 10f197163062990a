/** The stored token record of one user: its validity predicates, the
    refresh/revoke lifecycle and introspection.

    The clock is the integer `now` (seconds), passed to every member that
    reads it. The OAuth client is the `OAuth2Canva` model, reached through
    its `send` transport; persistence (`save`, `delete`) is a success flag.
    Each lifecycle method also returns the trace of outside calls it made, in
    order, so that "not called" and "called before" can be stated. */
module CanvaTokenModel {
  import opened Wrappers
  import opened OAuth2Canva

  /** PHP truthiness of a nullable string: null, "" and "0" are falsy. */
  predicate Truthy(s: Option<string>)
    ensures Truthy(s) ==> s.Some? && |s.value| >= 1
    ensures s.None? || s == Some("") || s == Some("0") ==> !Truthy(s)
    ensures s.Some? && |s.value| >= 2 ==> Truthy(s)
  {
    s.Some? && s.value != "" && s.value != "0"
  }

  /** The refresh lookahead: five minutes. */
  const RefreshWindow := 300

  const SaveFailedMessage := "Failed to save refreshed token to database"

  /** An outside call a lifecycle method makes. */
  datatype Call =
    | RefreshCall(token: string)   // refreshAccessToken
    | SaveCall                     // $this->save()
    | RevokeCall(token: string)    // revokeToken
    | DeleteCall                   // $this->delete()

  class CanvaToken {
    var userId: Option<string>
    var accessToken: Option<string>
    var refreshToken: Option<string>
    /** `expires_at` as seconds; `None` is a token without expiry. */
    var expiresAt: Option<int>
    var scopes: Option<string>
    var state: Option<string>
    var codeVerifier: Option<string>
    /** Eloquent's `exists`: the record is stored. */
    var stored: bool

    /** A new, unsaved record filled from the fillable attributes. */
    constructor(
      userId: Option<string>, accessToken: Option<string>, refreshToken: Option<string>,
      expiresAt: Option<int>, scopes: Option<string>, state: Option<string>, codeVerifier: Option<string>)
      ensures this.userId == userId && this.accessToken == accessToken && this.refreshToken == refreshToken
      ensures this.expiresAt == expiresAt && this.scopes == scopes && this.state == state
      ensures this.codeVerifier == codeVerifier && !this.stored
    {
      this.userId := userId;
      this.accessToken := accessToken;
      this.refreshToken := refreshToken;
      this.expiresAt := expiresAt;
      this.scopes := scopes;
      this.state := state;
      this.codeVerifier := codeVerifier;
      this.stored := false;
    }

    /** `isValid`: a truthy access token that has not expired; an expiry
        equal to `now` is not yet past. */
    predicate IsValid(now: int)
      reads this
      ensures IsValid(now) ==> Truthy(accessToken)
      ensures IsValid(now) && expiresAt.Some? ==> now <= expiresAt.value
      ensures expiresAt.None? ==> (IsValid(now) <==> Truthy(accessToken))
    {
      Truthy(accessToken) && !(expiresAt.Some? && expiresAt.value < now)
    }

    /** `needsRefresh`: the expiry, moved five minutes earlier, is past.
        Computed on a copy: reading it changes nothing. */
    predicate NeedsRefresh(now: int)
      reads this
      ensures NeedsRefresh(now) ==> expiresAt.Some?
      ensures expiresAt.Some? && expiresAt.value < now ==> NeedsRefresh(now)
      ensures expiresAt.Some? && expiresAt.value >= now + RefreshWindow ==> !NeedsRefresh(now)
    {
      expiresAt.Some? && expiresAt.value - RefreshWindow < now
    }

    /** The condition `scopeValid` filters on: an access token that is not
        NULL, and no expiry or one strictly after `now`. */
    predicate InScopeValid(now: int)
      reads this
      ensures InScopeValid(now) ==> accessToken.Some?
      ensures InScopeValid(now) && Truthy(accessToken) ==> IsValid(now)
    {
      accessToken.Some? && (expiresAt.None? || expiresAt.value > now)
    }

    /** `refreshIfNeeded`. Without the need or without a refresh token it
        returns `false` and calls nothing. Otherwise it calls the refresh; a
        failure propagates before any field changes. On success it assigns
        the three token fields and saves; a failed save raises
        `TokenRefreshException` with the fields already assigned. */
    method RefreshIfNeeded(now: int, cfg: Config, send: FormPost -> HttpResponse<Option<TokenPayload>>, saveOk: bool)
      returns (r: Result<bool, Failure>, calls: seq<Call>)
      modifies this
      ensures userId == old(userId) && scopes == old(scopes) && state == old(state)
      ensures codeVerifier == old(codeVerifier)
      ensures !(old(NeedsRefresh(now)) && Truthy(old(refreshToken))) ==>
                r == Ok(false) && calls == [] && unchanged(this)
      ensures old(NeedsRefresh(now)) && Truthy(old(refreshToken)) ==>
                var resp := RefreshAccessToken(cfg, old(refreshToken).value, send);
                && |calls| >= 1 && calls[0] == RefreshCall(old(refreshToken).value)
                && (resp.Err? ==> r == Err(resp.error) && calls == [calls[0]] && unchanged(this))
                && (resp.Ok? ==>
                      && accessToken == resp.value.accessToken
                      && refreshToken == (if resp.value.refreshToken.Some? then resp.value.refreshToken
                                          else old(refreshToken))
                      && expiresAt == Some(now + resp.value.expiresIn)
                      && calls == [calls[0], SaveCall]
                      && (saveOk ==> r == Ok(true) && stored)
                      && (!saveOk ==> r == Err(TokenRefreshException(SaveFailedMessage)) && stored == old(stored)))
    {
      if !NeedsRefresh(now) || !Truthy(refreshToken) {
        return Ok(false), [];
      }
      var token := refreshToken.value;
      calls := [RefreshCall(token)];
      var data := RefreshAccessToken(cfg, token, send);
      if data.Err? {
        return Err(data.error), calls;
      }
      accessToken := data.value.accessToken;
      refreshToken := if data.value.refreshToken.Some? then data.value.refreshToken else refreshToken;
      expiresAt := Some(now + data.value.expiresIn);
      calls := calls + [SaveCall];
      if !saveOk {
        return Err(TokenRefreshException(SaveFailedMessage)), calls;
      }
      stored := true;
      r := Ok(true);
    }

    /** `getValidAccessToken`: the current token while it is valid, without
        refreshing; otherwise the token a refresh produced; otherwise null,
        never the stale token. Refresh failures propagate. */
    method GetValidAccessToken(now: int, cfg: Config, send: FormPost -> HttpResponse<Option<TokenPayload>>, saveOk: bool)
      returns (r: Result<Option<string>, Failure>, calls: seq<Call>)
      modifies this
      ensures userId == old(userId) && scopes == old(scopes) && state == old(state)
      ensures codeVerifier == old(codeVerifier)
      ensures old(IsValid(now)) ==> r == Ok(old(accessToken)) && calls == [] && unchanged(this)
      ensures !old(IsValid(now)) && !(old(NeedsRefresh(now)) && Truthy(old(refreshToken))) ==>
                r == Ok(None) && calls == [] && unchanged(this)
      ensures !old(IsValid(now)) && old(NeedsRefresh(now)) && Truthy(old(refreshToken)) ==>
                var resp := RefreshAccessToken(cfg, old(refreshToken).value, send);
                && |calls| >= 1 && calls[0] == RefreshCall(old(refreshToken).value)
                && (resp.Err? ==> r == Err(resp.error) && calls == [calls[0]] && unchanged(this))
                && (resp.Ok? ==>
                      && accessToken == resp.value.accessToken
                      && refreshToken == (if resp.value.refreshToken.Some? then resp.value.refreshToken
                                          else old(refreshToken))
                      && expiresAt == Some(now + resp.value.expiresIn)
                      && calls == [calls[0], SaveCall]
                      && stored == (saveOk || old(stored))
                      && (saveOk ==> r == Ok(resp.value.accessToken))
                      && (!saveOk ==> r == Err(TokenRefreshException(SaveFailedMessage))))
      ensures r.Ok? && r.value.Some? ==> r.value == accessToken && (old(IsValid(now)) || (SaveCall in calls && saveOk))
    {
      if !IsValid(now) {
        var refreshed;
        refreshed, calls := RefreshIfNeeded(now, cfg, send, saveOk);
        if refreshed.Err? {
          return Err(refreshed.error), calls;
        }
        if !refreshed.value {
          return Ok(None), calls;
        }
      } else {
        calls := [];
      }
      r := Ok(accessToken);
    }

    /** `revoke`: revokes the access token, then the refresh token (each only
        when truthy), then deletes. The first failed revocation propagates:
        nothing after it is called. The result is that of `delete`. */
    method Revoke(cfg: Config, send: FormPost -> HttpResponse<()>, deleteOk: bool)
      returns (r: Result<bool, Failure>, calls: seq<Call>)
      modifies this
      ensures userId == old(userId) && accessToken == old(accessToken) && refreshToken == old(refreshToken)
      ensures expiresAt == old(expiresAt) && scopes == old(scopes) && state == old(state)
      ensures codeVerifier == old(codeVerifier)
      ensures var first := if Truthy(accessToken) then [RevokeCall(accessToken.value)] else [];
              var second := if Truthy(refreshToken) then [RevokeCall(refreshToken.value)] else [];
              var e1 := Truthy(accessToken) && RevokeToken(cfg, accessToken.value, send).Err?;
              var e2 := Truthy(refreshToken) && RevokeToken(cfg, refreshToken.value, send).Err?;
              && (e1 ==> r == RevokeToken(cfg, accessToken.value, send) && calls == first && stored == old(stored))
              && (!e1 && e2 ==> r == RevokeToken(cfg, refreshToken.value, send) && calls == first + second
                                && stored == old(stored))
              && (!e1 && !e2 ==> r == Ok(deleteOk) && calls == first + second + [DeleteCall]
                                 && stored == (old(stored) && !deleteOk))
    {
      calls := [];
      if Truthy(accessToken) {
        calls := calls + [RevokeCall(accessToken.value)];
        var revoked := RevokeToken(cfg, accessToken.value, send);
        if revoked.Err? {
          return revoked, calls;
        }
      }
      if Truthy(refreshToken) {
        calls := calls + [RevokeCall(refreshToken.value)];
        var revoked := RevokeToken(cfg, refreshToken.value, send);
        if revoked.Err? {
          return revoked, calls;
        }
      }
      calls := calls + [DeleteCall];
      if deleteOk {
        stored := false;
      }
      r := Ok(deleteOk);
    }

    /** `isActive` as written: `introspectToken` is declared to return an
        array, so a 2xx body that is not JSON raises a `TypeError`, which is
        not an `\Exception` and escapes the `catch`. */
    function IsActiveAsWritten(cfg: Config, send: FormPost -> HttpResponse<Option<IntrospectionPayload>>)
      : (r: Result<bool, Failure>)
      reads this
      ensures !Truthy(accessToken) ==> r == Ok(false)
      ensures r.Err? ==> r.error.TypeError?
      ensures r.Err? <==> Truthy(accessToken) && send(IntrospectRequest(cfg, accessToken.value)).Successful()
                          && send(IntrospectRequest(cfg, accessToken.value)).json.None?
      ensures Truthy(accessToken) && !send(IntrospectRequest(cfg, accessToken.value)).Successful() ==> r == Ok(false)
      ensures Truthy(accessToken) && send(IntrospectRequest(cfg, accessToken.value)).Successful()
              && send(IntrospectRequest(cfg, accessToken.value)).json.Some?
              ==> r == Ok(send(IntrospectRequest(cfg, accessToken.value)).json.value.active == Some(true))
      ensures r == Ok(true) <==>
                Truthy(accessToken) && IntrospectToken(cfg, accessToken.value, send).Ok?
                && IntrospectToken(cfg, accessToken.value, send).value.active == Some(true)
    {
      if !Truthy(accessToken) then Ok(false)
      else
        match IntrospectToken(cfg, accessToken.value, send)
        case Err(e) => if e.IsException() then Ok(false) else Err(e)
        case Ok(p) =>
          assert p.active.GetOr(false) == (p.active == Some(true));
          Ok(p.active.GetOr(false))
    }

    /** `isActive` as intended: every failure of the introspection degrades
        to `false`; a missing `active` flag is `false`. It never raises. */
    function IsActive(cfg: Config, send: FormPost -> HttpResponse<Option<IntrospectionPayload>>): (r: bool)
      reads this
      ensures !Truthy(accessToken) ==> !r
      ensures r <==> Truthy(accessToken) && IntrospectToken(cfg, accessToken.value, send).Ok?
                     && IntrospectToken(cfg, accessToken.value, send).value.active == Some(true)
    {
      if !Truthy(accessToken) then false
      else
        match IntrospectToken(cfg, accessToken.value, send)
        case Err(_) => false
        case Ok(p) => p.active.GetOr(false)
    }
  }

  // ---------------------------------------------------------------------
  // Properties of the validity predicates

  /** `needsRefresh` holds exactly inside the five-minute lookahead. */
  lemma NeedsRefreshWindow(t: CanvaToken, now: int)
    ensures t.NeedsRefresh(now) <==> t.expiresAt.Some? && t.expiresAt.value < now + RefreshWindow
    ensures t.expiresAt.None? ==> !t.NeedsRefresh(now)
  {
  }

  /** An expired token always needs refresh. */
  lemma ExpiredNeedsRefresh(t: CanvaToken, now: int)
    requires t.expiresAt.Some? && t.expiresAt.value < now
    ensures t.NeedsRefresh(now)
  {
  }

  /** A truthy token that is no longer valid has expired, so it needs
      refresh: with a refresh token, `getValidAccessToken` always tries. */
  lemma InvalidTokenNeedsRefresh(t: CanvaToken, now: int)
    requires Truthy(t.accessToken) && !t.IsValid(now)
    ensures t.NeedsRefresh(now)
  {
  }

  /** The window's edges: an expiry exactly five minutes ahead does not need
      refresh yet, one second later it does; four minutes ahead the token is
      both valid and due; ten minutes ahead it is not due. */
  lemma RefreshWindowEdges(t: CanvaToken, now: int)
    ensures t.expiresAt == Some(now + 300) ==> !t.NeedsRefresh(now) && t.NeedsRefresh(now + 1)
    ensures t.expiresAt == Some(now + 240) ==> t.NeedsRefresh(now)
    ensures t.expiresAt == Some(now + 240) && Truthy(t.accessToken) ==> t.IsValid(now)
    ensures t.expiresAt == Some(now + 600) ==> !t.NeedsRefresh(now)
    ensures t.expiresAt == Some(now) && Truthy(t.accessToken) ==> t.IsValid(now) && !t.IsValid(now + 1)
  {
  }

  /** Time only makes things worse: validity is lost and never regained,
      the need to refresh arises and never goes away. */
  lemma ValidityMonotone(t: CanvaToken, earlier: int, later: int)
    requires earlier <= later
    ensures t.IsValid(later) ==> t.IsValid(earlier)
    ensures t.NeedsRefresh(earlier) ==> t.NeedsRefresh(later)
    ensures t.InScopeValid(later) ==> t.InScopeValid(earlier)
  {
  }

  /** `isValid` and the `scopeValid` filter agree except at the instant of
      expiry (the filter already drops it) and on the tokens "" and "0"
      (which the filter keeps). */
  lemma ScopeValidAgrees(t: CanvaToken, now: int)
    ensures t.InScopeValid(now) && Truthy(t.accessToken) ==> t.IsValid(now)
    ensures t.IsValid(now) && t.expiresAt != Some(now) ==> t.InScopeValid(now)
    ensures t.expiresAt == Some(now) && Truthy(t.accessToken) ==> t.IsValid(now) && !t.InScopeValid(now)
    ensures t.accessToken == Some("") ==> !t.IsValid(now) && (t.InScopeValid(now) <==> t.expiresAt.None? || t.expiresAt.value > now)
  {
  }

  /** After a refresh stored `now + expiresIn`, the record is valid exactly
      when the new access token is truthy and `expiresIn` is not negative. */
  lemma ValidAfterRefresh(t: CanvaToken, now: int, expiresIn: int)
    requires t.expiresAt == Some(now + expiresIn)
    ensures t.IsValid(now) <==> Truthy(t.accessToken) && expiresIn >= 0
    ensures t.NeedsRefresh(now) <==> expiresIn < RefreshWindow
  {
  }

  // ---------------------------------------------------------------------
  // Introspection

  /** The intended `isActive` agrees with the code as written whenever the
      latter returns. */
  lemma IsActiveAgrees(t: CanvaToken, cfg: Config, send: FormPost -> HttpResponse<Option<IntrospectionPayload>>)
    ensures t.IsActiveAsWritten(cfg, send).Ok? ==> t.IsActiveAsWritten(cfg, send).value == t.IsActive(cfg, send)
  {
  }

  /** The finding: a 2xx introspection response whose body is not JSON
      makes `isActive` as written raise a `TypeError`, where `false` is
      intended. */
  lemma IsActiveRaisesOnNonJson(t: CanvaToken, cfg: Config, send: FormPost -> HttpResponse<Option<IntrospectionPayload>>)
    requires Truthy(t.accessToken)
    requires send(IntrospectRequest(cfg, t.accessToken.value)).Successful()
    requires send(IntrospectRequest(cfg, t.accessToken.value)).json.None?
    ensures t.IsActiveAsWritten(cfg, send).Err? && t.IsActiveAsWritten(cfg, send).error.TypeError?
    ensures !t.IsActive(cfg, send)
  {
  }
}
