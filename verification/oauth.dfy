/**
 * The pure parts of the CLI's OAuth client: the authorization request
 * (section 4.1.1 of RFC 6749 with the PKCE parameters of section 4.3 of
 * RFC 7636), the token-endpoint form bodies, the expiry test and the session
 * update after a refresh. Network replies are inputs.
 */
module OAuth {
  import opened Wrappers
  import opened Text
  import opened SessionSchema
  import SessionStore

  const ClientId := "picovault-cli"
  const RequestedScope := "openid profile email offline_access"
  const ChallengeMethod := "S256"
  /** Tokens expiring within this many milliseconds count as expired. */
  const ExpiryBufferMs := 5 * 60 * 1000
  /** Lifetime assumed by a refresh when the reply's `expires_in` is 0. */
  const DefaultExpiresInSeconds := 3600

  type Params = seq<(string, string)>

  /** The value a query reader finds for `key`: that of its first occurrence. */
  function Lookup(ps: Params, key: string): (r: Option<string>)
    ensures r.Some? ==> (key, r.value) in ps
    ensures r.None? ==> forall i :: 0 <= i < |ps| ==> ps[i].0 != key
  {
    if |ps| == 0 then None
    else if ps[0].0 == key then Some(ps[0].1)
    else Lookup(ps[1..], key)
  }

  function Keys(ps: Params): (r: seq<string>)
    ensures |r| == |ps| && forall i :: 0 <= i < |ps| ==> r[i] == ps[i].0
  {
    seq(|ps|, i requires 0 <= i < |ps| => ps[i].0)
  }

  /** The loopback redirect URI registered for `port`. */
  function RedirectUri(port: nat): (r: string)
    ensures StartsWith(r, "http://localhost:") && EndsWith(r, "/callback")
    ensures |r| > 26 && (forall i :: 17 <= i < |r| - 9 ==> IsDigit(r[i]))
    ensures DigitsValue(r[17..|r| - 9]) == port
    ensures |r| > 27 ==> r[17] != '0'
  {
    var r := "http://localhost:" + NatToString(port) + "/callback";
    assert r[..17] == "http://localhost:";
    assert r[|r| - 9..] == "/callback";
    assert r[17..|r| - 9] == NatToString(port);
    NatToStringValue(port);
    r
  }

  /** The parameters `buildAuthorisationUrl` puts in the query, in insertion order. */
  function AuthorisationParams(state: string, codeChallenge: string, port: nat): Params {
    [("client_id", ClientId),
     ("redirect_uri", RedirectUri(port)),
     ("response_type", "code"),
     ("scope", RequestedScope),
     ("state", state),
     ("code_challenge", codeChallenge),
     ("code_challenge_method", ChallengeMethod)]
  }

  /**
   * `URLSearchParams.toString`: `key=value` pairs joined by '&'. The
   * percent-encoding of each component is the parameter `enc`.
   */
  function QueryString(ps: Params, enc: string -> string): string {
    if |ps| == 0 then ""
    else if |ps| == 1 then enc(ps[0].0) + "=" + enc(ps[0].1)
    else enc(ps[0].0) + "=" + enc(ps[0].1) + "&" + QueryString(ps[1..], enc)
  }

  /** `buildAuthorisationUrl`: the instance's login page carrying the OAuth parameters. */
  function BuildAuthorisationUrl(instanceUrl: string, state: string, codeChallenge: string, port: nat,
                                 enc: string -> string): (r: string)
    ensures StartsWith(r, instanceUrl + "/login?")
    ensures r[|instanceUrl| + 7..] == QueryString(AuthorisationParams(state, codeChallenge, port), enc)
  {
    var prefix := instanceUrl + "/login?";
    var r := prefix + QueryString(AuthorisationParams(state, codeChallenge, port), enc);
    assert r[..|prefix|] == prefix;
    r
  }

  /** The form body of the authorization-code exchange. */
  function ExchangeParams(code: string, codeVerifier: string, port: nat): Params {
    [("grant_type", "authorization_code"),
     ("code", code),
     ("client_id", ClientId),
     ("redirect_uri", RedirectUri(port)),
     ("code_verifier", codeVerifier)]
  }

  /** The form body of the refresh request. */
  function RefreshParams(refreshToken: string): Params {
    [("grant_type", "refresh_token"),
     ("refresh_token", refreshToken),
     ("client_id", ClientId)]
  }

  /** The token endpoint's reply (`oAuthTokenResponseSchema`). */
  datatype TokenResponse = TokenResponse(
    accessToken: string,
    refreshToken: string,
    tokenType: string,
    expiresIn: int,
    scope: Option<string>)

  /** The userinfo endpoint's reply (`oAuthUserInfoSchema`). */
  datatype UserInfo = UserInfo(
    sub: string,
    email: string,
    name: string,
    picture: Option<string>,
    emailVerified: Option<bool>)

  /** A failed HTTP call as the fetch library reports it; "" stands for an absent text. */
  datatype FetchError = FetchError(message: string, statusText: string)

  function ErrorText(e: FetchError): string {
    OrElse(OrElse(e.message, e.statusText), "Unknown error")
  }

  /** `exchangeCodeForTokens` given the endpoint's reply. */
  function ExchangeCodeForTokens(reply: Result<TokenResponse, FetchError>): (r: Result<TokenResponse, string>)
    ensures reply.Success? ==> r == Success(reply.value)
    ensures reply.Failure? ==> r.Failure? && StartsWith(r.error, "Token exchange failed: ")
  {
    match reply
    case Success(t) => Success(t)
    case Failure(e) => Failure("Token exchange failed: " + ErrorText(e))
  }

  /** `getUserInfo` given the endpoint's reply. */
  function GetUserInfo(reply: Result<UserInfo, FetchError>): (r: Result<UserInfo, string>)
    ensures reply.Success? ==> r == Success(reply.value)
    ensures reply.Failure? ==> r.Failure? && StartsWith(r.error, "Failed to get user info: ")
  {
    match reply
    case Success(u) => Success(u)
    case Failure(e) => Failure("Failed to get user info: " + ErrorText(e))
  }

  /** `isTokenExpired` with the clock reading `now` in milliseconds. */
  predicate IsTokenExpired(s: SessionEntry, now: int) {
    s.oauth.expiresAt <= now + ExpiryBufferMs
  }

  /** The session after a successful refresh at time `now`. */
  function Refreshed(s: SessionEntry, t: TokenResponse, now: int): (r: SessionEntry)
    ensures r.instanceUrl == s.instanceUrl && r.user == s.user && r.createdAt == s.createdAt
    ensures r.oauth.tokenType == s.oauth.tokenType && r.oauth.scope == s.oauth.scope
    ensures r.oauth.accessToken == t.accessToken
    ensures r.oauth.refreshToken == (if t.refreshToken != "" then t.refreshToken else s.oauth.refreshToken)
    ensures t.expiresIn != 0 ==> r.oauth.expiresAt == now + t.expiresIn * 1000
    ensures t.expiresIn == 0 ==> r.oauth.expiresAt == now + DefaultExpiresInSeconds * 1000
  {
    var lifetime := if t.expiresIn != 0 then t.expiresIn else DefaultExpiresInSeconds;
    s.(oauth := s.oauth.(
      accessToken := t.accessToken,
      refreshToken := OrElse(t.refreshToken, s.oauth.refreshToken),
      expiresAt := now + lifetime * 1000))
  }

  /** What a refresh returns: the updated session and the rewritten session file. */
  datatype Refresh = Refresh(session: SessionEntry, file: SessionStore.SessionFile)

  /**
   * Why a refresh throws: the endpoint refused (with the wrapped message), or
   * `addSession` threw while storing the new tokens (its error passes through).
   */
  datatype RefreshError = RefreshRejected(message: string) | RefreshNotStored(err: SessionStore.StoreError)

  /**
   * `refreshAccessToken`: on a failed reply nothing is written; otherwise the
   * updated session is stored with `addSession` (which may itself fail).
   */
  function RefreshAccessToken(f: SessionStore.SessionFile, s: SessionEntry, reply: Result<TokenResponse, FetchError>,
                              now: int, fmt: Formats): (r: Result<Refresh, RefreshError>)
    ensures reply.Failure? ==> r.Failure? && r.error.RefreshRejected?
                               && StartsWith(r.error.message, "Token refresh failed: ")
    ensures reply.Success? ==>
      (r.Success? <==> SessionStore.AddSession(f, Refreshed(s, reply.value, now), fmt).Success?)
    ensures reply.Success? && r.Failure? ==>
      r.error == RefreshNotStored(SessionStore.AddSession(f, Refreshed(s, reply.value, now), fmt).error)
    ensures r.Success? ==> reply.Success? && r.value.session == Refreshed(s, reply.value, now)
    ensures r.Success? ==> SessionStore.GetActiveSession(r.value.file, fmt) == Success(Some(r.value.session))
    ensures r.Success? ==>
      SessionStore.Load(r.value.file, fmt) == Success(SessionStore.Upsert(SessionStore.Load(f, fmt).value, r.value.session))
  {
    match reply
    case Failure(e) => Failure(RefreshRejected("Token refresh failed: " + ErrorText(e)))
    case Success(t) =>
      var updated := Refreshed(s, t, now);
      match SessionStore.AddSession(f, updated, fmt)
      case Failure(err) => Failure(RefreshNotStored(err))
      case Success(f') =>
        SessionStore.AddSessionThenActive(f, updated, fmt);
        Success(Refresh(updated, f'))
  }

  /**
   * `ensureValidToken`: an unexpired session comes back unchanged with the
   * file untouched; an expired one is refreshed.
   */
  function EnsureValidToken(f: SessionStore.SessionFile, s: SessionEntry, reply: Result<TokenResponse, FetchError>,
                            now: int, fmt: Formats): (r: Result<Refresh, RefreshError>)
    ensures !IsTokenExpired(s, now) ==> r == Success(Refresh(s, f))
    ensures IsTokenExpired(s, now) ==> r == RefreshAccessToken(f, s, reply, now, fmt)
  {
    if IsTokenExpired(s, now) then RefreshAccessToken(f, s, reply, now, fmt) else Success(Refresh(s, f))
  }

  // ---- Properties ----

  predicate DistinctKeys(ps: Params) {
    forall i, j :: 0 <= i < j < |ps| ==> ps[i].0 != ps[j].0
  }

  /** With distinct keys, a reader finds each parameter's own value. */
  lemma {:induction false} LookupDistinct(ps: Params, i: nat)
    requires DistinctKeys(ps) && i < |ps|
    ensures Lookup(ps, ps[i].0) == Some(ps[i].1)
    decreases i
  {
    if i > 0 {
      assert ps[0].0 != ps[i].0;
      assert ps[1..][i - 1] == ps[i];
      LookupDistinct(ps[1..], i - 1);
    }
  }

  /** The authorization request carries exactly these seven parameters, in this order. */
  lemma AuthorisationParamsKeys(state: string, challenge: string, port: nat)
    ensures Keys(AuthorisationParams(state, challenge, port)) ==
      ["client_id", "redirect_uri", "response_type", "scope", "state", "code_challenge", "code_challenge_method"]
    ensures DistinctKeys(AuthorisationParams(state, challenge, port))
  {
    var ps := AuthorisationParams(state, challenge, port);
    forall i, j | 0 <= i < j < |ps| ensures ps[i].0 != ps[j].0 {
      assert |ps[i].0| != |ps[j].0| || ps[i].0[0] != ps[j].0[0] || ps[i].0[1] != ps[j].0[1];
    }
  }

  /** A reader of the query finds the fixed client, scope, response type and method, and the given state and challenge. */
  lemma AuthorisationParamsValues(state: string, challenge: string, port: nat)
    ensures var ps := AuthorisationParams(state, challenge, port);
      && Lookup(ps, "client_id") == Some("picovault-cli")
      && Lookup(ps, "redirect_uri") == Some(RedirectUri(port))
      && Lookup(ps, "response_type") == Some("code")
      && Lookup(ps, "scope") == Some("openid profile email offline_access")
      && Lookup(ps, "state") == Some(state)
      && Lookup(ps, "code_challenge") == Some(challenge)
      && Lookup(ps, "code_challenge_method") == Some("S256")
  {
    var ps := AuthorisationParams(state, challenge, port);
    AuthorisationParamsKeys(state, challenge, port);
    LookupDistinct(ps, 0);
    LookupDistinct(ps, 1);
    LookupDistinct(ps, 2);
    LookupDistinct(ps, 3);
    LookupDistinct(ps, 4);
    LookupDistinct(ps, 5);
    LookupDistinct(ps, 6);
  }

  /** The redirect URI of the authorization request is the one sent in the code exchange. */
  lemma RedirectUriAgrees(state: string, challenge: string, code: string, verifier: string, port: nat)
    ensures Lookup(AuthorisationParams(state, challenge, port), "redirect_uri")
         == Lookup(ExchangeParams(code, verifier, port), "redirect_uri")
         == Some(RedirectUri(port))
  {
    AuthorisationParamsValues(state, challenge, port);
    ExchangeRedirectUri(code, verifier, port);
  }

  /** The code exchange form carries the loopback redirect URI. */
  lemma ExchangeRedirectUri(code: string, verifier: string, port: nat)
    ensures Lookup(ExchangeParams(code, verifier, port), "redirect_uri") == Some(RedirectUri(port))
  {
    var ex := ExchangeParams(code, verifier, port);
    // The three keys ahead of it start with 'g', 'c' and 'c'.
    assert ex[0].0[0] != 'r' && ex[1].0[0] != 'r' && ex[2].0[0] != 'r';
    assert Lookup(ex[3..], "redirect_uri") == Some(RedirectUri(port));
    assert Lookup(ex[2..], "redirect_uri") == Lookup(ex[3..], "redirect_uri");
    assert Lookup(ex[1..], "redirect_uri") == Lookup(ex[2..], "redirect_uri");
  }

  /** The code-exchange form: five distinct parameters, the grant type, code, client and verifier among them. */
  lemma ExchangeParamsValues(code: string, verifier: string, port: nat)
    ensures Keys(ExchangeParams(code, verifier, port)) ==
      ["grant_type", "code", "client_id", "redirect_uri", "code_verifier"]
    ensures DistinctKeys(ExchangeParams(code, verifier, port))
    ensures var ps := ExchangeParams(code, verifier, port);
      && Lookup(ps, "grant_type") == Some("authorization_code")
      && Lookup(ps, "code") == Some(code)
      && Lookup(ps, "client_id") == Some("picovault-cli")
      && Lookup(ps, "code_verifier") == Some(verifier)
  {
    var ps := ExchangeParams(code, verifier, port);
    forall i, j | 0 <= i < j < |ps| ensures ps[i].0 != ps[j].0 {
      assert |ps[i].0| != |ps[j].0|;
    }
    LookupDistinct(ps, 0);
    LookupDistinct(ps, 1);
    LookupDistinct(ps, 2);
    LookupDistinct(ps, 4);
  }

  /** The refresh form: the grant type, the stored refresh token and the client, each under its own key. */
  lemma RefreshParamsValues(refreshToken: string)
    ensures Keys(RefreshParams(refreshToken)) == ["grant_type", "refresh_token", "client_id"]
    ensures var ps := RefreshParams(refreshToken);
      && Lookup(ps, "grant_type") == Some("refresh_token")
      && Lookup(ps, "refresh_token") == Some(refreshToken)
      && Lookup(ps, "client_id") == Some("picovault-cli")
  {
    var ps := RefreshParams(refreshToken);
    assert ps[0].0[0] != ps[1].0[0] && ps[0].0[0] != ps[2].0[0] && |ps[1].0| != |ps[2].0|;
    LookupDistinct(ps, 0);
    LookupDistinct(ps, 1);
    LookupDistinct(ps, 2);
  }

  /** Distinct ports have distinct redirect URIs: the numeral is read back from the text. */
  lemma RedirectUriInjective(p: nat, q: nat)
    requires RedirectUri(p) == RedirectUri(q)
    ensures p == q
  {
    var r := RedirectUri(p);
    assert DigitsValue(r[17..|r| - 9]) == p;
  }

  /** Expired exactly when fewer than the buffer's milliseconds remain, the edge included. */
  lemma ExpiryBoundary(s: SessionEntry, now: int)
    ensures IsTokenExpired(s, now) <==> s.oauth.expiresAt - now <= 300000
    ensures s.oauth.expiresAt == now + 299000 ==> IsTokenExpired(s, now)
    ensures s.oauth.expiresAt == now + 300000 ==> IsTokenExpired(s, now)
    ensures s.oauth.expiresAt == now + 301000 ==> !IsTokenExpired(s, now)
  {
  }

  /**
   * A session just refreshed at `now` is itself unexpired at `now` exactly when
   * the granted lifetime exceeds the 300-second buffer; a missing lifetime
   * counts as 3600 seconds.
   */
  lemma RefreshedFreshIff(s: SessionEntry, t: TokenResponse, now: int)
    ensures !IsTokenExpired(Refreshed(s, t, now), now) <==> t.expiresIn == 0 || t.expiresIn > 300
  {
    var r := Refreshed(s, t, now);
    if t.expiresIn == 0 {
      assert r.oauth.expiresAt == now + 3600000;
    } else {
      assert r.oauth.expiresAt - now == t.expiresIn * 1000;
    }
  }

  /**
   * Whatever the session's state, a successful `ensureValidToken` whose reply,
   * if consulted, grants more than the buffer hands back an unexpired session.
   */
  lemma EnsureValidYieldsFresh(f: SessionStore.SessionFile, s: SessionEntry, t: TokenResponse, now: int, fmt: Formats)
    requires t.expiresIn == 0 || t.expiresIn > 300
    ensures var r := EnsureValidToken(f, s, Success(t), now, fmt);
      r.Success? ==> !IsTokenExpired(r.value.session, now)
  {
    if IsTokenExpired(s, now) {
      RefreshedFreshIff(s, t, now);
    }
  }

  /** Whether a token is refreshed does not depend on the reply unless it has expired. */
  lemma EnsureValidIgnoresReplyWhenFresh(f: SessionStore.SessionFile, s: SessionEntry,
                                         a: Result<TokenResponse, FetchError>, b: Result<TokenResponse, FetchError>,
                                         now: int, fmt: Formats)
    requires !IsTokenExpired(s, now)
    ensures EnsureValidToken(f, s, a, now, fmt) == EnsureValidToken(f, s, b, now, fmt)
  {
  }

  /**
   * A stored, schema-valid session refreshes whenever the endpoint answers and
   * the session file is readable: the refreshed entry keeps the URL and e-mail
   * the schema checks.
   */
  lemma RefreshSucceeds(f: SessionStore.SessionFile, s: SessionEntry, t: TokenResponse, now: int, fmt: Formats)
    requires ValidEntry(s, fmt) && !f.Unreadable?
    ensures RefreshAccessToken(f, s, Success(t), now, fmt).Success?
    ensures RefreshAccessToken(f, s, Success(t), now, fmt).value.session == Refreshed(s, t, now)
  {
    SessionStore.AddSessionSucceeds(f, Refreshed(s, t, now), fmt);
  }

  /** A refreshed session changes only the three token fields. */
  lemma RefreshChangesOnlyTokens(s: SessionEntry, t: TokenResponse, now: int)
    ensures var r := Refreshed(s, t, now);
      r.(oauth := r.oauth.(accessToken := s.oauth.accessToken,
                           refreshToken := s.oauth.refreshToken,
                           expiresAt := s.oauth.expiresAt)) == s
  {
  }
}
