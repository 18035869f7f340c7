/**
 * The login flow behind the callback server: the `onSuccess` validation chain
 * (provider error, then state, then code), the token exchange, the userinfo
 * fetch and the persisted session. Endpoint replies are inputs; what the flow
 * does is recorded as a sequence of steps.
 */
module AuthFlow {
  import opened Wrappers
  import opened Text
  import opened SessionSchema
  import opened SessionStore
  import opened OAuth
  import opened CallbackServer
  import Base64Url

  /** An effect of the login flow, in the order it happens. */
  datatype Step =
    | ExchangeCode(code: string, codeVerifier: string, port: nat)
    | FetchUserInfo(accessToken: string)
    | PersistSession(entry: SessionEntry)
    | CloseServer

  /** Why the exchange-and-store block fails: a wrapped endpoint error or a store error. */
  datatype ExchangeFailure = EndpointFailure(message: string) | StoreFailure(err: StoreError)

  /** The final spinner report of one login attempt. */
  datatype Report =
    | Succeeded
    | ProviderRejected(message: string)
    | InvalidState
    | NoCode
    | ExchangeFailed(cause: ExchangeFailure)

  datatype Outcome = Outcome(steps: seq<Step>, report: Report, file: SessionFile)

  /** The two endpoint replies a login attempt may consume. */
  datatype Replies = Replies(
    exchange: Result<TokenResponse, FetchError>,
    userInfo: Result<UserInfo, FetchError>)

  /** The state check passes only for a present, non-empty state equal to the generated one. */
  predicate StateMatches(p: CallbackParams, expectedState: string) {
    Truthy(p.state) && p.state.value == expectedState
  }

  /**
   * `handleOAuthSuccess`: the session recorded for a completed login at time
   * `now`. The source reads the clock twice (once for `expiresAt`, once for
   * `createdAt`); both readings are taken here to be the same instant `now`.
   */
  function BuildSession(t: TokenResponse, u: UserInfo, instanceUrl: string, now: int): (e: SessionEntry)
    ensures e.instanceUrl == instanceUrl && e.createdAt == now
    ensures e.oauth.accessToken == t.accessToken && e.oauth.refreshToken == t.refreshToken
    ensures e.oauth.tokenType == (if t.tokenType != "" then t.tokenType else DefaultTokenType)
    ensures e.oauth.expiresAt == now + t.expiresIn * 1000
    ensures e.oauth.scope == (if Truthy(t.scope) then t.scope else None)
    ensures e.user.id == u.sub && e.user.email == u.email && e.user.name == u.name
  {
    SessionEntry(
      instanceUrl,
      OAuthTokens(t.accessToken, t.refreshToken, OrElse(t.tokenType, DefaultTokenType),
                  now + t.expiresIn * 1000, if Truthy(t.scope) then t.scope else None),
      SessionUser(u.sub, u.email, u.name),
      now)
  }

  /** The three steps of a login that reaches `addSession`, in their only possible order. */
  function SuccessPrefix(p: CallbackParams, instanceUrl: string, codeVerifier: string, port: nat,
                         t: TokenResponse, u: UserInfo, now: int): seq<Step>
    requires p.code.Some?
  {
    [ExchangeCode(p.code.value, codeVerifier, port), FetchUserInfo(t.accessToken),
     PersistSession(BuildSession(t, u, instanceUrl, now))]
  }

  /** The `onSuccess` handler of `authenticate`. */
  function OnSuccessHandler(p: CallbackParams, expectedState: string, instanceUrl: string, codeVerifier: string,
                            port: nat, replies: Replies, f: SessionFile, now: int, fmt: Formats): (o: Outcome)
    ensures |o.steps| >= 1 && o.steps[|o.steps| - 1] == CloseServer
    ensures forall i :: 0 <= i < |o.steps| - 1 ==> o.steps[i] != CloseServer
    ensures Truthy(p.error) ==> o == Outcome([CloseServer], ProviderRejected(ProviderErrorMessage(p)), f)
    ensures !Truthy(p.error) && !StateMatches(p, expectedState) ==> o == Outcome([CloseServer], InvalidState, f)
    ensures (exists i :: 0 <= i < |o.steps| && o.steps[i].ExchangeCode?) ==>
      !Truthy(p.error) && StateMatches(p, expectedState) && Truthy(p.code)
    ensures (exists i :: 0 <= i < |o.steps| && o.steps[i].PersistSession?) ==>
      && replies.exchange.Success? && replies.userInfo.Success? && p.code.Some? && |o.steps| == 4
      && o.steps[..3] == SuccessPrefix(p, instanceUrl, codeVerifier, port, replies.exchange.value, replies.userInfo.value, now)
    ensures !o.report.Succeeded? ==> o.file == f
    ensures o.report.Succeeded? ==>
      && replies.exchange.Success? && replies.userInfo.Success?
      && GetActiveSession(o.file, fmt)
         == Success(Some(BuildSession(replies.exchange.value, replies.userInfo.value, instanceUrl, now)))
      && !f.Unreadable? && Load(o.file, fmt)
         == Success(Upsert(Load(f, fmt).value, BuildSession(replies.exchange.value, replies.userInfo.value, instanceUrl, now)))
  {
    if Truthy(p.error) then Outcome([CloseServer], ProviderRejected(ProviderErrorMessage(p)), f)
    else if !StateMatches(p, expectedState) then Outcome([CloseServer], InvalidState, f)
    else if !Truthy(p.code) then Outcome([CloseServer], NoCode, f)
    else
      var exchange := ExchangeCode(p.code.value, codeVerifier, port);
      match ExchangeCodeForTokens(replies.exchange)
      case Failure(m) => Outcome([exchange, CloseServer], ExchangeFailed(EndpointFailure(m)), f)
      case Success(t) =>
        match GetUserInfo(replies.userInfo)
        case Failure(m) =>
          Outcome([exchange, FetchUserInfo(t.accessToken), CloseServer], ExchangeFailed(EndpointFailure(m)), f)
        case Success(u) =>
          var e := BuildSession(t, u, instanceUrl, now);
          var steps := SuccessPrefix(p, instanceUrl, codeVerifier, port, t, u, now) + [CloseServer];
          assert steps[..3] == SuccessPrefix(p, instanceUrl, codeVerifier, port, t, u, now);
          match AddSession(f, e, fmt)
          case Failure(err) => Outcome(steps, ExchangeFailed(StoreFailure(err)), f)
          case Success(f') =>
            AddSessionThenActive(f, e, fmt);
            Outcome(steps, Succeeded, f')
  }

  /** The `onError` handler of `authenticate`: report and close. */
  function OnErrorHandler(message: string, f: SessionFile): (o: Outcome)
    ensures o.file == f && o.steps == [CloseServer] && !o.report.Succeeded?
  {
    Outcome([CloseServer], ProviderRejected(message), f)
  }

  /**
   * One request reaching the listener started by `authenticate` (which always
   * registers `onError`, and whose `onSuccess` catches its own errors).
   */
  function ReceiveCallback(resolved: bool, req: Request, expectedState: string, instanceUrl: string,
                           codeVerifier: string, port: nat, replies: Replies, f: SessionFile, now: int,
                           fmt: Formats): (r: (Reply, Option<Outcome>))
    ensures r.0 == Handle(resolved, req, true, None)
    ensures r.1.None? <==> r.0.calls == []
    ensures r.1.Some? && r.1.value.report.Succeeded? ==> req.path == CallbackPath && !resolved && r.0.resolved
  {
    var rep := Handle(resolved, req, true, None);
    if rep.calls == [] then (rep, None)
    else match rep.calls[0]
      case OnSuccess(p) =>
        (rep, Some(OnSuccessHandler(p, expectedState, instanceUrl, codeVerifier, port, replies, f, now, fmt)))
      case OnError(m) => (rep, Some(OnErrorHandler(m, f)))
  }

  /** What `authenticate` has set up once it waits for the browser. */
  datatype Started = Started(port: nat, state: string, authUrl: string)

  /**
   * The set-up half of `authenticate`: bind the callback server, draw the
   * 32-byte state, build the authorisation URL and open it in the browser.
   * `stateBytes` are the random bytes, `codeChallenge` the PKCE challenge and
   * `openError` the rejection of `open(authUrl)`, if it rejects. A port failure
   * and an `open` rejection are both re-thrown.
   */
  method StartAuthentication(instanceUrl: string, stateBytes: seq<Base64Url.byte>, codeChallenge: string,
                             canBind: nat -> bool, enc: string -> string, openError: Option<string>)
    returns (r: Result<Started, string>)
    requires |stateBytes| == 32
    ensures r.Failure? <==>
      (forall p :: BasePort <= p < BasePort + MaxAttempts ==> !canBind(p)) || openError.Some?
    ensures openError.Some? && (exists p :: BasePort <= p < BasePort + MaxAttempts && canBind(p)) ==>
      r == Failure(openError.value)
    ensures r.Success? ==>
      && BasePort <= r.value.port < BasePort + MaxAttempts && canBind(r.value.port)
      && (forall p :: BasePort <= p < r.value.port ==> !canBind(p))
      && |r.value.state| == 43 && Base64Url.Decode(r.value.state) == Some(stateBytes)
      && r.value.authUrl == BuildAuthorisationUrl(instanceUrl, r.value.state, codeChallenge, r.value.port, enc)
      && StartsWith(r.value.authUrl, instanceUrl + "/login?")
  {
    var state := Base64Url.GenerateRandomString(stateBytes);
    Base64Url.StateTokenShape(stateBytes);
    var port := FindAvailablePort(canBind);
    match port
    case Failure(e) => return Failure(e);
    case Success(p) =>
      var authUrl := BuildAuthorisationUrl(instanceUrl, state, codeChallenge, p, enc);
      if openError.Some? {
        return Failure(openError.value);
      }
      return Success(Started(p, state, authUrl));
  }

  // ---- Properties ----

  /** A state that is missing or differs is rejected whatever the code and the endpoints would say. */
  lemma WrongStateNeverExchanges(p: CallbackParams, expectedState: string, instanceUrl: string, codeVerifier: string,
                                 port: nat, replies: Replies, f: SessionFile, now: int, fmt: Formats)
    requires !Truthy(p.error)
    requires p.state.None? || p.state.value != expectedState
    ensures OnSuccessHandler(p, expectedState, instanceUrl, codeVerifier, port, replies, f, now, fmt)
         == Outcome([CloseServer], InvalidState, f)
  {
  }

  /** A provider error in the redirect: 500, no token exchange, nothing stored, the server closed. */
  lemma ProviderErrorAbortsLogin(req: Request, expectedState: string, instanceUrl: string, codeVerifier: string,
                                 port: nat, replies: Replies, f: SessionFile, now: int, fmt: Formats)
    requires req.path == CallbackPath && Truthy(req.params.error)
    ensures var r := ReceiveCallback(false, req, expectedState, instanceUrl, codeVerifier, port, replies, f, now, fmt);
      && StatusCode(r.0.status) == 500 && !r.0.resolved
      && r.1 == Some(Outcome([CloseServer], ProviderRejected(ProviderErrorMessage(req.params)), f))
  {
  }

  /**
   * A valid redirect with working endpoints, on any readable session file,
   * upserts the new session, makes it active, and keeps every other entry; on a
   * first login (no file yet) it leaves exactly that one session.
   */
  lemma SuccessfulLogin(req: Request, expectedState: string, instanceUrl: string, codeVerifier: string,
                        port: nat, t: TokenResponse, u: UserInfo, f: SessionFile, now: int, fmt: Formats)
    requires req.path == CallbackPath && !Truthy(req.params.error)
    requires StateMatches(req.params, expectedState) && Truthy(req.params.code)
    requires fmt.isUrl(instanceUrl) && fmt.isEmail(u.email)
    requires !f.Unreadable?
    ensures var r := ReceiveCallback(false, req, expectedState, instanceUrl, codeVerifier, port,
                                     Replies(Success(t), Success(u)), f, now, fmt);
      && r.0.status == SuccessPage
      && r.1.Some? && r.1.value.report == Succeeded
      && Load(r.1.value.file, fmt) == Success(Upsert(Load(f, fmt).value, BuildSession(t, u, instanceUrl, now)))
      && GetActiveSession(r.1.value.file, fmt) == Success(Some(BuildSession(t, u, instanceUrl, now)))
    ensures f.Missing? ==>
      var r := ReceiveCallback(false, req, expectedState, instanceUrl, codeVerifier, port,
                               Replies(Success(t), Success(u)), f, now, fmt);
      r.1.Some? &&
      Load(r.1.value.file, fmt) == Success(SessionStorage([BuildSession(t, u, instanceUrl, now)],
                                                          Some(ActiveContext(instanceUrl))))
  {
    var e := BuildSession(t, u, instanceUrl, now);
    AddSessionSucceeds(f, e, fmt);
    if f.Missing? {
      assert Upsert(EmptyStorage(), e) == SessionStorage([e], Some(ActiveContext(instanceUrl))) by {
        assert EmptyStorage().sessions + [e] == [e];
      }
    }
  }
}
