/**
 * `picovault run -- <command>`: find the active session, refresh its token if
 * needed, fetch the secrets, and spawn the command with them in its
 * environment. Every failure before the spawn exits with status 1.
 */
module RunCommand {
  import opened Wrappers
  import opened CliSchemas
  import opened SessionSchema
  import opened SessionStore
  import OAuth
  import ApiClient
  import Environment

  /** The external effects of one `run`, in order. */
  datatype Effect =
    | FetchSecrets(request: ApiClient.ApiRequest)
    | Spawn(command: seq<string>, env: map<string, string>)

  /** Why `run` stopped before or at the spawn. */
  datatype RunError =
    | NoCommand
    | StoreFailed(err: StoreError)
    | NoActiveSession
    | RefreshFailed(cause: OAuth.RefreshError)
    | ConfigFailed(message: string)
    | FetchFailed(message: string)
    | ChildFailed(child: ChildOutcome)

  /** How the spawned command ended: with an exit status, or without one (not started, killed). */
  datatype ChildOutcome = Exited(code: int) | Crashed(message: string)

  /**
   * `executeCommand`: the subprocess promise rejects unless the child exits
   * with status 0, so a resolved run always reports 0.
   */
  function ExecuteCommand(child: ChildOutcome): (r: Result<int, ChildOutcome>)
    ensures r.Success? <==> child == Exited(0)
    ensures r.Success? ==> r.value == 0
    ensures r.Failure? ==> r.error == child
  {
    if child == Exited(0) then Success(0) else Failure(child)
  }

  /**
   * The outcome: the exit status, the error when there was one, the effects
   * performed and the session file afterwards (a refresh may rewrite it).
   */
  datatype RunResult = RunResult(exitCode: int, error: Option<RunError>, effects: seq<Effect>, file: SessionFile)

  /** Everything `run` reads from outside: the clock, endpoint replies, configuration, environment, child. */
  datatype World = World(
    now: int,
    refreshReply: Result<OAuth.TokenResponse, OAuth.FetchError>,
    config: Result<Option<PicoVaultConfig>, string>,
    fetchReply: Result<SecretsResponse, ApiClient.FetchFailure>,
    baseEnv: map<string, string>,
    child: ChildOutcome)

  /** The configuration field `config?.field`, absent when there is no configuration. */
  function ConfigField(c: Option<PicoVaultConfig>, project: bool): Option<string> {
    match c
    case None => None
    case Some(cfg) => if project then cfg.projectId else cfg.organisationSlug
  }

  /** An active session is found and `ensureValidToken` returns it (refreshed or not). */
  predicate TokenEnsured(f: SessionFile, w: World, fmt: Formats) {
    && GetActiveSession(f, fmt).Success? && GetActiveSession(f, fmt).value.Some?
    && OAuth.EnsureValidToken(f, GetActiveSession(f, fmt).value.value, w.refreshReply, w.now, fmt).Success?
  }

  /** The session and session file `ensureValidToken` hands on. */
  function Ensured(f: SessionFile, w: World, fmt: Formats): OAuth.Refresh
    requires TokenEnsured(f, w, fmt)
  {
    OAuth.EnsureValidToken(f, GetActiveSession(f, fmt).value.value, w.refreshReply, w.now, fmt).value
  }

  /** Everything before the secrets request went through: command, session, token, configuration. */
  predicate ReachesFetch(command: seq<string>, f: SessionFile, w: World, fmt: Formats) {
    |command| > 0 && TokenEnsured(f, w, fmt) && w.config.Success?
  }

  /** The secrets request, made with the ensured session and the configured project and organisation. */
  function SecretsRequestFor(ok: OAuth.Refresh, c: Option<PicoVaultConfig>): ApiClient.ApiRequest {
    ApiClient.SecretsRequest(ok.session.instanceUrl, ok.session.oauth.accessToken,
                             ConfigField(c, true), ConfigField(c, false))
  }

  /** `runCommand`. */
  method Run(command: seq<string>, f: SessionFile, w: World, fmt: Formats) returns (r: RunResult)
    ensures |command| == 0 ==> r == RunResult(1, Some(NoCommand), [], f)
    ensures |command| > 0 && GetActiveSession(f, fmt).Failure? ==>
      r == RunResult(1, Some(StoreFailed(GetActiveSession(f, fmt).error)), [], f)
    ensures GetActiveSession(f, fmt) == Success(None) && |command| > 0 ==>
      r == RunResult(1, Some(NoActiveSession), [], f)
    ensures |command| > 0 && GetActiveSession(f, fmt).Success? && GetActiveSession(f, fmt).value.Some? ==>
      var ev := OAuth.EnsureValidToken(f, GetActiveSession(f, fmt).value.value, w.refreshReply, w.now, fmt);
      ev.Failure? ==> r == RunResult(1, Some(RefreshFailed(ev.error)), [], f)
    ensures |command| > 0 && TokenEnsured(f, w, fmt) && w.config.Failure? ==>
      r == RunResult(1, Some(ConfigFailed(w.config.error)), [], Ensured(f, w, fmt).file)
    ensures !ReachesFetch(command, f, w, fmt) ==> r.effects == []
    ensures ReachesFetch(command, f, w, fmt) ==>
      && r.file == Ensured(f, w, fmt).file
      && |r.effects| >= 1
      && r.effects[0] == FetchSecrets(SecretsRequestFor(Ensured(f, w, fmt), w.config.value))
    ensures ReachesFetch(command, f, w, fmt) && w.fetchReply.Failure? ==>
      && |r.effects| == 1
      && r.error == Some(FetchFailed(ApiClient.ErrorMessage(w.fetchReply.error)))
    ensures ReachesFetch(command, f, w, fmt) && w.fetchReply.Success? ==>
      && r.effects == [FetchSecrets(SecretsRequestFor(Ensured(f, w, fmt), w.config.value)),
                       Spawn(command, Environment.Inject(w.baseEnv, w.fetchReply.value.secrets))]
      && (r.error.None? <==> w.child == Exited(0))
      && (r.error.Some? ==> r.error.value == ChildFailed(w.child))
    ensures (exists i :: 0 <= i < |r.effects| && r.effects[i].Spawn?) ==> w.fetchReply.Success?
    ensures r.exitCode == 0 || r.exitCode == 1
    ensures r.exitCode == 0 <==> r.error.None?
  {
    if |command| == 0 {
      return RunResult(1, Some(NoCommand), [], f);
    }
    var active := GetActiveSession(f, fmt);
    if active.Failure? {
      return RunResult(1, Some(StoreFailed(active.error)), [], f);
    }
    if active.value.None? {
      return RunResult(1, Some(NoActiveSession), [], f);
    }
    var refreshed := OAuth.EnsureValidToken(f, active.value.value, w.refreshReply, w.now, fmt);
    if refreshed.Failure? {
      return RunResult(1, Some(RefreshFailed(refreshed.error)), [], f);
    }
    if w.config.Failure? {
      return RunResult(1, Some(ConfigFailed(w.config.error)), [], refreshed.value.file);
    }
    var fetch := [FetchSecrets(SecretsRequestFor(refreshed.value, w.config.value))];
    var secrets := ApiClient.FetchSecrets(w.fetchReply);
    if secrets.Failure? {
      return RunResult(1, Some(FetchFailed(secrets.error)), fetch, refreshed.value.file);
    }
    var env := Environment.PrepareEnvironment(w.baseEnv, secrets.value);
    var effects := fetch + [Spawn(command, env)];
    match ExecuteCommand(w.child)
    case Failure(c) => return RunResult(1, Some(ChildFailed(c)), effects, refreshed.value.file);
    case Success(code) => return RunResult(code, None, effects, refreshed.value.file);
  }
}
