/** `picovault login`: choose the instance URL, then start the browser login. */
module LoginCommand {
  import opened Wrappers
  import opened Text
  import opened CliSchemas
  import opened UrlUtils
  import AuthFlow
  import Base64Url
  import CallbackServer

  /** Why `login` exits with status 1 before or while starting the browser login. */
  datatype LoginError =
    | InvalidOptions           // the option schema rejected the options
    | ConfigFailed(message: string)  // the configuration file could not be loaded
    | NoInstance               // neither `--instance` nor `defaultInstance` is set
    | InvalidInstanceUrl(url: string)
    | StartFailed(message: string)   // `authenticate` threw while setting up

  datatype LoginResult = Exit(code: int, error: LoginError) | AwaitingBrowser(started: AuthFlow.Started)

  /**
   * The URL `login` authenticates against. A non-empty `--instance` is
   * normalised and the configuration is not read; otherwise the configured
   * `defaultInstance` is used as written. Either way it must parse as a URL.
   */
  function ResolveInstance(instance: OptionArg<string>, config: Result<Option<PicoVaultConfig>, string>,
                           isUrl: string -> bool): (r: Result<string, LoginError>)
    ensures instance.Mistyped? ==> r == Failure(InvalidOptions)
    ensures r.Success? ==> isUrl(r.value)
    ensures instance.Given? && instance.value != "" ==>
      r == (if isUrl(NormaliseUrl(instance.value)) then Success(NormaliseUrl(instance.value))
            else Failure(InvalidInstanceUrl(NormaliseUrl(instance.value))))
    ensures (instance.Unset? || instance == Given("")) ==>
      (r.Success? <==> config.Success? && config.value.Some? && Truthy(config.value.value.defaultInstance)
                       && isUrl(config.value.value.defaultInstance.value))
    ensures (instance.Unset? || instance == Given("")) && r.Success? ==>
      r.value == config.value.value.defaultInstance.value
  {
    match instance
    case Mistyped => Failure(InvalidOptions)
    case Unset => FromConfig(config, isUrl)
    case Given(v) => if v != "" then CheckUrl(NormaliseUrl(v), isUrl) else FromConfig(config, isUrl)
  }

  /** The `new URL` check before `authenticate`. */
  function CheckUrl(url: string, isUrl: string -> bool): (r: Result<string, LoginError>)
    ensures r.Success? <==> isUrl(url)
    ensures r.Success? ==> r.value == url
    ensures r.Failure? ==> r.error == InvalidInstanceUrl(url)
  {
    if isUrl(url) then Success(url) else Failure(InvalidInstanceUrl(url))
  }

  /** The fallback to the configuration's `defaultInstance`. */
  function FromConfig(config: Result<Option<PicoVaultConfig>, string>, isUrl: string -> bool)
    : (r: Result<string, LoginError>)
    ensures r.Success? <==> config.Success? && config.value.Some? && Truthy(config.value.value.defaultInstance)
                            && isUrl(config.value.value.defaultInstance.value)
    ensures r.Success? ==> r.value == config.value.value.defaultInstance.value
  {
    match config
    case Failure(m) => Failure(ConfigFailed(m))
    case Success(c) =>
      if c.Some? && Truthy(c.value.defaultInstance) then CheckUrl(c.value.defaultInstance.value, isUrl)
      else Failure(NoInstance)
  }

  /** `loginCommand` followed by the set-up half of `authenticate`. */
  method Login(instance: OptionArg<string>, config: Result<Option<PicoVaultConfig>, string>,
               isUrl: string -> bool, stateBytes: seq<Base64Url.byte>, codeChallenge: string,
               canBind: nat -> bool, enc: string -> string, openError: Option<string>) returns (r: LoginResult)
    requires |stateBytes| == 32
    ensures r.Exit? ==> r.code == 1
    ensures ResolveInstance(instance, config, isUrl).Failure? ==>
      r == Exit(1, ResolveInstance(instance, config, isUrl).error)
    ensures r.AwaitingBrowser? ==>
      && ResolveInstance(instance, config, isUrl).Success?
      && StartsWith(r.started.authUrl, ResolveInstance(instance, config, isUrl).value + "/login?")
    ensures ResolveInstance(instance, config, isUrl).Success? ==>
      (r.AwaitingBrowser? <==>
        && (exists p :: CallbackServer.BasePort <= p < CallbackServer.BasePort + CallbackServer.MaxAttempts && canBind(p))
        && openError.None?)
    ensures ResolveInstance(instance, config, isUrl).Success? && openError.Some?
            && (exists p :: CallbackServer.BasePort <= p < CallbackServer.BasePort + CallbackServer.MaxAttempts && canBind(p)) ==>
      r == Exit(1, StartFailed(openError.value))
  {
    var url := ResolveInstance(instance, config, isUrl);
    if url.Failure? {
      return Exit(1, url.error);
    }
    var started := AuthFlow.StartAuthentication(url.value, stateBytes, codeChallenge, canBind, enc, openError);
    match started
    case Failure(m) => return Exit(1, StartFailed(m));
    case Success(s) => return AwaitingBrowser(s);
  }

  // ---- Properties ----

  /** With a non-empty `--instance` the configuration file plays no part. */
  lemma ExplicitInstanceIgnoresConfig(v: string, c1: Result<Option<PicoVaultConfig>, string>,
                                      c2: Result<Option<PicoVaultConfig>, string>, isUrl: string -> bool)
    requires v != ""
    ensures ResolveInstance(Given(v), c1, isUrl) == ResolveInstance(Given(v), c2, isUrl)
  {
  }

  /** A scheme-less `--instance` is normalised; a scheme-less `defaultInstance` is not. */
  lemma ConfigInstanceTakenRaw(isUrl: string -> bool)
    requires forall u :: isUrl(u)
    ensures ResolveInstance(Given("localhost:3001"), Success(None), isUrl) == Success("http://localhost:3001")
    ensures ResolveInstance(Unset, Success(Some(PicoVaultConfig(Some("localhost:3001"), None, None))), isUrl)
         == Success("localhost:3001")
  {
    assert !HasScheme("localhost:3001") by {
      assert "localhost:3001"[..7][0] == 'l';
      assert "localhost:3001"[..8][0] == 'l';
    }
    assert IsLoopback("localhost:3001") by {
      assert "localhost:3001"[..9] == "localhost";
    }
    assert "http://" + "localhost:3001" == "http://localhost:3001";
  }
}
