/** `picovault logout`: remove one stored session, the active one, or all of them. */
module LogoutCommand {
  import opened Wrappers
  import opened Text
  import opened CliSchemas
  import opened UrlUtils
  import opened SessionSchema
  import opened SessionStore

  /** The line `logout` prints, which also tells which branch ran. */
  datatype LogoutNote =
    | AllCleared
    | LoggedOut(url: string)
    | NotLoggedInTo(url: string)
    | NotLoggedIn
    | InvalidOptions
    | Failed(err: StoreError)

  datatype LogoutResult = LogoutResult(exitCode: int, note: LogoutNote, file: SessionFile)

  /** The exit status and file after the store call of one branch. */
  function Removed(f: SessionFile, url: string, fmt: Formats): (r: LogoutResult)
    requires !f.Unreadable?
    ensures r.exitCode == 0 && r.note == LoggedOut(url)
    ensures Load(r.file, fmt) == Success(Remove(Load(f, fmt).value, url))
  {
    LogoutResult(0, LoggedOut(url), RemoveSession(f, url, fmt).value)
  }

  /** Valid options without `--all` and with a non-empty `--instance`. */
  predicate ByInstance(instance: OptionArg<string>, all: OptionArg<bool>) {
    !instance.Mistyped? && !all.Mistyped? && all != Given(true) && instance.Given? && instance.value != ""
  }

  /** Valid options naming neither `--all` nor a non-empty `--instance`: the active session goes. */
  predicate ByActive(instance: OptionArg<string>, all: OptionArg<bool>) {
    !instance.Mistyped? && !all.Mistyped? && all != Given(true) && !(instance.Given? && instance.value != "")
  }

  /**
   * `logoutCommand`: `--all` wins over `--instance`; a non-empty `--instance`
   * is normalised and removed if stored; otherwise the active session is
   * removed. A store read error exits with status 1 and writes nothing.
   */
  function Logout(instance: OptionArg<string>, all: OptionArg<bool>, f: SessionFile, fmt: Formats)
    : (r: LogoutResult)
    ensures r.exitCode == 0 || r.exitCode == 1
    ensures r.exitCode == 1 <==> r.note.InvalidOptions? || r.note.Failed?
    ensures r.exitCode == 1 ==> r.file == f
    ensures instance.Mistyped? || all.Mistyped? ==> r == LogoutResult(1, InvalidOptions, f)
    ensures !instance.Mistyped? && all == Given(true) ==>
      r.note == AllCleared && Load(r.file, fmt) == Success(EmptyStorage())
    ensures r.note.NotLoggedIn? || r.note.NotLoggedInTo? ==> r.file == f
    ensures r.note.LoggedOut? ==>
      && Load(f, fmt).Success?
      && HasUrl(Load(f, fmt).value, r.note.url)
      && Load(r.file, fmt) == Success(Remove(Load(f, fmt).value, r.note.url))
    ensures ByInstance(instance, all) && f.Unreadable? ==> r == LogoutResult(1, Failed(ReadError), f)
    ensures ByInstance(instance, all) && !f.Unreadable? ==>
      var url := NormaliseUrl(instance.value);
      && (HasUrl(Load(f, fmt).value, url) ==> r.note == LoggedOut(url))
      && (!HasUrl(Load(f, fmt).value, url) ==> r == LogoutResult(0, NotLoggedInTo(url), f))
    ensures ByActive(instance, all) && f.Unreadable? ==> r == LogoutResult(1, Failed(ReadError), f)
    ensures ByActive(instance, all) && GetActiveSession(f, fmt) == Success(None) ==>
      r == LogoutResult(0, NotLoggedIn, f)
    ensures ByActive(instance, all) && GetActiveSession(f, fmt).Success? && GetActiveSession(f, fmt).value.Some? ==>
      r.note == LoggedOut(GetActiveSession(f, fmt).value.value.instanceUrl)
  {
    if instance.Mistyped? || all.Mistyped? then LogoutResult(1, InvalidOptions, f)
    else if all == Given(true) then LogoutResult(0, AllCleared, ClearAllSessions(fmt))
    else if instance.Given? && instance.value != "" then
      var url := NormaliseUrl(instance.value);
      match Load(f, fmt)
      case Failure(e) => LogoutResult(1, Failed(e), f)
      case Success(st) =>
        if Lookup(st, url).None? then LogoutResult(0, NotLoggedInTo(url), f)
        else Removed(f, url, fmt)
    else
      match GetActiveSession(f, fmt)
      case Failure(e) => LogoutResult(1, Failed(e), f)
      case Success(None) => LogoutResult(0, NotLoggedIn, f)
      case Success(Some(s)) => Removed(f, s.instanceUrl, fmt)
  }

  // ---- Properties ----

  /** After logging out of an instance, no session for it is left in the file. */
  lemma LoggedOutMeansGone(instance: OptionArg<string>, all: OptionArg<bool>, f: SessionFile, fmt: Formats)
    requires Logout(instance, all, f, fmt).note.LoggedOut?
    ensures var r := Logout(instance, all, f, fmt);
      Load(r.file, fmt).Success? && !HasUrl(Load(r.file, fmt).value, r.note.url)
  {
  }

  /** Logging out of one instance keeps every session of the others. */
  lemma LogoutKeepsOthers(instance: OptionArg<string>, all: OptionArg<bool>, f: SessionFile, fmt: Formats,
                          e: SessionEntry)
    requires Logout(instance, all, f, fmt).note.LoggedOut?
    requires e in Load(f, fmt).value.sessions && e.instanceUrl != Logout(instance, all, f, fmt).note.url
    ensures e in Load(Logout(instance, all, f, fmt).file, fmt).value.sessions
  {
  }

  /** With no options, the session removed is the active one. */
  lemma PlainLogoutRemovesActive(f: SessionFile, fmt: Formats)
    requires GetActiveSession(f, fmt).Success? && GetActiveSession(f, fmt).value.Some?
    ensures Logout(Unset, Unset, f, fmt).note == LoggedOut(GetActiveSession(f, fmt).value.value.instanceUrl)
  {
  }
}
