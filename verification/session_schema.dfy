/**
 * The CLI's persisted session document: one entry per PicoVault instance
 * plus an optional pointer to the active instance. Timestamps are integer
 * milliseconds since the epoch; the ISO-8601 text form is not modelled.
 */
module SessionSchema {
  import opened Wrappers

  /** The format checks the schema delegates to its validation library. */
  datatype Formats = Formats(isUrl: string -> bool, isEmail: string -> bool)

  datatype OAuthTokens = OAuthTokens(
    accessToken: string,
    refreshToken: string,
    tokenType: string,
    expiresAt: int,
    scope: Option<string>)

  datatype SessionUser = SessionUser(id: string, email: string, name: string)

  datatype SessionEntry = SessionEntry(
    instanceUrl: string,
    oauth: OAuthTokens,
    user: SessionUser,
    createdAt: int)

  datatype ActiveContext = ActiveContext(instanceUrl: string)

  datatype SessionStorage = SessionStorage(
    sessions: seq<SessionEntry>,
    activeContext: Option<ActiveContext>)

  const DefaultTokenType := "Bearer"

  function EmptyStorage(): SessionStorage {
    SessionStorage([], None)
  }

  predicate ValidEntry(e: SessionEntry, fmt: Formats) {
    fmt.isUrl(e.instanceUrl) && fmt.isEmail(e.user.email)
  }

  /** What the storage schema accepts. It says nothing about duplicate instance URLs. */
  predicate ValidStorage(st: SessionStorage, fmt: Formats) {
    && (forall i :: 0 <= i < |st.sessions| ==> ValidEntry(st.sessions[i], fmt))
    && (st.activeContext.Some? ==> fmt.isUrl(st.activeContext.value.instanceUrl))
  }

  /** A timestamp field as found in the file: a datetime, or some other text. */
  datatype RawTime = DateTime(ms: int) | NotDateTime(text: string)

  /** A session entry as decoded from JSON, before validation and defaults. */
  datatype RawEntry = RawEntry(
    instanceUrl: string,
    accessToken: string,
    refreshToken: string,
    tokenType: Option<string>,
    expiresAt: RawTime,
    scope: Option<string>,
    userId: string,
    email: string,
    name: string,
    createdAt: RawTime)

  /**
   * The decoded JSON document: an object of the expected shape, or a value
   * whose shape (a missing field, a field of the wrong JSON type) the schema rejects.
   */
  datatype RawDocument =
    | Document(sessions: seq<RawEntry>, activeContext: Option<string>)
    | IllShaped

  datatype SchemaError = SchemaError(field: string)

  function ParseEntry(r: RawEntry, fmt: Formats): (res: Result<SessionEntry, SchemaError>)
    ensures res.Success? <==>
      fmt.isUrl(r.instanceUrl) && fmt.isEmail(r.email) && r.expiresAt.DateTime? && r.createdAt.DateTime?
    ensures res.Success? ==> ValidEntry(res.value, fmt)
    ensures res.Success? ==> res.value.oauth.tokenType == r.tokenType.GetOr(DefaultTokenType)
    ensures res.Success? ==> res.value.oauth.scope == r.scope && res.value.user.id == r.userId
  {
    if !fmt.isUrl(r.instanceUrl) then Failure(SchemaError("instanceUrl"))
    else if !r.expiresAt.DateTime? then Failure(SchemaError("oauth.expiresAt"))
    else if !fmt.isEmail(r.email) then Failure(SchemaError("user.email"))
    else if !r.createdAt.DateTime? then Failure(SchemaError("createdAt"))
    else
      Success(SessionEntry(
        r.instanceUrl,
        OAuthTokens(r.accessToken, r.refreshToken, r.tokenType.GetOr(DefaultTokenType), r.expiresAt.ms, r.scope),
        SessionUser(r.userId, r.email, r.name),
        r.createdAt.ms))
  }

  function ParseEntries(rs: seq<RawEntry>, fmt: Formats): (res: Result<seq<SessionEntry>, SchemaError>)
    ensures res.Success? <==> forall i :: 0 <= i < |rs| ==> ParseEntry(rs[i], fmt).Success?
    ensures res.Success? ==> |res.value| == |rs|
    ensures res.Success? ==> forall i :: 0 <= i < |rs| ==> res.value[i] == ParseEntry(rs[i], fmt).value
  {
    if |rs| == 0 then Success([])
    else
      match ParseEntry(rs[0], fmt)
      case Failure(e) => Failure(e)
      case Success(e) =>
        match ParseEntries(rs[1..], fmt)
        case Failure(err) => Failure(err)
        case Success(es) => Success([e] + es)
  }

  /** Schema validation of a decoded document (`sessionStorageSchema.parse`). */
  function Parse(doc: RawDocument, fmt: Formats): (res: Result<SessionStorage, SchemaError>)
    ensures res.Success? ==> ValidStorage(res.value, fmt)
    ensures res.Success? <==>
      && doc.Document?
      && (forall i :: 0 <= i < |doc.sessions| ==> ParseEntry(doc.sessions[i], fmt).Success?)
      && (doc.activeContext.Some? ==> fmt.isUrl(doc.activeContext.value))
    ensures res.Success? ==>
      && |res.value.sessions| == |doc.sessions|
      && (forall i :: 0 <= i < |doc.sessions| ==> res.value.sessions[i] == ParseEntry(doc.sessions[i], fmt).value)
    ensures res.Success? ==> (res.value.activeContext.Some? <==> doc.activeContext.Some?)
    ensures res.Success? && doc.activeContext.Some? ==>
      res.value.activeContext.value.instanceUrl == doc.activeContext.value
  {
    match doc
    case IllShaped => Failure(SchemaError("(root)"))
    case Document(raw, active) =>
      match ParseEntries(raw, fmt)
      case Failure(e) => Failure(e)
      case Success(entries) =>
        if active.Some? && !fmt.isUrl(active.value) then Failure(SchemaError("activeContext.instanceUrl"))
        else Success(SessionStorage(entries, if active.Some? then Some(ActiveContext(active.value)) else None))
  }

  function SerialiseEntry(e: SessionEntry): RawEntry {
    RawEntry(e.instanceUrl, e.oauth.accessToken, e.oauth.refreshToken, Some(e.oauth.tokenType),
             DateTime(e.oauth.expiresAt), e.oauth.scope, e.user.id, e.user.email, e.user.name,
             DateTime(e.createdAt))
  }

  /** The document `JSON.stringify` writes for a storage value. */
  function Serialise(st: SessionStorage): (doc: RawDocument)
    ensures doc.Document? && |doc.sessions| == |st.sessions|
    ensures forall i :: 0 <= i < |st.sessions| ==>
      && doc.sessions[i].instanceUrl == st.sessions[i].instanceUrl
      && doc.sessions[i].tokenType == Some(st.sessions[i].oauth.tokenType)
      && doc.sessions[i].expiresAt.DateTime? && doc.sessions[i].createdAt.DateTime?
    ensures doc.activeContext.Some? <==> st.activeContext.Some?
  {
    Document(seq(|st.sessions|, i requires 0 <= i < |st.sessions| => SerialiseEntry(st.sessions[i])),
             if st.activeContext.Some? then Some(st.activeContext.value.instanceUrl) else None)
  }

  /** Writing a schema-valid storage and validating it again gives back the same storage. */
  lemma ParseSerialise(st: SessionStorage, fmt: Formats)
    requires ValidStorage(st, fmt)
    ensures Parse(Serialise(st), fmt) == Success(st)
  {
    var doc := Serialise(st);
    assert forall i :: 0 <= i < |st.sessions| ==> ParseEntry(doc.sessions[i], fmt) == Success(st.sessions[i]);
    var es := ParseEntries(doc.sessions, fmt);
    assert es.Success?;
    assert es.value == st.sessions;
  }

  /** A missing `tokenType` is filled with "Bearer"; a present one is kept. */
  lemma TokenTypeDefault(r: RawEntry, fmt: Formats)
    requires ParseEntry(r, fmt).Success?
    ensures r.tokenType.None? ==> ParseEntry(r, fmt).value.oauth.tokenType == "Bearer"
    ensures r.tokenType.Some? ==> ParseEntry(r, fmt).value.oauth.tokenType == r.tokenType.value
  {
  }
}
