/**
 * The CLI session store (`~/.picovault/sessions.json`) as an in-memory value:
 * every operation is a read-modify-write of the whole file.
 */
module SessionStore {
  import opened Wrappers
  import opened SessionSchema

  /** The session file on disk. `Unreadable` is a file whose text is not JSON. */
  datatype SessionFile = Missing | Unreadable | Stored(doc: RawDocument)

  /** An error the store re-throws to its caller. */
  datatype StoreError =
    | ReadError                  // the JSON decoder failed: re-thrown, not recovered
    | WriteRejected(e: SchemaError)  // the storage to be written failed validation

  /**
   * `loadSessions`: a missing file and a file that fails schema validation
   * both read as empty storage; a file that is not JSON is an error.
   */
  function Load(f: SessionFile, fmt: Formats): (r: Result<SessionStorage, StoreError>)
    ensures r.Success? ==> ValidStorage(r.value, fmt)
    ensures r.Failure? <==> f.Unreadable?
    ensures f.Missing? ==> r == Success(EmptyStorage())
    ensures f.Stored? && Parse(f.doc, fmt).Failure? ==> r == Success(EmptyStorage())
  {
    match f
    case Missing => Success(EmptyStorage())
    case Unreadable => Failure(ReadError)
    case Stored(doc) =>
      match Parse(doc, fmt)
      case Failure(_) => Success(EmptyStorage())
      case Success(st) => Success(st)
  }

  /** `saveSessions`: validate, then replace the whole file. */
  function Save(st: SessionStorage, fmt: Formats): (r: Result<SessionFile, StoreError>)
    ensures r.Success? <==> ValidStorage(st, fmt)
    ensures r.Success? ==> Load(r.value, fmt) == Success(st)
  {
    if ValidStorage(st, fmt) then
      ParseSerialise(st, fmt);
      Success(Stored(Serialise(st)))
    else Failure(WriteRejected(SchemaError("sessions")))
  }

  /** Index of the first entry for `url` (`findIndex`). */
  function FindIndex(ss: seq<SessionEntry>, url: string): (r: Option<nat>)
    ensures r.Some? ==> r.value < |ss| && ss[r.value].instanceUrl == url
    ensures r.Some? ==> forall j :: 0 <= j < r.value ==> ss[j].instanceUrl != url
    ensures r.None? ==> forall j :: 0 <= j < |ss| ==> ss[j].instanceUrl != url
  {
    if |ss| == 0 then None
    else if ss[0].instanceUrl == url then Some(0)
    else match FindIndex(ss[1..], url)
      case None => None
      case Some(k) => Some(k + 1)
  }

  /** The first entry for `url` (`find`), or none. */
  function Lookup(st: SessionStorage, url: string): (r: Option<SessionEntry>)
    ensures r.Some? ==> r.value in st.sessions && r.value.instanceUrl == url
    ensures r.None? <==> forall j :: 0 <= j < |st.sessions| ==> st.sessions[j].instanceUrl != url
  {
    match FindIndex(st.sessions, url)
    case None => None
    case Some(k) => Some(st.sessions[k])
  }

  predicate HasUrl(st: SessionStorage, url: string) {
    exists j :: 0 <= j < |st.sessions| && st.sessions[j].instanceUrl == url
  }

  /** At most one entry per instance URL: the invariant the store's operations keep. */
  predicate UniqueUrls(ss: seq<SessionEntry>) {
    forall i, j :: 0 <= i < j < |ss| ==> ss[i].instanceUrl != ss[j].instanceUrl
  }

  /** The active pointer, when set, names a stored entry. */
  predicate PointerConsistent(st: SessionStorage) {
    st.activeContext.Some? ==> HasUrl(st, st.activeContext.value.instanceUrl)
  }

  /**
   * `addSession` after loading: replace the first entry with the same URL in
   * place, or append; then point the active context at the added entry.
   */
  function Upsert(st: SessionStorage, e: SessionEntry): (r: SessionStorage)
    ensures r.activeContext == Some(ActiveContext(e.instanceUrl))
    ensures HasUrl(st, e.instanceUrl) ==> |r.sessions| == |st.sessions|
    ensures !HasUrl(st, e.instanceUrl) ==> |r.sessions| == |st.sessions| + 1 && r.sessions[|st.sessions|] == e
    ensures forall j :: 0 <= j < |st.sessions| && st.sessions[j].instanceUrl != e.instanceUrl ==>
      r.sessions[j] == st.sessions[j]
  {
    match FindIndex(st.sessions, e.instanceUrl)
    case Some(k) => SessionStorage(st.sessions[k := e], Some(ActiveContext(e.instanceUrl)))
    case None => SessionStorage(st.sessions + [e], Some(ActiveContext(e.instanceUrl)))
  }

  /** The entries whose URL differs from `url`, in their original order (`filter`). */
  function Without(ss: seq<SessionEntry>, url: string): (r: seq<SessionEntry>)
    ensures |r| <= |ss|
    ensures forall e :: e in r <==> e in ss && e.instanceUrl != url
  {
    if |ss| == 0 then []
    else if ss[0].instanceUrl == url then Without(ss[1..], url)
    else [ss[0]] + Without(ss[1..], url)
  }

  /**
   * `removeSession` after loading: drop every entry for `url`; if it was the
   * active one, the pointer moves to the first remaining entry or is cleared.
   */
  function Remove(st: SessionStorage, url: string): (r: SessionStorage)
    ensures !HasUrl(r, url)
    ensures forall e :: e in r.sessions <==> e in st.sessions && e.instanceUrl != url
    ensures st.activeContext != Some(ActiveContext(url)) ==> r.activeContext == st.activeContext
    ensures st.activeContext == Some(ActiveContext(url)) && |r.sessions| > 0 ==>
      r.activeContext == Some(ActiveContext(r.sessions[0].instanceUrl))
    ensures st.activeContext == Some(ActiveContext(url)) && |r.sessions| == 0 ==> r.activeContext.None?
  {
    var rest := Without(st.sessions, url);
    assert forall j :: 0 <= j < |rest| ==> rest[j] in rest;
    var active :=
      if st.activeContext == Some(ActiveContext(url)) then
        (if |rest| > 0 then Some(ActiveContext(rest[0].instanceUrl)) else None)
      else st.activeContext;
    SessionStorage(rest, active)
  }

  /**
   * `getActiveSession` after loading: without a pointer, the first entry; with
   * one, the entry it names, and nothing when it names no stored entry.
   */
  function Active(st: SessionStorage): (r: Option<SessionEntry>)
    ensures st.activeContext.None? ==> (r.Some? <==> |st.sessions| > 0)
    ensures st.activeContext.None? && r.Some? ==> r.value == st.sessions[0]
    ensures st.activeContext.Some? ==> r == Lookup(st, st.activeContext.value.instanceUrl)
    ensures r.Some? ==> r.value in st.sessions
  {
    match st.activeContext
    case None => if |st.sessions| > 0 then Some(st.sessions[0]) else None
    case Some(ctx) => Lookup(st, ctx.instanceUrl)
  }

  // ---- The operations as the CLI calls them, on the session file ----

  function AddSession(f: SessionFile, e: SessionEntry, fmt: Formats): (r: Result<SessionFile, StoreError>)
    ensures f.Unreadable? ==> r == Failure(ReadError)
    ensures r.Success? <==> !f.Unreadable? && ValidStorage(Upsert(Load(f, fmt).value, e), fmt)
    ensures r.Success? ==> Load(r.value, fmt) == Success(Upsert(Load(f, fmt).value, e))
  {
    var st :- Load(f, fmt);
    Save(Upsert(st, e), fmt)
  }

  function RemoveSession(f: SessionFile, url: string, fmt: Formats): (r: Result<SessionFile, StoreError>)
    ensures r.Success? <==> !f.Unreadable?
    ensures r.Success? ==> Load(r.value, fmt) == Success(Remove(Load(f, fmt).value, url))
  {
    var st :- Load(f, fmt);
    RemovePreservesValid(st, url, fmt);
    Save(Remove(st, url), fmt)
  }

  /** `clearAllSessions` writes empty storage without reading the old file. */
  function ClearAllSessions(fmt: Formats): (r: SessionFile)
    ensures Load(r, fmt) == Success(EmptyStorage())
  {
    assert ValidStorage(EmptyStorage(), fmt);
    Save(EmptyStorage(), fmt).value
  }

  function GetActiveSession(f: SessionFile, fmt: Formats): (r: Result<Option<SessionEntry>, StoreError>)
    ensures r.Failure? <==> f.Unreadable?
    ensures f.Missing? ==> r == Success(None)
    ensures !f.Unreadable? ==> r == Success(Active(Load(f, fmt).value))
  {
    var st :- Load(f, fmt);
    Success(Active(st))
  }

  // ---- Properties ----

  lemma RemovePreservesValid(st: SessionStorage, url: string, fmt: Formats)
    requires ValidStorage(st, fmt)
    ensures ValidStorage(Remove(st, url), fmt)
  {
    var r := Remove(st, url);
    forall i | 0 <= i < |r.sessions| ensures ValidEntry(r.sessions[i], fmt) {
      assert r.sessions[i] in st.sessions;
    }
  }

  /** An upsert of a schema-valid entry into schema-valid storage is schema-valid. */
  lemma UpsertPreservesValid(st: SessionStorage, e: SessionEntry, fmt: Formats)
    requires ValidStorage(st, fmt) && ValidEntry(e, fmt)
    ensures ValidStorage(Upsert(st, e), fmt)
  {
    var r := Upsert(st, e);
    forall i | 0 <= i < |r.sessions| ensures ValidEntry(r.sessions[i], fmt) {
      if i < |st.sessions| && r.sessions[i] != e {
        assert r.sessions[i] == st.sessions[i];
      }
    }
  }

  /** `addSession` on a readable file with a schema-valid entry always writes. */
  lemma AddSessionSucceeds(f: SessionFile, e: SessionEntry, fmt: Formats)
    requires !f.Unreadable? && ValidEntry(e, fmt)
    ensures AddSession(f, e, fmt).Success?
    ensures GetActiveSession(AddSession(f, e, fmt).value, fmt) == Success(Some(e))
  {
    UpsertPreservesValid(Load(f, fmt).value, e, fmt);
    AddSessionThenActive(f, e, fmt);
  }

  /** After an upsert the active session is exactly the entry just added. */
  lemma UpsertThenActive(st: SessionStorage, e: SessionEntry)
    ensures Active(Upsert(st, e)) == Some(e)
  {
    var r := Upsert(st, e);
    match FindIndex(st.sessions, e.instanceUrl)
    case Some(k) =>
      assert FindIndex(r.sessions, e.instanceUrl) == Some(k) by {
        FindIndexFirst(r.sessions, e.instanceUrl, k);
      }
    case None =>
      FindIndexFirst(r.sessions, e.instanceUrl, |st.sessions|);
  }

  lemma FindIndexFirst(ss: seq<SessionEntry>, url: string, k: nat)
    requires k < |ss| && ss[k].instanceUrl == url
    requires forall j :: 0 <= j < k ==> ss[j].instanceUrl != url
    ensures FindIndex(ss, url) == Some(k)
  {
  }

  /** An upsert keeps instance URLs unique, and the added URL has exactly one entry. */
  lemma UpsertKeepsUnique(st: SessionStorage, e: SessionEntry)
    requires UniqueUrls(st.sessions)
    ensures UniqueUrls(Upsert(st, e).sessions)
    ensures forall j :: 0 <= j < |Upsert(st, e).sessions| && Upsert(st, e).sessions[j].instanceUrl == e.instanceUrl ==>
      Upsert(st, e).sessions[j] == e
  {
  }

  /** An upsert leaves the entry of every other instance URL as it was. */
  lemma UpsertLeavesOthers(st: SessionStorage, e: SessionEntry, url: string)
    requires url != e.instanceUrl
    ensures Lookup(Upsert(st, e), url) == Lookup(st, url)
  {
    var r := Upsert(st, e);
    match FindIndex(st.sessions, url)
    case Some(k) => FindIndexFirst(r.sessions, url, k);
    case None =>
  }

  /** Upserts and removals keep the active pointer on a stored entry. */
  lemma UpsertKeepsPointer(st: SessionStorage, e: SessionEntry)
    ensures PointerConsistent(Upsert(st, e))
  {
    var r := Upsert(st, e);
    match FindIndex(st.sessions, e.instanceUrl)
    case Some(k) => assert r.sessions[k].instanceUrl == e.instanceUrl;
    case None => assert r.sessions[|st.sessions|].instanceUrl == e.instanceUrl;
  }

  lemma RemoveKeepsPointer(st: SessionStorage, url: string)
    requires PointerConsistent(st)
    ensures PointerConsistent(Remove(st, url))
  {
    var r := Remove(st, url);
    if r.activeContext.Some? {
      if st.activeContext == Some(ActiveContext(url)) {
        assert r.sessions[0].instanceUrl == r.activeContext.value.instanceUrl;
      } else {
        var u := st.activeContext.value.instanceUrl;
        var j :| 0 <= j < |st.sessions| && st.sessions[j].instanceUrl == u;
        assert st.sessions[j] in r.sessions;
        var i :| 0 <= i < |r.sessions| && r.sessions[i] == st.sessions[j];
        assert r.sessions[i].instanceUrl == u;
      }
    }
  }

  /** Filtering distributes over concatenation, so the survivors keep their relative order. */
  lemma {:induction false} WithoutAppend(a: seq<SessionEntry>, b: seq<SessionEntry>, url: string)
    ensures Without(a + b, url) == Without(a, url) + Without(b, url)
    decreases |a|
  {
    if |a| == 0 {
      assert a + b == b;
    } else {
      assert (a + b)[1..] == a[1..] + b;
      WithoutAppend(a[1..], b, url);
    }
  }

  /** Removing a URL that has no entry leaves the entries untouched. */
  lemma {:induction false} WithoutAbsent(ss: seq<SessionEntry>, url: string)
    requires forall j :: 0 <= j < |ss| ==> ss[j].instanceUrl != url
    ensures Without(ss, url) == ss
    decreases |ss|
  {
    if |ss| > 0 {
      WithoutAbsent(ss[1..], url);
      assert [ss[0]] + ss[1..] == ss;
    }
  }

  /** Removing the only entry, when it is active, gives empty storage. */
  lemma RemoveOnly(e: SessionEntry)
    ensures Remove(SessionStorage([e], Some(ActiveContext(e.instanceUrl))), e.instanceUrl) == EmptyStorage()
  {
  }

  /**
   * With a consistent pointer there is an active session exactly when some
   * session is stored; only a dangling pointer makes a non-empty store have none.
   */
  lemma ActiveExistsWhenConsistent(st: SessionStorage)
    requires PointerConsistent(st)
    ensures Active(st).Some? <==> |st.sessions| > 0
  {
  }

  /** A dangling pointer yields no active session even when entries exist. */
  lemma DanglingPointerHasNoActive(e: SessionEntry, url: string)
    requires url != e.instanceUrl
    ensures Active(SessionStorage([e], Some(ActiveContext(url)))) == None
  {
  }

  /** The schema admits two entries for the same URL; uniqueness comes only from Upsert. */
  lemma SchemaAllowsDuplicates(e: SessionEntry, fmt: Formats)
    requires ValidEntry(e, fmt)
    ensures ValidStorage(SessionStorage([e, e], None), fmt)
    ensures !UniqueUrls([e, e])
  {
    assert [e, e][0].instanceUrl == [e, e][1].instanceUrl;
  }

  /** The file round trip of `addSession`: reading the file back finds the entry active. */
  lemma AddSessionThenActive(f: SessionFile, e: SessionEntry, fmt: Formats)
    requires AddSession(f, e, fmt).Success?
    ensures GetActiveSession(AddSession(f, e, fmt).value, fmt) == Success(Some(e))
  {
    var st := Load(f, fmt).value;
    UpsertThenActive(st, e);
  }
}
