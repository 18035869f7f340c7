/**
 * The web app's secrets procedures: list, create, update and delete. Each
 * runs the session gate, then the input schema, then the permission check,
 * and only then touches the database; database work inside a transaction
 * either happens completely or not at all.
 */
module WebSecrets {
  import opened Wrappers
  import opened Text
  import opened DbSchema
  import DbUtils
  import opened Permissions
  import opened Trpc
  import opened WebValidators

  /** What an update reports as the value when it did not change it. */
  const Mask := "••••••••••••"
  const PlaceholderKeyId := "default-key"
  const DuplicateKeyMessage := "A secret with this key already exists in this project"
  /** The database after a procedure, and what it returned or threw. */
  datatype Reply<T> = Reply(db: Db, result: Result<T, TrpcError>)

  /** A secret row with the value shown to the user. */
  datatype SecretView = SecretView(row: Secret, value: string)

  /** How a failed write of a secret surfaces: a duplicate key as a field error, anything else as an internal error. */
  function WriteFailure(e: DbUtils.DbError, internal: string): (r: TrpcError)
    ensures DbUtils.IsUniqueConstraintError(e, UniqueSecretKey) ==>
      r == TrpcError(BadRequest, DuplicateKeyMessage,
                     FieldErrorCause(FieldError("key", UniqueViolationType, DuplicateKeyMessage)))
    ensures !DbUtils.IsUniqueConstraintError(e, UniqueSecretKey) ==> r == TrpcError(InternalServerError, internal, NoCause)
  {
    if DbUtils.IsUniqueConstraintError(e, UniqueSecretKey) then
      TrpcError(BadRequest, DuplicateKeyMessage, FieldErrorCause(FieldError("key", UniqueViolationType, DuplicateKeyMessage)))
    else TrpcError(InternalServerError, internal, NoCause)
  }

  // ---- The version invariant ----

  /** The secret `s` has a version row numbered `n`. */
  predicate HasVersion(db: Db, secretId: string, n: int) {
    Taken(db.versions, VersionKey, (secretId, n))
  }

  /**
   * What the procedures keep besides the table constraints: every secret's
   * current version exists, and no version of a secret is numbered above
   * its current version or below 1.
   */
  predicate VersionsConsistent(db: Db) {
    && (forall i :: 0 <= i < |db.secrets| ==>
          db.secrets[i].currentVersion >= 1 && HasVersion(db, db.secrets[i].id, db.secrets[i].currentVersion))
    && (forall k :: 0 <= k < |db.versions| ==> 1 <= db.versions[k].version)
    && (forall k, i :: 0 <= k < |db.versions| && 0 <= i < |db.secrets| && db.versions[k].secretId == db.secrets[i].id ==>
          db.versions[k].version <= db.secrets[i].currentVersion)
  }

  predicate Consistent(db: Db) {
    WellFormed(db) && VersionsConsistent(db)
  }

  // ---- list ----

  function ListViews(db: Db, rows: seq<Secret>): (r: seq<SecretView>)
    ensures |r| == |rows|
    ensures forall i :: 0 <= i < |rows| ==> r[i] == SecretView(rows[i], CurrentValue(db, rows[i]))
  {
    seq(|rows|, i requires 0 <= i < |rows| => SecretView(rows[i], CurrentValue(db, rows[i])))
  }

  /** `secrets.list`: the project's secrets with their current values. */
  function List(db: Db, c: Caller, projectId: string): (r: Result<seq<SecretView>, TrpcError>)
    ensures r.Success? <==> c.session.Some? && ValidListSecrets(projectId) && Allows(c.role, SecretResource, Read)
    ensures r.Success? ==> forall v :: v in r.value ==> v.row in db.secrets && v.row.projectId == projectId
    ensures r.Success? ==> forall s :: s in db.secrets && s.projectId == projectId ==> SecretView(s, CurrentValue(db, s)) in r.value
  {
    var _ :- Gate(c, SecretResource, ValidListSecrets(projectId), Read, "You don't have permission to view secrets in this project");
    var rows := Filter(db.secrets, (s: Secret) => s.projectId == projectId);
    var views := ListViews(db, rows);
    assert forall s :: s in rows ==> exists i :: 0 <= i < |rows| && rows[i] == s;
    forall v | v in views ensures v.row in rows {
      var i :| 0 <= i < |views| && views[i] == v;
      assert rows[i] in rows;
    }
    Success(views)
  }

  // ---- create ----

  /** Fresh primary keys and the clock for one write. */
  datatype Fresh = Fresh(secretId: string, versionId: string, now: int)

  /** The row `secrets.create` inserts. */
  function NewSecret(i: CreateSecretInput, userId: string, f: Fresh): (s: Secret)
    ensures s.currentVersion == 1 && s.key == i.key && s.projectId == i.projectId && s.description == i.description
  {
    Secret(f.secretId, i.projectId, i.key, i.description, userId, 1, f.now, f.now)
  }

  function NewVersion(secretId: string, n: int, value: string, userId: string, versionId: string, now: int)
    : (v: SecretVersion)
    ensures v.secretId == secretId && v.version == n && v.encryptedValue == value
  {
    SecretVersion(versionId, secretId, n, value, PlaceholderKeyId, userId, now)
  }

  /**
   * What the database demands of a new secret: its id and version id are
   * unused, its key is free in the project, the project exists, and no stray
   * version row already claims version 1 of the new id.
   */
  predicate CreateAdmissible(db: Db, i: CreateSecretInput, f: Fresh) {
    && !HasSecret(db, f.secretId) && !Taken(db.secrets, SecretKey, (i.projectId, i.key)) && HasProject(db, i.projectId)
    && !Taken(db.versions, VersionId, f.versionId) && !Taken(db.versions, VersionKey, (f.secretId, 1))
  }

  /** The transaction of `secrets.create`: the secret row, then its version 1. */
  function CreateTx(db: Db, i: CreateSecretInput, userId: string, f: Fresh): (r: Result<Db, Violation>)
    ensures r.Success? <==> CreateAdmissible(db, i, f)
    ensures r.Success? ==>
      r.value == db.(secrets := db.secrets + [NewSecret(i, userId, f)],
                     versions := db.versions + [NewVersion(f.secretId, 1, i.value, userId, f.versionId, f.now)])
    ensures !HasSecret(db, f.secretId) && Taken(db.secrets, SecretKey, (i.projectId, i.key)) ==>
      r == Failure(Violation(UniqueViolation, UniqueSecretKey))
  {
    var s := NewSecret(i, userId, f);
    var db1 :- InsertSecret(db, s);
    assert db1.secrets[|db.secrets|] == s;
    InsertVersion(db1, NewVersion(f.secretId, 1, i.value, userId, f.versionId, f.now))
  }

  /** `secrets.create`. */
  function Create(db: Db, c: Caller, i: CreateSecretInput, f: Fresh): (r: Reply<SecretView>)
    ensures r.result.Failure? ==> r.db == db
    ensures c.session.None? ==> r.result == Failure(AuthenticationRequired)
    ensures c.session.Some? && ValidCreateSecret(i) && !Allows(c.role, SecretResource, Action.Create) ==>
      r.result.Failure? && r.result.error.code == Forbidden
    ensures r.result.Success? ==>
      && c.session.Some? && ValidCreateSecret(i) && Allows(c.role, SecretResource, Action.Create)
      && r.result.value == SecretView(NewSecret(i, c.session.value.userId, f), i.value)
      && r.db.secrets == db.secrets + [NewSecret(i, c.session.value.userId, f)]
      && r.db.versions == db.versions + [NewVersion(f.secretId, 1, i.value, c.session.value.userId, f.versionId, f.now)]
      && r.db.projects == db.projects
    ensures r.result.Success? <==>
      c.session.Some? && ValidCreateSecret(i) && Allows(c.role, SecretResource, Action.Create) && CreateAdmissible(db, i, f)
    ensures c.session.Some? && ValidCreateSecret(i) && Allows(c.role, SecretResource, Action.Create)
            && !HasSecret(db, f.secretId) && Taken(db.secrets, SecretKey, (i.projectId, i.key)) ==>
      r.result.Failure? && r.result.error.code == BadRequest
      && FormatError(r.result.error).fieldError == Some(FieldErrorCause(FieldError("key", UniqueViolationType, DuplicateKeyMessage)))
  {
    match Gate(c, SecretResource, ValidCreateSecret(i), Action.Create, "You don't have permission to create secrets in this project")
    case Failure(e) => Reply(db, Failure(e))
    case Success(s) =>
      match CreateTx(db, i, s.userId, f)
      case Failure(v) => Reply(db, Failure(WriteFailure(DbUtils.QueryError(v), "Failed to create secret")))
      case Success(db') => Reply(db', Success(SecretView(NewSecret(i, s.userId, f), i.value)))
  }

  // ---- update ----

  /** The row after the metadata update: key and description only where given, and the new timestamp. */
  function Patched(cur: Secret, i: UpdateSecretInput, now: int): (s: Secret)
    ensures s.id == cur.id && s.projectId == cur.projectId && s.currentVersion == cur.currentVersion
    ensures s.createdAt == cur.createdAt && s.createdBy == cur.createdBy && s.updatedAt == now
    ensures s.key == (if i.key.Put? then i.key.value else cur.key)
    ensures s.description == (if i.description.Put? then i.description.value else cur.description)
  {
    cur.(key := if i.key.Put? then i.key.value else cur.key,
         description := if i.description.Put? then i.description.value else cur.description,
         updatedAt := now)
  }

  /** `SET current_version = n` on the row at `k`: no constraint covers that column. */
  function SetCurrentVersion(db: Db, k: nat, n: int): (r: Db)
    requires k < |db.secrets|
    ensures r.secrets == db.secrets[k := db.secrets[k].(currentVersion := n)]
    ensures r.versions == db.versions && r.projects == db.projects
  {
    db.(secrets := db.secrets[k := db.secrets[k].(currentVersion := n)])
  }

  /** No other secret of the project already has the key the patched row at `k` would carry. */
  predicate KeyFreeForUpdate(db: Db, k: nat, i: UpdateSecretInput, now: int)
    requires k < |db.secrets|
  {
    forall j :: 0 <= j < |db.secrets| && j != k ==> SecretKey(db.secrets[j]) != SecretKey(Patched(db.secrets[k], i, now))
  }

  /** What the database demands of an update of the row at `k`: a free key and, with a new value, an unused version. */
  predicate UpdateAdmissible(db: Db, k: nat, i: UpdateSecretInput, f: Fresh)
    requires k < |db.secrets|
  {
    && KeyFreeForUpdate(db, k, i, f.now)
    && (i.value.Put? ==>
          && !Taken(db.versions, VersionId, f.versionId)
          && !Taken(db.versions, VersionKey, (i.id, db.secrets[k].currentVersion + 1)))
  }

  /** The transaction of `secrets.update`, given the current row at `k`; it returns the row of the first update. */
  function UpdateTx(db: Db, k: nat, i: UpdateSecretInput, userId: string, f: Fresh): (r: Result<(Db, Secret), Violation>)
    requires k < |db.secrets| && db.secrets[k].id == i.id
    ensures r.Success? <==> UpdateAdmissible(db, k, i, f)
    ensures !KeyFreeForUpdate(db, k, i, f.now) ==> r == Failure(Violation(UniqueViolation, UniqueSecretKey))
    ensures r.Success? ==> r.value.1 == Patched(db.secrets[k], i, f.now)
    ensures r.Success? && i.value.Keep? ==> r.value.0 == db.(secrets := db.secrets[k := r.value.1])
    ensures r.Success? && i.value.Put? ==>
      var n := db.secrets[k].currentVersion + 1;
      r.value.0 == db.(secrets := db.secrets[k := r.value.1.(currentVersion := n)],
                       versions := db.versions + [NewVersion(i.id, n, i.value.value, userId, f.versionId, f.now)])
  {
    var cur := db.secrets[k];
    var row := Patched(cur, i, f.now);
    var db1 :- UpdateSecretRow(db, k, row);
    assert db1.secrets[k].id == i.id;
    match i.value
    case Keep => Success((db1, row))
    case Put(value) =>
      var n := cur.currentVersion + 1;
      var db2 :- InsertVersion(db1, NewVersion(i.id, n, value, userId, f.versionId, f.now));
      Success((SetCurrentVersion(db2, k, n), row))
  }

  const SecretNotFound := TrpcError(NotFound, "Secret not found", NoCause)

  /**
   * `secrets.update`. A missing secret raises NOT_FOUND inside the `try`,
   * whose handler turns every error that is not a duplicate key into
   * INTERNAL_SERVER_ERROR.
   */
  function Update(db: Db, c: Caller, i: UpdateSecretInput, f: Fresh): (r: Reply<SecretView>)
    ensures r.result.Failure? ==> r.db == db
    ensures c.session.None? ==> r.result == Failure(AuthenticationRequired)
    ensures c.session.Some? && ValidUpdateSecret(i) && !Allows(c.role, SecretResource, Action.Update) ==>
      r.result.Failure? && r.result.error.code == Forbidden
    ensures c.session.Some? && ValidUpdateSecret(i) && Allows(c.role, SecretResource, Action.Update) && !HasSecret(db, i.id) ==>
      r.result == Failure(TrpcError(InternalServerError, "Failed to update secret", NoCause))
    ensures r.result.Success? ==>
      && c.session.Some? && ValidUpdateSecret(i) && Allows(c.role, SecretResource, Action.Update) && HasSecret(db, i.id)
      && r.result.value.value == (if i.value.Put? then i.value.value else Mask)
    ensures c.session.Some? && ValidUpdateSecret(i) && Allows(c.role, SecretResource, Action.Update) && HasSecret(db, i.id) ==>
      var k := FindSecret(db, i.id).value;
      && (r.result.Success? <==> UpdateAdmissible(db, k, i, f))
      && (r.result.Success? ==> r.result.value.row == Patched(db.secrets[k], i, f.now)
                                && r.db == UpdateTx(db, k, i, c.session.value.userId, f).value.0)
    ensures c.session.Some? && ValidUpdateSecret(i) && Allows(c.role, SecretResource, Action.Update) && HasSecret(db, i.id)
            && !KeyFreeForUpdate(db, FindSecret(db, i.id).value, i, f.now) ==>
      r.result.Failure? && r.result.error.code == BadRequest
      && FormatError(r.result.error).fieldError == Some(FieldErrorCause(FieldError("key", UniqueViolationType, DuplicateKeyMessage)))
  {
    match Gate(c, SecretResource, ValidUpdateSecret(i), Action.Update, "You don't have permission to update secrets in this project")
    case Failure(e) => Reply(db, Failure(e))
    case Success(s) =>
      match FindSecret(db, i.id)
      case None => Reply(db, Failure(WriteFailure(DbUtils.OtherError(SecretNotFound.message), "Failed to update secret")))
      case Some(k) =>
        match UpdateTx(db, k, i, s.userId, f)
        case Failure(v) => Reply(db, Failure(WriteFailure(DbUtils.QueryError(v), "Failed to update secret")))
        case Success((db', row)) =>
          Reply(db', Success(SecretView(row, if i.value.Put? then OrElse(i.value.value, Mask) else Mask)))
  }

  // ---- delete ----

  const DeleteForbidden := "You don't have permission to delete secrets in this project"

  /** The body of `secrets.delete` after its gate: the row and, by cascade, its versions. */
  function DeleteAfterGate(db: Db, g: Result<WebSession, TrpcError>, id: string): Reply<bool> {
    match g
    case Failure(e) => Reply(db, Failure(e))
    case Success(_) =>
      var (db', deleted) := DeleteSecret(db, id);
      if |deleted| == 0 then Reply(db, Failure(TrpcError(InternalServerError, "Failed to delete secret", NoCause)))
      else Reply(db', Success(true))
  }

  /**
   * `secrets.delete` with the permission test the router evidently intends:
   * the row and, by cascade, its versions. A missing row is an internal error.
   */
  function Delete(db: Db, c: Caller, id: string): (r: Reply<bool>)
    ensures r.result.Failure? ==> r.db == db
    ensures c.session.None? ==> r.result == Failure(AuthenticationRequired)
    ensures c.session.Some? && ValidDeleteSecret(id) && !Allows(c.role, SecretResource, Action.Delete) ==>
      r.result == Failure(TrpcError(Forbidden, DeleteForbidden, NoCause))
    ensures r.result.Success? <==>
      c.session.Some? && ValidDeleteSecret(id) && Allows(c.role, SecretResource, Action.Delete) && HasSecret(db, id)
    ensures r.result.Success? ==> r.result.value && r.db == DeleteSecret(db, id).0
    ensures c.session.Some? && ValidDeleteSecret(id) && Allows(c.role, SecretResource, Action.Delete) && !HasSecret(db, id) ==>
      r.result == Failure(TrpcError(InternalServerError, "Failed to delete secret", NoCause))
  {
    DeleteAfterGate(db, Gate(c, SecretResource, ValidDeleteSecret(id), Action.Delete, DeleteForbidden), id)
  }

  /** `secrets.delete` as written: its `!hasPermission` test on the reply object never refuses. */
  function DeleteAsWritten(db: Db, c: Caller, id: string): (r: Reply<bool>)
    ensures r.result.Success? <==> c.session.Some? && ValidDeleteSecret(id) && HasSecret(db, id)
    ensures r.result.Success? ==> r.db == DeleteSecret(db, id).0
    ensures r.result.Failure? ==> r.db == db
  {
    DeleteAfterGate(db, GateAsWritten(c, SecretResource, ValidDeleteSecret(id), Action.Delete, DeleteForbidden), id)
  }

  // ---- Properties ----

  /** Changing only `current_version` keeps every table constraint. */
  lemma SetCurrentVersionKeepsWellFormed(db: Db, k: nat, n: int)
    requires WellFormed(db) && k < |db.secrets|
    ensures WellFormed(SetCurrentVersion(db, k, n))
  {
    var r := SetCurrentVersion(db, k, n);
    assert forall j :: 0 <= j < |r.secrets| ==> SecretId(r.secrets[j]) == SecretId(db.secrets[j]);
    assert forall j :: 0 <= j < |r.secrets| ==> SecretKey(r.secrets[j]) == SecretKey(db.secrets[j]);
    forall v | 0 <= v < |r.versions| ensures HasSecret(r, r.versions[v].secretId) {
      var j :| 0 <= j < |db.secrets| && SecretId(db.secrets[j]) == r.versions[v].secretId;
      assert SecretId(r.secrets[j]) == SecretId(db.secrets[j]);
    }
    forall j | 0 <= j < |r.secrets| ensures HasProject(r, r.secrets[j].projectId) {
      assert r.secrets[j].projectId == db.secrets[j].projectId;
    }
  }

  /** After appending a secret with its first version, every secret's current version exists. */
  lemma AppendedCurrentVersionsExist(db: Db, d: Db, s: Secret, v: SecretVersion)
    requires VersionsConsistent(db)
    requires d.secrets == db.secrets + [s] && d.versions == db.versions + [v]
    requires s.currentVersion == 1 && v.secretId == s.id && v.version == 1
    ensures forall j :: 0 <= j < |d.secrets| ==>
      d.secrets[j].currentVersion >= 1 && HasVersion(d, d.secrets[j].id, d.secrets[j].currentVersion)
  {
    forall j | 0 <= j < |d.secrets|
      ensures d.secrets[j].currentVersion >= 1 && HasVersion(d, d.secrets[j].id, d.secrets[j].currentVersion)
    {
      if j < |db.secrets| {
        assert d.secrets[j] == db.secrets[j];
        AppendTaken(db.versions, v, VersionKey, (db.secrets[j].id, db.secrets[j].currentVersion));
      } else {
        assert d.versions[|db.versions|] == v;
      }
    }
  }

  /** After appending a secret with its first version, no version exceeds its secret's current one. */
  lemma AppendedVersionsBounded(db: Db, d: Db, s: Secret, v: SecretVersion)
    requires VersionsConsistent(db)
    requires d.secrets == db.secrets + [s] && d.versions == db.versions + [v]
    requires s.currentVersion == 1 && v.secretId == s.id && v.version == 1
    requires forall k :: 0 <= k < |db.versions| ==> db.versions[k].secretId != s.id
    requires forall j :: 0 <= j < |db.secrets| ==> db.secrets[j].id != s.id
    ensures forall k, j :: 0 <= k < |d.versions| && 0 <= j < |d.secrets| && d.versions[k].secretId == d.secrets[j].id ==>
      d.versions[k].version <= d.secrets[j].currentVersion
  {
    forall k, j | 0 <= k < |d.versions| && 0 <= j < |d.secrets| && d.versions[k].secretId == d.secrets[j].id
      ensures d.versions[k].version <= d.secrets[j].currentVersion
    {
      if k < |db.versions| {
        assert d.versions[k] == db.versions[k];
        if j < |db.secrets| {
          assert d.secrets[j] == db.secrets[j];
        }
      }
    }
  }

  /** `secrets.create` keeps the constraints and the version invariant. */
  lemma CreateKeepsConsistent(db: Db, c: Caller, i: CreateSecretInput, f: Fresh)
    requires Consistent(db)
    ensures Consistent(Create(db, c, i, f).db)
  {
    var r := Create(db, c, i, f);
    if r.result.Success? {
      var userId := c.session.value.userId;
      var s := NewSecret(i, userId, f);
      var v := NewVersion(f.secretId, 1, i.value, userId, f.versionId, f.now);
      var db1 := InsertSecret(db, s).value;
      InsertSecretKeepsWellFormed(db, s);
      InsertVersionKeepsWellFormed(db1, v);
      var d := r.db;
      // No existing version belongs to the new secret, and no existing secret has its id.
      forall k | 0 <= k < |db.versions| ensures db.versions[k].secretId != s.id {
        assert HasSecret(db, db.versions[k].secretId);
      }
      forall j | 0 <= j < |db.secrets| ensures db.secrets[j].id != s.id {
        assert SecretId(db.secrets[j]) == db.secrets[j].id;
      }
      AppendedCurrentVersionsExist(db, d, s, v);
      AppendedVersionsBounded(db, d, s, v);
    }
  }

  /** Rewriting a secret row without touching its id, project or current version keeps the invariant. */
  lemma RowUpdateKeepsConsistent(db: Db, k: nat, row: Secret)
    requires Consistent(db) && k < |db.secrets|
    requires row.id == db.secrets[k].id && row.projectId == db.secrets[k].projectId
    requires row.currentVersion == db.secrets[k].currentVersion
    requires UpdateSecretRow(db, k, row).Success?
    ensures Consistent(UpdateSecretRow(db, k, row).value)
  {
    UpdateSecretRowKeepsWellFormed(db, k, row);
    var d := UpdateSecretRow(db, k, row).value;
    assert d.versions == db.versions;
    forall j | 0 <= j < |d.secrets|
      ensures d.secrets[j].id == db.secrets[j].id && d.secrets[j].currentVersion == db.secrets[j].currentVersion
    {
      if j != k {
        assert d.secrets[j] == db.secrets[j];
      }
    }
  }

  /**
   * Inserting version `cv + 1` of the secret at `k` and then making it
   * current keeps the invariant.
   */
  lemma BumpKeepsConsistent(db: Db, k: nat, v: SecretVersion)
    requires Consistent(db) && k < |db.secrets|
    requires v.secretId == db.secrets[k].id && v.version == db.secrets[k].currentVersion + 1
    requires InsertVersion(db, v).Success?
    ensures Consistent(SetCurrentVersion(InsertVersion(db, v).value, k, v.version))
  {
    var db2 := InsertVersion(db, v).value;
    InsertVersionKeepsWellFormed(db, v);
    SetCurrentVersionKeepsWellFormed(db2, k, v.version);
    var d := SetCurrentVersion(db2, k, v.version);
    assert d.versions == db.versions + [v];
    assert d.versions[|db.versions|] == v;
    forall j | 0 <= j < |d.secrets|
      ensures d.secrets[j].currentVersion >= 1 && HasVersion(d, d.secrets[j].id, d.secrets[j].currentVersion)
    {
      if j != k {
        assert d.secrets[j] == db.secrets[j];
        AppendTaken(db.versions, v, VersionKey, (db.secrets[j].id, db.secrets[j].currentVersion));
      }
    }
    // Only the secret at `k` owns the new version.
    forall j | 0 <= j < |d.secrets| && j != k ensures d.secrets[j].id != v.secretId {
      assert d.secrets[j] == db.secrets[j];
      if j < k {
        assert SecretId(db.secrets[j]) != SecretId(db.secrets[k]);
      } else {
        assert SecretId(db.secrets[k]) != SecretId(db.secrets[j]);
      }
    }
    forall x, j | 0 <= x < |d.versions| && 0 <= j < |d.secrets| && d.versions[x].secretId == d.secrets[j].id
      ensures d.versions[x].version <= d.secrets[j].currentVersion
    {
      if x < |db.versions| {
        assert d.versions[x] == db.versions[x];
        assert d.secrets[j].id == db.secrets[j].id;
      }
    }
  }

  /** The update transaction keeps the invariant. */
  lemma UpdateTxKeepsConsistent(db: Db, k: nat, i: UpdateSecretInput, userId: string, f: Fresh)
    requires Consistent(db) && k < |db.secrets| && db.secrets[k].id == i.id
    requires UpdateTx(db, k, i, userId, f).Success?
    ensures Consistent(UpdateTx(db, k, i, userId, f).value.0)
  {
    var row := Patched(db.secrets[k], i, f.now);
    assert UpdateSecretRow(db, k, row).Success?;
    var db1 := UpdateSecretRow(db, k, row).value;
    RowUpdateKeepsConsistent(db, k, row);
    if i.value.Put? {
      var v := NewVersion(i.id, db.secrets[k].currentVersion + 1, i.value.value, userId, f.versionId, f.now);
      assert InsertVersion(db1, v).Success?;
      assert UpdateTx(db, k, i, userId, f).value.0 == SetCurrentVersion(InsertVersion(db1, v).value, k, v.version);
      BumpKeepsConsistent(db1, k, v);
    } else {
      assert UpdateTx(db, k, i, userId, f).value.0 == db1;
    }
  }

  /** `secrets.update` keeps the constraints and the version invariant. */
  lemma UpdateKeepsConsistent(db: Db, c: Caller, i: UpdateSecretInput, f: Fresh)
    requires Consistent(db)
    ensures Consistent(Update(db, c, i, f).db)
  {
    var r := Update(db, c, i, f);
    if r.result.Success? {
      var k := FindSecret(db, i.id).value;
      UpdateTxKeepsConsistent(db, k, i, c.session.value.userId, f);
    }
  }

  /**
   * Dropping the rows of one secret id from both tables keeps the version
   * invariant: every surviving secret keeps all of its versions.
   */
  lemma DropKeepsVersionsConsistent(db: Db, d: Db, id: string)
    requires VersionsConsistent(db)
    requires forall s :: s in d.secrets ==> s in db.secrets && s.id != id
    requires forall v :: v in d.versions <==> v in db.versions && v.secretId != id
    ensures VersionsConsistent(d)
  {
    forall j | 0 <= j < |d.secrets|
      ensures d.secrets[j].currentVersion >= 1 && HasVersion(d, d.secrets[j].id, d.secrets[j].currentVersion)
    {
      var s := d.secrets[j];
      assert s in d.secrets;
      var m :| 0 <= m < |db.secrets| && db.secrets[m] == s;
      var x :| 0 <= x < |db.versions| && VersionKey(db.versions[x]) == (s.id, s.currentVersion);
      assert db.versions[x] in d.versions;
      var y :| 0 <= y < |d.versions| && d.versions[y] == db.versions[x];
    }
    forall k | 0 <= k < |d.versions| ensures 1 <= d.versions[k].version {
      assert d.versions[k] in d.versions;
    }
    forall x, j | 0 <= x < |d.versions| && 0 <= j < |d.secrets| && d.versions[x].secretId == d.secrets[j].id
      ensures d.versions[x].version <= d.secrets[j].currentVersion
    {
      assert d.versions[x] in d.versions && d.secrets[j] in d.secrets;
      var a :| 0 <= a < |db.versions| && db.versions[a] == d.versions[x];
      var b :| 0 <= b < |db.secrets| && db.secrets[b] == d.secrets[j];
    }
  }

  /** Deleting a secret keeps the invariant. */
  lemma DeleteSecretKeepsConsistent(db: Db, id: string)
    requires Consistent(db)
    ensures Consistent(DeleteSecret(db, id).0)
  {
    DeleteSecretKeepsWellFormed(db, id);
    var d := DeleteSecret(db, id).0;
    forall s | s in d.secrets ensures s in db.secrets && s.id != id {
      assert !HasSecret(d, id);
      var j :| 0 <= j < |d.secrets| && d.secrets[j] == s;
    }
    DropKeepsVersionsConsistent(db, d, id);
  }

  /** `secrets.delete` keeps the constraints and the version invariant. */
  lemma DeleteKeepsConsistent(db: Db, c: Caller, id: string)
    requires Consistent(db)
    ensures Consistent(Delete(db, c, id).db)
  {
    DeleteSecretKeepsConsistent(db, id);
  }

  /** After a bump the secret at `k` shows the value of the version just inserted. */
  lemma BumpShowsValue(db: Db, k: nat, v: SecretVersion)
    requires WellFormed(db) && k < |db.secrets| && v.secretId == db.secrets[k].id
    requires InsertVersion(db, v).Success?
    ensures (var d := SetCurrentVersion(InsertVersion(db, v).value, k, v.version);
             d.secrets[k].currentVersion == v.version && CurrentValue(d, d.secrets[k]) == v.encryptedValue)
  {
    var d := SetCurrentVersion(InsertVersion(db, v).value, k, v.version);
    AppendDistinct(db.versions, v, VersionKey);
    assert d.versions[|db.versions|] == v;
    CurrentValueIs(d, d.secrets[k], |db.versions|);
  }

  /** The update transaction's effect on the versions of the secret at `k`. */
  lemma UpdateTxVersioning(db: Db, k: nat, i: UpdateSecretInput, userId: string, f: Fresh)
    requires WellFormed(db) && k < |db.secrets| && db.secrets[k].id == i.id
    requires UpdateTx(db, k, i, userId, f).Success?
    ensures (var d := UpdateTx(db, k, i, userId, f).value.0;
             && k < |d.secrets| && d.secrets[k].id == i.id
             && (i.value.Put? ==>
                   d.secrets[k].currentVersion == db.secrets[k].currentVersion + 1
                   && CurrentValue(d, d.secrets[k]) == i.value.value)
             && (i.value.Keep? ==>
                   d.versions == db.versions
                   && d.secrets[k].currentVersion == db.secrets[k].currentVersion
                   && CurrentValue(d, d.secrets[k]) == CurrentValue(db, db.secrets[k])))
  {
    var row := Patched(db.secrets[k], i, f.now);
    var db1 := UpdateSecretRow(db, k, row).value;
    if i.value.Put? {
      UpdateSecretRowKeepsWellFormed(db, k, row);
      var v := NewVersion(i.id, db.secrets[k].currentVersion + 1, i.value.value, userId, f.versionId, f.now);
      BumpShowsValue(db1, k, v);
    }
  }

  /**
   * An update that sets a value bumps the current version by one and the
   * secret then shows the new value; one that does not set a value leaves
   * the versions and the shown value alone.
   */
  lemma UpdateVersioning(db: Db, c: Caller, i: UpdateSecretInput, f: Fresh)
    requires WellFormed(db)
    requires Update(db, c, i, f).result.Success?
    ensures HasSecret(db, i.id)
    ensures (var k := FindSecret(db, i.id).value;
             var d := Update(db, c, i, f).db;
             && k < |d.secrets| && d.secrets[k].id == i.id
             && (i.value.Put? ==>
                   d.secrets[k].currentVersion == db.secrets[k].currentVersion + 1
                   && CurrentValue(d, d.secrets[k]) == i.value.value)
             && (i.value.Keep? ==>
                   d.versions == db.versions
                   && d.secrets[k].currentVersion == db.secrets[k].currentVersion
                   && CurrentValue(d, d.secrets[k]) == CurrentValue(db, db.secrets[k])))
  {
    UpdateTxVersioning(db, FindSecret(db, i.id).value, i, c.session.value.userId, f);
  }

  /** A secret just created is listed, to anyone who may read secrets, with the value it was given. */
  lemma CreateThenList(db: Db, c: Caller, i: CreateSecretInput, f: Fresh)
    requires Consistent(db)
    requires Create(db, c, i, f).result.Success?
    requires Allows(c.role, SecretResource, Read)
    ensures List(Create(db, c, i, f).db, c, i.projectId).Success?
    ensures SecretView(NewSecret(i, c.session.value.userId, f), i.value) in List(Create(db, c, i, f).db, c, i.projectId).value
  {
    var d := Create(db, c, i, f).db;
    var s := NewSecret(i, c.session.value.userId, f);
    CreateKeepsConsistent(db, c, i, f);
    assert d.versions[|db.versions|].secretId == s.id && d.versions[|db.versions|].version == 1;
    CurrentValueIs(d, s, |db.versions|);
    assert s in d.secrets by {
      assert d.secrets[|db.secrets|] == s;
    }
  }

  /**
   * A viewer, whose role grants only reading, deletes an existing secret and
   * all its versions through the router as written; the intended check
   * refuses with FORBIDDEN and leaves the database alone.
   */
  lemma ViewerDeletesAsWritten(db: Db, s: WebSession, id: string)
    requires ValidDeleteSecret(id) && HasSecret(db, id)
    ensures var r := DeleteAsWritten(db, Caller(Some(s), Some(Viewer)), id);
      r.result == Success(true) && !HasSecret(r.db, id)
    ensures Delete(db, Caller(Some(s), Some(Viewer)), id)
         == Reply(db, Failure(TrpcError(Forbidden, DeleteForbidden, NoCause)))
  {
    assert !Allows(Some(Viewer), SecretResource, Action.Delete) by {
      assert Granted(Viewer, SecretResource) == {Read};
    }
  }

  /** After a delete, neither the secret nor any of its versions remains. */
  lemma DeleteRemovesVersions(db: Db, c: Caller, id: string)
    requires Delete(db, c, id).result.Success?
    ensures !HasSecret(Delete(db, c, id).db, id)
    ensures forall v :: v in Delete(db, c, id).db.versions ==> v.secretId != id && v in db.versions
    ensures forall v :: v in db.versions && v.secretId != id ==> v in Delete(db, c, id).db.versions
  {
  }
}
