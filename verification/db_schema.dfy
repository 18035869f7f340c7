/**
 * The application tables `project`, `secret` and `secret_version`, with the
 * `organization` and `member` tables they depend on, as in-memory sequences of
 * rows. Inserts enforce the primary keys, the unique constraints and the
 * foreign keys the way PostgreSQL reports them; deletes cascade.
 */
module DbSchema {
  import opened Wrappers

  datatype Organization = Organization(id: string, name: string, slug: Option<string>)

  /** A membership row: `role` is the role name as stored. */
  datatype Member = Member(organizationId: string, userId: string, role: string)

  datatype Project = Project(
    id: string,
    organizationId: string,
    name: string,
    description: Option<string>,
    createdBy: string,
    createdAt: int,
    updatedAt: int)

  datatype Secret = Secret(
    id: string,
    projectId: string,
    key: string,
    description: Option<string>,
    createdBy: string,
    currentVersion: int,
    createdAt: int,
    updatedAt: int)

  datatype SecretVersion = SecretVersion(
    id: string,
    secretId: string,
    version: int,
    encryptedValue: string,
    encryptionKeyId: string,
    createdBy: string,
    createdAt: int)

  datatype Db = Db(
    organizations: seq<Organization>,
    members: seq<Member>,
    projects: seq<Project>,
    secrets: seq<Secret>,
    versions: seq<SecretVersion>)

  /** The column default of `secret.current_version`. */
  const DefaultCurrentVersion := 1

  /** SQLSTATE codes (PostgreSQL, appendix A): unique_violation and foreign_key_violation. */
  const UniqueViolation := "23505"
  const ForeignKeyViolation := "23503"

  const UniqueProjectName := "unique_project_name_per_org"
  const UniqueSecretKey := "unique_secret_key_per_project"
  const UniqueSecretVersion := "unique_secret_version"
  const ProjectPkey := "project_pkey"
  const SecretPkey := "secret_pkey"
  const VersionPkey := "secret_version_pkey"
  const ProjectOrganizationFk := "project_organization_id_organization_id_fk"
  const SecretProjectFk := "secret_project_id_project_id_fk"
  const VersionSecretFk := "secret_version_secret_id_secret_id_fk"

  /** The error the database raises for a rejected statement. */
  datatype Violation = Violation(code: string, constraint: string)

  // ---- Keys ----

  function ProjectId(p: Project): string { p.id }
  function ProjectName(p: Project): (string, string) { (p.organizationId, p.name) }
  function SecretId(s: Secret): string { s.id }
  function SecretKey(s: Secret): (string, string) { (s.projectId, s.key) }
  function VersionId(v: SecretVersion): string { v.id }
  function VersionKey(v: SecretVersion): (string, int) { (v.secretId, v.version) }

  /** No two rows of `s` share a key. */
  predicate DistinctBy<T, K(==)>(s: seq<T>, key: T -> K) {
    forall i, j :: 0 <= i < j < |s| ==> key(s[i]) != key(s[j])
  }

  /** Some row of `s` has key `k`. */
  predicate Taken<T, K(==)>(s: seq<T>, key: T -> K, k: K) {
    exists i :: 0 <= i < |s| && key(s[i]) == k
  }

  predicate HasOrganization(db: Db, id: string) {
    exists i :: 0 <= i < |db.organizations| && db.organizations[i].id == id
  }

  predicate HasProject(db: Db, id: string) { Taken(db.projects, ProjectId, id) }
  predicate HasSecret(db: Db, id: string) { Taken(db.secrets, SecretId, id) }

  /**
   * Primary keys, the three unique constraints and the three foreign keys
   * along the organisation-project-secret-version chain. The `created_by`
   * keys into the user table are not modelled.
   */
  predicate WellFormed(db: Db) {
    && DistinctBy(db.projects, ProjectId) && DistinctBy(db.projects, ProjectName)
    && DistinctBy(db.secrets, SecretId) && DistinctBy(db.secrets, SecretKey)
    && DistinctBy(db.versions, VersionId) && DistinctBy(db.versions, VersionKey)
    && (forall i :: 0 <= i < |db.projects| ==> HasOrganization(db, db.projects[i].organizationId))
    && (forall i :: 0 <= i < |db.secrets| ==> HasProject(db, db.secrets[i].projectId))
    && (forall i :: 0 <= i < |db.versions| ==> HasSecret(db, db.versions[i].secretId))
  }

  // ---- Sequence helpers ----

  /** The rows satisfying `keep`, in their order (a `WHERE` clause). */
  function Filter<T(!new)>(s: seq<T>, keep: T -> bool): (r: seq<T>)
    ensures |r| <= |s|
    ensures forall x :: x in r <==> x in s && keep(x)
  {
    if |s| == 0 then []
    else if keep(s[0]) then [s[0]] + Filter(s[1..], keep)
    else Filter(s[1..], keep)
  }

  lemma {:induction false} FilterDistinct<T(!new), K>(s: seq<T>, keep: T -> bool, key: T -> K)
    requires DistinctBy(s, key)
    ensures DistinctBy(Filter(s, keep), key)
  {
    if |s| > 0 {
      FilterDistinct(s[1..], keep, key);
      var rest := Filter(s[1..], keep);
      if keep(s[0]) {
        forall j | 0 <= j < |rest| ensures key(s[0]) != key(rest[j]) {
          assert rest[j] in s[1..];
        }
        ConsDistinct(s[0], rest, key);
      }
    }
  }

  lemma ConsDistinct<T, K>(x: T, s: seq<T>, key: T -> K)
    requires DistinctBy(s, key)
    requires forall j :: 0 <= j < |s| ==> key(x) != key(s[j])
    ensures DistinctBy([x] + s, key)
  {
    var r := [x] + s;
    forall i, j | 0 <= i < j < |r| ensures key(r[i]) != key(r[j]) {
      if i > 0 {
        assert r[i] == s[i - 1] && r[j] == s[j - 1];
      } else {
        assert r[j] == s[j - 1];
      }
    }
  }

  lemma AppendDistinct<T, K>(s: seq<T>, x: T, key: T -> K)
    requires DistinctBy(s, key) && !Taken(s, key, key(x))
    ensures DistinctBy(s + [x], key)
  {
    var r := s + [x];
    forall i, j | 0 <= i < j < |r| ensures key(r[i]) != key(r[j]) {
      assert r[i] == s[i];
      if j < |s| {
        assert r[j] == s[j];
      }
    }
  }

  lemma AppendTaken<T, K>(s: seq<T>, x: T, key: T -> K, k: K)
    requires Taken(s, key, k)
    ensures Taken(s + [x], key, k)
  {
    var i :| 0 <= i < |s| && key(s[i]) == k;
    assert (s + [x])[i] == s[i];
  }

  /** The first row a `WHERE` clause keeps is the first row of the table it holds for. */
  lemma {:induction false} FilterFirst<T(!new)>(s: seq<T>, keep: T -> bool)
    requires |Filter(s, keep)| > 0
    ensures exists j :: 0 <= j < |s| && keep(s[j]) && Filter(s, keep)[0] == s[j]
                        && (forall k :: 0 <= k < j ==> !keep(s[k]))
  {
    if !keep(s[0]) {
      FilterFirst(s[1..], keep);
      var j :| 0 <= j < |s[1..]| && keep(s[1..][j]) && Filter(s[1..], keep)[0] == s[1..][j]
               && (forall k :: 0 <= k < j ==> !keep(s[1..][k]));
      assert forall k :: 0 <= k < j + 1 ==> !keep(s[k]) by {
        forall k | 0 <= k < j + 1 ensures !keep(s[k]) {
          if k > 0 { assert s[k] == s[1..][k - 1]; }
        }
      }
      assert keep(s[j + 1]) && Filter(s, keep)[0] == s[j + 1];
    } else {
      assert keep(s[0]) && Filter(s, keep)[0] == s[0];
    }
  }

  lemma FilterTaken<T(!new), K>(s: seq<T>, keep: T -> bool, key: T -> K, x: T)
    requires x in s && keep(x)
    ensures Taken(Filter(s, keep), key, key(x))
  {
    var r := Filter(s, keep);
    var i :| 0 <= i < |r| && r[i] == x;
  }

  // ---- Inserts ----

  /**
   * `INSERT INTO project`: the primary key, then the unique name per
   * organisation, then the foreign key to `organization`.
   */
  function InsertProject(db: Db, p: Project): (r: Result<Db, Violation>)
    ensures r.Success? <==>
      !HasProject(db, p.id) && !Taken(db.projects, ProjectName, ProjectName(p)) && HasOrganization(db, p.organizationId)
    ensures r.Success? ==> r.value == db.(projects := db.projects + [p])
    ensures HasProject(db, p.id) ==> r == Failure(Violation(UniqueViolation, ProjectPkey))
    ensures r == Failure(Violation(UniqueViolation, UniqueProjectName)) <==>
      !HasProject(db, p.id) && Taken(db.projects, ProjectName, ProjectName(p))
    ensures !HasProject(db, p.id) && !Taken(db.projects, ProjectName, ProjectName(p)) && !HasOrganization(db, p.organizationId)
            ==> r == Failure(Violation(ForeignKeyViolation, ProjectOrganizationFk))
  {
    if HasProject(db, p.id) then Failure(Violation(UniqueViolation, ProjectPkey))
    else if Taken(db.projects, ProjectName, ProjectName(p)) then Failure(Violation(UniqueViolation, UniqueProjectName))
    else if !HasOrganization(db, p.organizationId) then Failure(Violation(ForeignKeyViolation, ProjectOrganizationFk))
    else Success(db.(projects := db.projects + [p]))
  }

  /** `INSERT INTO secret`: primary key, unique key per project, then the project foreign key. */
  function InsertSecret(db: Db, s: Secret): (r: Result<Db, Violation>)
    ensures r.Success? <==>
      !HasSecret(db, s.id) && !Taken(db.secrets, SecretKey, SecretKey(s)) && HasProject(db, s.projectId)
    ensures r.Success? ==> r.value == db.(secrets := db.secrets + [s])
    ensures HasSecret(db, s.id) ==> r == Failure(Violation(UniqueViolation, SecretPkey))
    ensures r == Failure(Violation(UniqueViolation, UniqueSecretKey)) <==>
      !HasSecret(db, s.id) && Taken(db.secrets, SecretKey, SecretKey(s))
    ensures !HasSecret(db, s.id) && !Taken(db.secrets, SecretKey, SecretKey(s)) && !HasProject(db, s.projectId)
            ==> r == Failure(Violation(ForeignKeyViolation, SecretProjectFk))
  {
    if HasSecret(db, s.id) then Failure(Violation(UniqueViolation, SecretPkey))
    else if Taken(db.secrets, SecretKey, SecretKey(s)) then Failure(Violation(UniqueViolation, UniqueSecretKey))
    else if !HasProject(db, s.projectId) then Failure(Violation(ForeignKeyViolation, SecretProjectFk))
    else Success(db.(secrets := db.secrets + [s]))
  }

  /** `INSERT INTO secret_version`: primary key, unique version per secret, then the secret foreign key. */
  function InsertVersion(db: Db, v: SecretVersion): (r: Result<Db, Violation>)
    ensures r.Success? <==>
      !Taken(db.versions, VersionId, v.id) && !Taken(db.versions, VersionKey, VersionKey(v)) && HasSecret(db, v.secretId)
    ensures r.Success? ==> r.value == db.(versions := db.versions + [v])
    ensures Taken(db.versions, VersionId, v.id) ==> r == Failure(Violation(UniqueViolation, VersionPkey))
    ensures !Taken(db.versions, VersionId, v.id) && Taken(db.versions, VersionKey, VersionKey(v))
            ==> r == Failure(Violation(UniqueViolation, UniqueSecretVersion))
  {
    if Taken(db.versions, VersionId, v.id) then Failure(Violation(UniqueViolation, VersionPkey))
    else if Taken(db.versions, VersionKey, VersionKey(v)) then Failure(Violation(UniqueViolation, UniqueSecretVersion))
    else if !HasSecret(db, v.secretId) then Failure(Violation(ForeignKeyViolation, VersionSecretFk))
    else Success(db.(versions := db.versions + [v]))
  }

  /** The position of the row with primary key `id` (`WHERE id = ... LIMIT 1`). */
  function FindSecret(db: Db, id: string): (r: Option<nat>)
    ensures r.Some? ==> r.value < |db.secrets| && db.secrets[r.value].id == id
    ensures r.None? <==> !HasSecret(db, id)
  {
    FindFrom(db.secrets, id, 0)
  }

  function FindFrom(ss: seq<Secret>, id: string, from: nat): (r: Option<nat>)
    requires from <= |ss|
    ensures r.Some? ==> from <= r.value < |ss| && ss[r.value].id == id
    ensures r.None? <==> forall j :: from <= j < |ss| ==> ss[j].id != id
    decreases |ss| - from
  {
    if from == |ss| then None
    else if ss[from].id == id then Some(from)
    else FindFrom(ss, id, from + 1)
  }

  /**
   * `UPDATE secret SET ... WHERE id = ...` on the row at `i`, which keeps its
   * id and project; only the unique key per project can reject it.
   */
  function UpdateSecretRow(db: Db, i: nat, s: Secret): (r: Result<Db, Violation>)
    requires i < |db.secrets| && s.id == db.secrets[i].id && s.projectId == db.secrets[i].projectId
    ensures r.Success? <==> forall j :: 0 <= j < |db.secrets| && j != i ==> SecretKey(db.secrets[j]) != SecretKey(s)
    ensures r.Success? ==> r.value == db.(secrets := db.secrets[i := s])
    ensures r.Failure? ==> r.error == Violation(UniqueViolation, UniqueSecretKey)
  {
    if exists j :: 0 <= j < |db.secrets| && j != i && SecretKey(db.secrets[j]) == SecretKey(s) then
      Failure(Violation(UniqueViolation, UniqueSecretKey))
    else Success(db.(secrets := db.secrets[i := s]))
  }

  lemma UpdateSecretRowKeepsWellFormed(db: Db, i: nat, s: Secret)
    requires WellFormed(db)
    requires i < |db.secrets| && s.id == db.secrets[i].id && s.projectId == db.secrets[i].projectId
    requires UpdateSecretRow(db, i, s).Success?
    ensures WellFormed(UpdateSecretRow(db, i, s).value)
  {
    var r := UpdateSecretRow(db, i, s).value;
    assert forall j :: 0 <= j < |r.secrets| ==> SecretId(r.secrets[j]) == SecretId(db.secrets[j]);
    forall k | 0 <= k < |r.versions| ensures HasSecret(r, r.versions[k].secretId) {
      var j :| 0 <= j < |db.secrets| && db.secrets[j].id == r.versions[k].secretId;
      assert r.secrets[j].id == db.secrets[j].id;
    }
    forall j | 0 <= j < |r.secrets| ensures HasProject(r, r.secrets[j].projectId) {
      assert r.secrets[j].projectId == db.secrets[j].projectId;
    }
  }

  // ---- Deletes ----

  /** `DELETE FROM secret WHERE id = ...`: the versions of the deleted rows go with them. */
  function DeleteSecret(db: Db, id: string): (r: (Db, seq<Secret>))
    ensures forall s :: s in r.1 <==> s in db.secrets && s.id == id
    ensures !HasSecret(r.0, id)
    ensures forall v :: v in r.0.versions <==> v in db.versions && v.secretId != id
    ensures r.0.projects == db.projects && r.0.organizations == db.organizations && r.0.members == db.members
    ensures |r.1| > 0 <==> HasSecret(db, id)
  {
    var gone := Filter(db.secrets, (s: Secret) => s.id == id);
    var kept := Filter(db.secrets, (s: Secret) => s.id != id);
    assert HasSecret(db, id) ==> |gone| > 0 by {
      if HasSecret(db, id) {
        var j :| 0 <= j < |db.secrets| && SecretId(db.secrets[j]) == id;
        assert db.secrets[j] in gone;
      }
    }
    assert |gone| > 0 ==> HasSecret(db, id) by {
      if |gone| > 0 {
        assert gone[0] in gone;
      }
    }
    assert forall i :: 0 <= i < |kept| ==> kept[i] in kept;
    (db.(secrets := kept, versions := Filter(db.versions, (v: SecretVersion) => v.secretId != id)), gone)
  }

  /** The ids of the secrets of project `projectId`. */
  function SecretIdsOf(db: Db, projectId: string): set<string> {
    set s | s in db.secrets && s.projectId == projectId :: s.id
  }

  /** `DELETE FROM project WHERE id = ...`, cascading to its secrets and their versions. */
  function DeleteProject(db: Db, id: string): (r: Db)
    ensures !HasProject(r, id)
    ensures forall p :: p in r.projects <==> p in db.projects && p.id != id
    ensures forall s :: s in r.secrets <==> s in db.secrets && s.projectId != id
    ensures forall v :: v in r.versions <==> v in db.versions && v.secretId !in SecretIdsOf(db, id)
    ensures r.organizations == db.organizations && r.members == db.members
  {
    var projects := Filter(db.projects, (p: Project) => p.id != id);
    var secrets := Filter(db.secrets, (s: Secret) => s.projectId != id);
    var goneIds := SecretIdsOf(db, id);
    assert forall i :: 0 <= i < |projects| ==> projects[i] in projects;
    db.(projects := projects, secrets := secrets,
        versions := Filter(db.versions, (v: SecretVersion) => v.secretId !in goneIds))
  }

  // ---- Current versions ----

  /** The version rows of `s`'s current version, in table order. */
  function CurrentRows(db: Db, id: string, n: int): (r: seq<SecretVersion>)
    ensures forall v :: v in r <==> v in db.versions && VersionKey(v) == (id, n)
  {
    Filter(db.versions, (v: SecretVersion) => VersionKey(v) == (id, n))
  }

  /** The value stored in `s`'s current version, or "" when there is no such row or it is empty. */
  function CurrentValue(db: Db, s: Secret): (v: string)
    ensures v != "" ==> exists k :: 0 <= k < |db.versions| && VersionKey(db.versions[k]) == (s.id, s.currentVersion)
                                     && db.versions[k].encryptedValue == v
  {
    var rows := CurrentRows(db, s.id, s.currentVersion);
    if |rows| > 0 && rows[0].encryptedValue != "" then
      assert rows[0] in rows;
      rows[0].encryptedValue
    else ""
  }

  /** With the version key unique, the value shown is the one stored in the current version row. */
  lemma CurrentValueIs(db: Db, s: Secret, k: nat)
    requires DistinctBy(db.versions, VersionKey)
    requires k < |db.versions| && VersionKey(db.versions[k]) == (s.id, s.currentVersion)
    ensures CurrentValue(db, s) == db.versions[k].encryptedValue
  {
    var rows := CurrentRows(db, s.id, s.currentVersion);
    assert db.versions[k] in rows;
    assert rows[0] in rows;
    var j :| 0 <= j < |db.versions| && db.versions[j] == rows[0];
    assert j == k;
  }

  // ---- Properties ----

  /** Each successful insert keeps every constraint. */
  lemma InsertProjectKeepsWellFormed(db: Db, p: Project)
    requires WellFormed(db) && InsertProject(db, p).Success?
    ensures WellFormed(InsertProject(db, p).value)
  {
    var r := InsertProject(db, p).value;
    AppendDistinct(db.projects, p, ProjectId);
    AppendDistinct(db.projects, p, ProjectName);
    forall i | 0 <= i < |r.secrets| ensures HasProject(r, r.secrets[i].projectId) {
      AppendTaken(db.projects, p, ProjectId, r.secrets[i].projectId);
    }
    forall i | 0 <= i < |r.projects| ensures HasOrganization(r, r.projects[i].organizationId) {
      if i < |db.projects| {
        assert r.projects[i] == db.projects[i];
      }
    }
  }

  lemma InsertSecretKeepsWellFormed(db: Db, s: Secret)
    requires WellFormed(db) && InsertSecret(db, s).Success?
    ensures WellFormed(InsertSecret(db, s).value)
  {
    var r := InsertSecret(db, s).value;
    AppendDistinct(db.secrets, s, SecretId);
    AppendDistinct(db.secrets, s, SecretKey);
    forall i | 0 <= i < |r.versions| ensures HasSecret(r, r.versions[i].secretId) {
      AppendTaken(db.secrets, s, SecretId, r.versions[i].secretId);
    }
    forall i | 0 <= i < |r.secrets| ensures HasProject(r, r.secrets[i].projectId) {
      if i < |db.secrets| {
        assert r.secrets[i] == db.secrets[i];
      }
    }
  }

  lemma InsertVersionKeepsWellFormed(db: Db, v: SecretVersion)
    requires WellFormed(db) && InsertVersion(db, v).Success?
    ensures WellFormed(InsertVersion(db, v).value)
  {
    var r := InsertVersion(db, v).value;
    AppendDistinct(db.versions, v, VersionId);
    AppendDistinct(db.versions, v, VersionKey);
    forall i | 0 <= i < |r.versions| ensures HasSecret(r, r.versions[i].secretId) {
      if i < |db.versions| {
        assert r.versions[i] == db.versions[i];
      }
    }
  }

  /** Deleting a secret leaves no version pointing at a missing secret. */
  lemma DeleteSecretKeepsWellFormed(db: Db, id: string)
    requires WellFormed(db)
    ensures WellFormed(DeleteSecret(db, id).0)
  {
    var r := DeleteSecret(db, id).0;
    FilterDistinct(db.secrets, (s: Secret) => s.id != id, SecretId);
    FilterDistinct(db.secrets, (s: Secret) => s.id != id, SecretKey);
    FilterDistinct(db.versions, (v: SecretVersion) => v.secretId != id, VersionId);
    FilterDistinct(db.versions, (v: SecretVersion) => v.secretId != id, VersionKey);
    forall i | 0 <= i < |r.versions| ensures HasSecret(r, r.versions[i].secretId) {
      var v := r.versions[i];
      assert v in db.versions;
      var k :| 0 <= k < |db.versions| && db.versions[k] == v;
      var j :| 0 <= j < |db.secrets| && db.secrets[j].id == v.secretId;
      FilterTaken(db.secrets, (s: Secret) => s.id != id, SecretId, db.secrets[j]);
    }
    forall i | 0 <= i < |r.secrets| ensures HasProject(r, r.secrets[i].projectId) {
      var s := r.secrets[i];
      assert s in db.secrets;
      var k :| 0 <= k < |db.secrets| && db.secrets[k] == s;
    }
  }

  /** Deleting a project removes its secrets and their versions and keeps every foreign key. */
  lemma DeleteProjectKeepsWellFormed(db: Db, id: string)
    requires WellFormed(db)
    ensures WellFormed(DeleteProject(db, id))
    ensures forall v :: v in DeleteProject(db, id).versions ==> HasSecret(DeleteProject(db, id), v.secretId)
  {
    var r := DeleteProject(db, id);
    var goneIds := SecretIdsOf(db, id);
    var keepP := (p: Project) => p.id != id;
    var keepS := (s: Secret) => s.projectId != id;
    var keepV := (v: SecretVersion) => v.secretId !in goneIds;
    assert r.versions == Filter(db.versions, keepV);
    FilterDistinct(db.projects, keepP, ProjectId);
    FilterDistinct(db.projects, keepP, ProjectName);
    FilterDistinct(db.secrets, keepS, SecretId);
    FilterDistinct(db.secrets, keepS, SecretKey);
    FilterDistinct(db.versions, keepV, VersionId);
    FilterDistinct(db.versions, keepV, VersionKey);
    forall i | 0 <= i < |r.projects| ensures HasOrganization(r, r.projects[i].organizationId) {
      assert r.projects[i] in db.projects;
      var k :| 0 <= k < |db.projects| && db.projects[k] == r.projects[i];
    }
    forall i | 0 <= i < |r.secrets| ensures HasProject(r, r.secrets[i].projectId) {
      var s := r.secrets[i];
      assert s in db.secrets;
      var k :| 0 <= k < |db.secrets| && db.secrets[k] == s;
      var j :| 0 <= j < |db.projects| && db.projects[j].id == s.projectId;
      FilterTaken(db.projects, keepP, ProjectId, db.projects[j]);
    }
    forall i | 0 <= i < |r.versions| ensures HasSecret(r, r.versions[i].secretId) {
      var v := r.versions[i];
      assert v in db.versions && v.secretId !in goneIds;
      var k :| 0 <= k < |db.versions| && db.versions[k] == v;
      var j :| 0 <= j < |db.secrets| && db.secrets[j].id == v.secretId;
      assert db.secrets[j].projectId != id;
      FilterTaken(db.secrets, keepS, SecretId, db.secrets[j]);
    }
  }
}
