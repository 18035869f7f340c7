/** The web app's `projects.create` procedure. */
module WebProjects {
  import opened Wrappers
  import opened DbSchema
  import DbUtils
  import opened Permissions
  import opened Trpc
  import opened WebValidators

  const DuplicateNameMessage := "A project with this name already exists in this organization"
  const ForbiddenMessage := "You don't have permission to create projects in this organization"
  const FailureMessage := "Failed to create project"

  /** The row `projects.create` inserts, given the generated id and the clock. */
  function NewProject(i: CreateProjectInput, userId: string, id: string, now: int): (p: Project)
    ensures p.id == id && p.organizationId == i.organisationId && p.name == i.name
    ensures p.description == i.description && p.createdBy == userId
  {
    Project(id, i.organisationId, i.name, i.description, userId, now, now)
  }

  /** How a failed insert surfaces: a duplicate name as a field error on `name`, anything else as an internal error. */
  function InsertFailure(v: Violation): (r: TrpcError)
    ensures v == Violation(UniqueViolation, UniqueProjectName) ==>
      r == TrpcError(BadRequest, DuplicateNameMessage,
                     FieldErrorCause(FieldError("name", UniqueViolationType, DuplicateNameMessage)))
    ensures v != Violation(UniqueViolation, UniqueProjectName) ==> r == TrpcError(InternalServerError, FailureMessage, NoCause)
  {
    if DbUtils.IsUniqueConstraintError(DbUtils.QueryError(v), UniqueProjectName) then
      TrpcError(BadRequest, DuplicateNameMessage, FieldErrorCause(FieldError("name", UniqueViolationType, DuplicateNameMessage)))
    else TrpcError(InternalServerError, FailureMessage, NoCause)
  }

  /** `projects.create`: the database after the call, and the new row or the error. */
  function Create(db: Db, c: Caller, i: CreateProjectInput, id: string, now: int): (r: (Db, Result<Project, TrpcError>))
    ensures r.1.Failure? ==> r.0 == db
    ensures c.session.None? ==> r.1 == Failure(AuthenticationRequired)
    ensures c.session.Some? && ValidCreateProject(i) && !Allows(c.role, ProjectResource, Action.Create) ==>
      r.1 == Failure(TrpcError(Forbidden, ForbiddenMessage, NoCause))
    ensures r.1.Success? <==>
      && c.session.Some? && ValidCreateProject(i) && Allows(c.role, ProjectResource, Action.Create)
      && !HasProject(db, id) && !Taken(db.projects, ProjectName, (i.organisationId, i.name))
      && HasOrganization(db, i.organisationId)
    ensures r.1.Success? ==>
      r.1.value == NewProject(i, c.session.value.userId, id, now) && r.0.projects == db.projects + [r.1.value]
      && r.0.secrets == db.secrets && r.0.versions == db.versions
  {
    match Gate(c, ProjectResource, ValidCreateProject(i), Action.Create, ForbiddenMessage)
    case Failure(e) => (db, Failure(e))
    case Success(s) =>
      var p := NewProject(i, s.userId, id, now);
      match InsertProject(db, p)
      case Failure(v) => (db, Failure(InsertFailure(v)))
      case Success(db') => (db', Success(p))
  }

  // ---- Properties ----

  /** A name already used in the organisation is reported on the `name` field, whatever id the new row would get. */
  lemma DuplicateNameIsFieldError(db: Db, c: Caller, i: CreateProjectInput, id: string, now: int)
    requires c.session.Some? && ValidCreateProject(i) && Allows(c.role, ProjectResource, Action.Create)
    requires !HasProject(db, id) && Taken(db.projects, ProjectName, (i.organisationId, i.name))
    ensures Create(db, c, i, id, now).1.Failure?
    ensures FormatError(Create(db, c, i, id, now).1.error).fieldError ==
      Some(FieldErrorCause(FieldError("name", UniqueViolationType, DuplicateNameMessage)))
  {
    FieldErrorNeverValidation(FieldError("name", UniqueViolationType, DuplicateNameMessage), DuplicateNameMessage);
  }

  /** Creating a project keeps every table constraint. */
  lemma CreateKeepsWellFormed(db: Db, c: Caller, i: CreateProjectInput, id: string, now: int)
    requires WellFormed(db)
    ensures WellFormed(Create(db, c, i, id, now).0)
  {
    var r := Create(db, c, i, id, now);
    if r.1.Success? {
      InsertProjectKeepsWellFormed(db, NewProject(i, c.session.value.userId, id, now));
    }
  }

  /** The same name in a different organisation does not clash. */
  lemma NamesAreScopedToOrganisation(db: Db, c: Caller, i: CreateProjectInput, id: string, now: int)
    requires c.session.Some? && ValidCreateProject(i) && Allows(c.role, ProjectResource, Action.Create)
    requires !HasProject(db, id) && HasOrganization(db, i.organisationId)
    requires forall k :: 0 <= k < |db.projects| ==> db.projects[k].organizationId != i.organisationId
    ensures Create(db, c, i, id, now).1.Success?
  {
  }
}
