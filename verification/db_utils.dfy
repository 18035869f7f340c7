/** `isUniqueConstraintError`: recognising a PostgreSQL unique violation on a named constraint. */
module DbUtils {
  import opened Wrappers
  import opened DbSchema

  /**
   * The `cause` of a query error as the classifier sees it: absent (or
   * another falsy value), a non-object, or an object with an optional `code`
   * and an optional `constraint` property.
   */
  datatype Cause =
    | NoCause
    | NotAnObject
    | CauseObject(code: Option<string>, constraint: Option<string>)

  /** A caught error: the ORM's query error wrapping a driver cause, or anything else. */
  datatype DbError = DrizzleQueryError(cause: Cause) | OtherError(message: string)

  /** The error a rejected statement surfaces as. */
  function QueryError(v: Violation): (e: DbError)
    ensures e.DrizzleQueryError? && e.cause == CauseObject(Some(v.code), Some(v.constraint))
  {
    DrizzleQueryError(CauseObject(Some(v.code), Some(v.constraint)))
  }

  /** True exactly for a query error whose cause has code 23505 and the given constraint. */
  function IsUniqueConstraintError(error: DbError, constraintName: string): (r: bool)
    ensures r <==> error.DrizzleQueryError? && error.cause.CauseObject?
                   && error.cause.code == Some(UniqueViolation)
                   && error.cause.constraint == Some(constraintName)
  {
    match error
    case OtherError(_) => false
    case DrizzleQueryError(cause) =>
      match cause
      case CauseObject(code, constraint) =>
        if code.Some? then code.value == UniqueViolation && constraint == Some(constraintName)
        else false
      case _ => false
  }

  // ---- Properties ----

  /** A violation reported by the database is classified by its own code and constraint name. */
  lemma ClassifiesViolations(v: Violation, name: string)
    ensures IsUniqueConstraintError(QueryError(v), name) <==> v.code == UniqueViolation && v.constraint == name
  {
  }

  /** A foreign-key violation, a cause without `code`, and a non-query error are never unique violations. */
  lemma NegativeCases(name: string, constraint: Option<string>, message: string)
    ensures !IsUniqueConstraintError(QueryError(Violation(ForeignKeyViolation, name)), name)
    ensures !IsUniqueConstraintError(DrizzleQueryError(CauseObject(None, constraint)), name)
    ensures !IsUniqueConstraintError(DrizzleQueryError(NoCause), name)
    ensures !IsUniqueConstraintError(OtherError(message), name)
  {
  }

  /** Inserting a project whose name is taken in its organisation is classified as that violation. */
  lemma DuplicateProjectNameClassified(db: Db, p: Project)
    requires !HasProject(db, p.id) && Taken(db.projects, ProjectName, ProjectName(p))
    ensures InsertProject(db, p).Failure?
    ensures IsUniqueConstraintError(QueryError(InsertProject(db, p).error), UniqueProjectName)
    ensures !IsUniqueConstraintError(QueryError(InsertProject(db, p).error), UniqueSecretKey)
  {
  }
}
