/** The tRPC error formatter's cause classification and the `protectedProcedure` session gate. */
module Trpc {
  import opened Wrappers
  import opened Permissions

  datatype ErrorCode = BadRequest | Unauthorized | Forbidden | NotFound | InternalServerError

  datatype FieldErrorType = Required | Invalid | UniqueViolationType | TooLong | TooShort | PatternMismatch

  function FieldErrorTypeName(t: FieldErrorType): (r: string)
    ensures r in {"required", "invalid", "unique_violation", "too_long", "too_short", "pattern_mismatch"}
  {
    match t
    case Required => "required"
    case Invalid => "invalid"
    case UniqueViolationType => "unique_violation"
    case TooLong => "too_long"
    case TooShort => "too_short"
    case PatternMismatch => "pattern_mismatch"
  }

  /** A custom error for one form field. */
  datatype FieldError = FieldError(field: string, errorType: FieldErrorType, message: string)

  /**
   * The `cause` carried by a thrown error: none, a primitive, a schema
   * validation error, or a plain object described by the property names it
   * has and the string value of its `type` property, if any.
   */
  datatype Cause =
    | NoCause
    | Primitive(text: string)
    | ZodIssues(issues: seq<string>)
    | PlainObject(props: set<string>, typeValue: Option<string>)

  /** The properties a schema validation error answers to with `in`. */
  const ZodProps: set<string> := {"issues", "errors", "formErrors", "message", "name", "stack"}

  /** `"name" in cause`, false for a cause that is not an object. */
  predicate HasProp(c: Cause, name: string) {
    match c
    case PlainObject(props, _) => name in props
    case ZodIssues(_) => name in ZodProps
    case _ => false
  }

  /** A field error as a cause: an object with `field`, `type` and `message`. */
  function FieldErrorCause(fe: FieldError): (c: Cause)
    ensures HasProp(c, "field") && HasProp(c, "type") && HasProp(c, "message") && !HasProp(c, "fields")
  {
    PlainObject({"field", "type", "message"}, Some(FieldErrorTypeName(fe.errorType)))
  }

  datatype TrpcError = TrpcError(code: ErrorCode, message: string, cause: Cause)

  /** The four extra `data` fields of a formatted error; `None` is null. */
  datatype Formatted = Formatted(
    zodError: Option<seq<string>>,
    fieldError: Option<Cause>,
    formError: Option<Cause>,
    validationError: Option<Cause>)

  /** `errorFormatter`: each field is the cause itself when the code is BAD_REQUEST and the cause has the right shape. */
  function FormatError(e: TrpcError): (f: Formatted)
    ensures e.code != BadRequest ==> f == Formatted(None, None, None, None)
    ensures f.zodError.Some? <==> e.code == BadRequest && e.cause.ZodIssues?
    ensures f.fieldError.Some? <==>
      e.code == BadRequest && HasProp(e.cause, "field") && HasProp(e.cause, "type") && HasProp(e.cause, "message")
    ensures f.formError.Some? <==> e.code == BadRequest && HasProp(e.cause, "fields")
    ensures f.validationError.Some? <==>
      e.code == BadRequest && e.cause.PlainObject? && "type" in e.cause.props && e.cause.typeValue == Some("validation")
    ensures f.fieldError.Some? ==> f.fieldError.value == e.cause
    ensures f.formError.Some? ==> f.formError.value == e.cause
    ensures f.validationError.Some? ==> f.validationError.value == e.cause
  {
    var bad := e.code == BadRequest;
    Formatted(
      if bad && e.cause.ZodIssues? then Some(e.cause.issues) else None,
      if bad && HasProp(e.cause, "field") && HasProp(e.cause, "type") && HasProp(e.cause, "message") then Some(e.cause) else None,
      if bad && HasProp(e.cause, "fields") then Some(e.cause) else None,
      if bad && e.cause.PlainObject? && "type" in e.cause.props && e.cause.typeValue == Some("validation")
      then Some(e.cause) else None)
  }

  /** The signed-in session the procedures see. */
  datatype WebSession = WebSession(userId: string, activeOrganizationId: Option<string>)

  const AuthenticationRequired := TrpcError(Unauthorized, "Authentication required", Primitive("No session"))

  /** `protectedProcedure`: without a session the call stops with UNAUTHORIZED before the procedure runs. */
  function Protected(session: Option<WebSession>): (r: Result<WebSession, TrpcError>)
    ensures r.Failure? <==> session.None?
    ensures r.Failure? ==> r.error.code == Unauthorized
    ensures r.Success? ==> r.value == session.value
  {
    match session
    case None => Failure(AuthenticationRequired)
    case Some(s) => Success(s)
  }

  /** Stands in for the input parser's BAD_REQUEST: its zod message and issues are not modelled. */
  const InvalidInput := TrpcError(BadRequest, "Invalid input", ZodIssues([]))

  /** The caller of a procedure: the session, if any, and its role in the active organisation. */
  datatype Caller = Caller(session: Option<WebSession>, role: Option<Role>)

  /**
   * What every mutation runs before its body: the session gate, then the
   * input schema, then the permission check for `act` on `res`.
   */
  function Gate(c: Caller, res: Resource, inputValid: bool, act: Action, forbidden: string): (r: Result<WebSession, TrpcError>)
    ensures r.Success? <==> c.session.Some? && inputValid && Allows(c.role, res, act)
    ensures c.session.None? ==> r == Failure(AuthenticationRequired)
    ensures c.session.Some? && !inputValid ==> r == Failure(InvalidInput)
    ensures c.session.Some? && inputValid && !Allows(c.role, res, act) ==>
      r == Failure(TrpcError(Forbidden, forbidden, NoCause))
    ensures r.Success? ==> r.value == c.session.value
  {
    var s :- Protected(c.session);
    if !inputValid then Failure(InvalidInput)
    else if !Allows(c.role, res, act) then Failure(TrpcError(Forbidden, forbidden, NoCause))
    else Success(s)
  }

  /** The reply of the auth library's `hasPermission`: an object `{ error, success }`. */
  datatype PermissionReply = PermissionReply(success: bool)

  /** `auth.api.hasPermission` for the caller's role: `success` says whether the role grants `act` on `res`. */
  function HasPermission(role: Option<Role>, res: Resource, act: Action): (p: PermissionReply)
    ensures p.success <==> Allows(role, res, act)
  {
    PermissionReply(Allows(role, res, act))
  }

  /** JavaScript truthiness of an object value: every object is truthy, whatever its fields hold. */
  predicate ObjectTruthy(p: PermissionReply) {
    true
  }

  /**
   * The gate as the routers write it: `if (!hasPermission)` negates the reply
   * object rather than its `success` field, so the permission test never
   * refuses and only the session and the input schema stop a call.
   */
  function GateAsWritten(c: Caller, res: Resource, inputValid: bool, act: Action, forbidden: string)
    : (r: Result<WebSession, TrpcError>)
    ensures r.Success? <==> c.session.Some? && inputValid
    ensures r.Success? ==> r.value == c.session.value
    ensures r.Failure? ==> r == Gate(c, res, inputValid, act, forbidden)
  {
    var s :- Protected(c.session);
    if !inputValid then Failure(InvalidInput)
    else if !ObjectTruthy(HasPermission(c.role, res, act)) then Failure(TrpcError(Forbidden, forbidden, NoCause))
    else Success(s)
  }

  // ---- Properties ----

  /**
   * The as-written gate lets through exactly the calls the intended gate
   * lets through plus those the role does not permit; the role never matters.
   */
  lemma GateAsWrittenIgnoresRole(c: Caller, res: Resource, inputValid: bool, act: Action, forbidden: string,
                                 other: Option<Role>)
    ensures GateAsWritten(c, res, inputValid, act, forbidden) == GateAsWritten(c.(role := other), res, inputValid, act, forbidden)
    ensures Gate(c, res, inputValid, act, forbidden).Success? ==> GateAsWritten(c, res, inputValid, act, forbidden).Success?
    ensures GateAsWritten(c, res, inputValid, act, forbidden).Success? && !Gate(c, res, inputValid, act, forbidden).Success?
            <==> c.session.Some? && inputValid && !Allows(c.role, res, act)
  {
  }

  /** A field error is reported as a field error and never as a validation error: its type is never "validation". */
  lemma FieldErrorNeverValidation(fe: FieldError, message: string)
    ensures var f := FormatError(TrpcError(BadRequest, message, FieldErrorCause(fe)));
      f.fieldError == Some(FieldErrorCause(fe)) && f.validationError.None? && f.formError.None? && f.zodError.None?
  {
    assert FieldErrorTypeName(fe.errorType) != "validation";
  }

  /** A schema validation error is reported only as `zodError`. */
  lemma ZodOnlyAsZodError(issues: seq<string>, message: string)
    ensures FormatError(TrpcError(BadRequest, message, ZodIssues(issues))) == Formatted(Some(issues), None, None, None)
  {
    assert "field" !in ZodProps && "fields" !in ZodProps;
  }

  /** The session gate's error carries no structured data. */
  lemma UnauthorisedHasNoData()
    ensures FormatError(AuthenticationRequired) == Formatted(None, None, None, None)
  {
  }
}
