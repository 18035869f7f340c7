/**
 * The API server's authentication middleware: it takes the bearer token
 * from the `Authorization` header, asks the web app's OAuth userinfo
 * endpoint who it belongs to, and either lets the request through with
 * that user or answers 401.
 */
module BackendAuth {
  import opened Wrappers
  import opened Text

  const BearerPrefix := "Bearer "
  const ApiSegment := "/api/"
  const UserinfoPath := "/api/auth/oauth2/userinfo"

  const MissingHeader := "Unauthorised: Missing or invalid Authorization header"
  const InvalidToken := "Unauthorised: Invalid or expired token"
  const ValidationFailed := "Unauthorised: Failed to validate token"

  /** The userinfo claims after the response schema accepted them. */
  datatype Claims = Claims(sub: string, email: string, name: string,
                           emailVerified: Option<bool>, picture: Option<string>)

  /**
   * The userinfo call as the middleware sees it: parsed claims, an error
   * response, or an exception (the network failed, or the body did not
   * match the schema).
   */
  datatype UserinfoReply = Claimed(claims: Claims) | ErrorResponse(status: int) | Thrown

  datatype User = User(id: string, email: string, name: string, emailVerified: bool, image: Option<string>)

  /** The request the middleware sends to the userinfo endpoint. */
  datatype UserinfoRequest = UserinfoRequest(url: string, authorization: string)

  /** Either the request continues with the user set, or the answer is 401 with a message. */
  datatype Outcome = Next(user: User) | Unauthorised(message: string)

  datatype AuthResult = AuthResult(request: Option<UserinfoRequest>, outcome: Outcome)

  /** The token after `Bearer `, when the header is present and starts with it. */
  function BearerToken(header: Option<string>): (t: Option<string>)
    ensures t.Some? <==> header.Some? && StartsWith(header.value, BearerPrefix)
    ensures t.Some? ==> BearerPrefix + t.value == header.value
  {
    if header.Some? && StartsWith(header.value, BearerPrefix) then
      assert header.value == header.value[..7] + header.value[7..];
      Some(header.value[7..])
    else None
  }

  /** The userinfo endpoint on the same origin: everything before the first `/api/`, then the userinfo path. */
  function UserinfoUrl(requestUrl: string): (u: string)
    ensures EndsWith(u, UserinfoPath)
    ensures StartsWith(requestUrl, u[..|u| - |UserinfoPath|])
    ensures IndexOf(requestUrl, ApiSegment).None? ==> u == requestUrl + UserinfoPath
  {
    var base := BeforeFirst(requestUrl, ApiSegment);
    var u := base + UserinfoPath;
    assert u[|u| - |UserinfoPath|..] == UserinfoPath;
    assert u[..|u| - |UserinfoPath|] == base;
    u
  }

  /** The claims mapped onto the server's user: a missing or false `email_verified` is false, a missing or empty picture is null. */
  function MapUser(c: Claims): (u: User)
    ensures u.id == c.sub && u.email == c.email && u.name == c.name
    ensures u.emailVerified <==> c.emailVerified == Some(true)
    ensures u.image.Some? <==> Truthy(c.picture)
    ensures u.image.Some? ==> u.image == c.picture
  {
    User(c.sub, c.email, c.name,
         c.emailVerified.Some? && c.emailVerified.value,
         if Truthy(c.picture) then c.picture else None)
  }

  /**
   * The middleware: `header` is the `Authorization` header, `requestUrl`
   * the incoming URL, and `reply` what the userinfo endpoint answers.
   */
  function Authenticate(header: Option<string>, requestUrl: string, reply: UserinfoReply): (r: AuthResult)
    ensures r.request.None? <==> BearerToken(header).None?
    ensures r.request.None? ==> r.outcome == Unauthorised(MissingHeader)
    ensures r.request.Some? ==>
      r.request.value == UserinfoRequest(UserinfoUrl(requestUrl), header.value)
    ensures r.outcome.Next? <==> BearerToken(header).Some? && reply.Claimed?
    ensures r.outcome.Next? ==> r.outcome.user == MapUser(reply.claims)
    ensures BearerToken(header).Some? && reply.ErrorResponse? ==> r.outcome == Unauthorised(InvalidToken)
    ensures BearerToken(header).Some? && reply.Thrown? ==> r.outcome == Unauthorised(ValidationFailed)
  {
    match BearerToken(header)
    case None => AuthResult(None, Unauthorised(MissingHeader))
    case Some(token) =>
      var request := UserinfoRequest(UserinfoUrl(requestUrl), BearerPrefix + token);
      match reply
      case Claimed(c) => AuthResult(Some(request), Next(MapUser(c)))
      case ErrorResponse(_) => AuthResult(Some(request), Unauthorised(InvalidToken))
      case Thrown => AuthResult(Some(request), Unauthorised(ValidationFailed))
  }

  // ---- Properties ----

  /** For a URL under the server's `/api/`, the userinfo endpoint is on the same origin. */
  lemma UserinfoOnSameOrigin(origin: string, rest: string)
    requires forall j :: 0 <= j < |origin| ==> !OccursAt(origin + ApiSegment + rest, ApiSegment, j)
    ensures UserinfoUrl(origin + ApiSegment + rest) == origin + UserinfoPath
  {
    var s := origin + ApiSegment + rest;
    assert s[|origin|..|origin| + |ApiSegment|] == ApiSegment;
    assert OccursAt(s, ApiSegment, |origin|);
    var k := IndexOf(s, ApiSegment).value;
    assert k == |origin|;
    assert s[..k] == origin;
  }

  /** The middleware forwards exactly the token it was given, and a header with another scheme never reaches the endpoint. */
  lemma TokenForwardedVerbatim(token: string, requestUrl: string, reply: UserinfoReply)
    ensures Authenticate(Some(BearerPrefix + token), requestUrl, reply).request ==
      Some(UserinfoRequest(UserinfoUrl(requestUrl), BearerPrefix + token))
    ensures Authenticate(Some("Basic " + token), requestUrl, reply).outcome == Unauthorised(MissingHeader)
    ensures Authenticate(Some("bearer " + token), requestUrl, reply).outcome == Unauthorised(MissingHeader)
  {
    assert (BearerPrefix + token)[..7] == BearerPrefix;
    assert ("Basic " + token)[0] == 'B' && ("Basic " + token)[1] == 'a';
    assert ("bearer " + token)[0] == 'b';
  }

  /** Example mappings: absent optional claims give an unverified user without an image. */
  lemma MapUserDefaults(sub: string, email: string, name: string)
    ensures MapUser(Claims(sub, email, name, None, None)) == User(sub, email, name, false, None)
    ensures MapUser(Claims(sub, email, name, Some(false), Some(""))) == User(sub, email, name, false, None)
    ensures MapUser(Claims(sub, email, name, Some(true), Some("p.png"))).image == Some("p.png")
  {
  }
}
