/**
 * The CLI's transient loopback listener: the sequential port search and the
 * request handler guarded by the one-shot `resolved` flag. Socket binding is
 * the predicate `canBind`; responses are status tags.
 */
module CallbackServer {
  import opened Wrappers
  import opened Text
  import OAuth

  const BasePort: nat := 8910
  const MaxAttempts: nat := 100
  const PortExhausted := "Could not find available port"
  const CallbackPath := "/callback"

  /** The redirect URLs the identity provider registers for the CLI client: one per candidate port. */
  function AllowedRedirectUrls(): (r: seq<string>)
    ensures |r| == MaxAttempts
    ensures forall i :: 0 <= i < MaxAttempts ==> r[i] == OAuth.RedirectUri(BasePort + i)
    ensures forall p: nat :: BasePort <= p < BasePort + MaxAttempts <==> OAuth.RedirectUri(p) in r
  {
    var r := seq(MaxAttempts, i requires 0 <= i < MaxAttempts => LoopbackCallback(BasePort + i));
    forall i | 0 <= i < MaxAttempts
      ensures r[i] == OAuth.RedirectUri(BasePort + i)
    {
      LoopbackCallbackIsRedirectUri(BasePort + i);
    }
    forall p: nat | BasePort <= p < BasePort + MaxAttempts
      ensures OAuth.RedirectUri(p) in r
    {
      assert r[p - BasePort] == OAuth.RedirectUri(p);
    }
    forall p: nat | OAuth.RedirectUri(p) in r
      ensures BasePort <= p < BasePort + MaxAttempts
    {
      var i :| 0 <= i < |r| && r[i] == OAuth.RedirectUri(p);
      OAuth.RedirectUriInjective(p, BasePort + i);
    }
    r
  }

  /** The allow-list's template literal for one port. */
  function LoopbackCallback(port: nat): string {
    "http://localhost:" + NatToString(port) + CallbackPath
  }

  lemma LoopbackCallbackIsRedirectUri(port: nat)
    ensures LoopbackCallback(port) == OAuth.RedirectUri(port)
  {
  }

  /** `findAvailablePort`: probe 8910, 8911, ... and return the first port that binds. */
  method FindAvailablePort(canBind: nat -> bool) returns (r: Result<nat, string>)
    ensures r.Success? ==> BasePort <= r.value < BasePort + MaxAttempts && canBind(r.value)
    ensures r.Success? ==> forall p :: BasePort <= p < r.value ==> !canBind(p)
    ensures r.Success? ==> OAuth.RedirectUri(r.value) in AllowedRedirectUrls()
    ensures r.Failure? <==> forall p :: BasePort <= p < BasePort + MaxAttempts ==> !canBind(p)
    ensures r.Failure? ==> r.error == PortExhausted
  {
    var i: nat := 0;
    while i < MaxAttempts
      invariant i <= MaxAttempts
      invariant forall p :: BasePort <= p < BasePort + i ==> !canBind(p)
    {
      var port := BasePort + i;
      if canBind(port) {
        assert AllowedRedirectUrls()[i] == OAuth.RedirectUri(port);
        return Success(port);
      }
      i := i + 1;
    }
    return Failure(PortExhausted);
  }

  /** The query parameters the handler reads; `None` is a parameter that is absent. */
  datatype CallbackParams = CallbackParams(
    code: Option<string>,
    state: Option<string>,
    error: Option<string>,
    errorDescription: Option<string>)

  datatype Request = Request(path: string, params: CallbackParams)

  /** 404 "Not found", 200 success page, 500 "Authentication failed". */
  datatype Status = NotFound | SuccessPage | AuthenticationFailed

  /** Only the success page is a 2xx answer; both refusals are errors (4xx or 5xx). */
  function StatusCode(s: Status): (code: int)
    ensures 200 <= code < 300 <==> s.SuccessPage?
    ensures code >= 400 <==> !s.SuccessPage?
    ensures s.AuthenticationFailed? <==> code >= 500
  {
    match s
    case NotFound => 404
    case SuccessPage => 200
    case AuthenticationFailed => 500
  }

  /** A call the handler makes into the login flow. */
  datatype Call = OnSuccess(params: CallbackParams) | OnError(message: string)

  datatype Reply = Reply(status: Status, resolved: bool, calls: seq<Call>)

  /** The message handed to the error handler for a provider-reported error. */
  function ProviderErrorMessage(p: CallbackParams): string
    requires Truthy(p.error)
  {
    OrElse(p.errorDescription.GetOr(""), p.error.value)
  }

  /**
   * The `fetch` handler. `hasOnError` says whether an error handler was
   * registered; `successThrows` is the error `onSuccess` raises, if it raises one.
   */
  function Handle(resolved: bool, req: Request, hasOnError: bool, successThrows: Option<string>): (r: Reply)
    ensures req.path != CallbackPath ==> r == Reply(NotFound, resolved, [])
    ensures req.path == CallbackPath && resolved ==> r == Reply(SuccessPage, true, [])
    ensures req.path == CallbackPath && !resolved && Truthy(req.params.error) ==>
      && r.status == AuthenticationFailed && !r.resolved
      && r.calls == (if hasOnError then [OnError(ProviderErrorMessage(req.params))] else [])
    ensures req.path == CallbackPath && !resolved && !Truthy(req.params.error) ==>
      && r.resolved
      && |r.calls| >= 1 && r.calls[0] == OnSuccess(req.params)
      && (successThrows.None? <==> r.status == SuccessPage)
    ensures resolved ==> r.resolved
    ensures forall i :: 0 <= i < |r.calls| && r.calls[i].OnSuccess? ==> i == 0 && !resolved && r.resolved
  {
    if req.path != CallbackPath then Reply(NotFound, resolved, [])
    else if resolved then Reply(SuccessPage, true, [])
    else if Truthy(req.params.error) then
      Reply(AuthenticationFailed, false, if hasOnError then [OnError(ProviderErrorMessage(req.params))] else [])
    else match successThrows
      case None => Reply(SuccessPage, true, [OnSuccess(req.params)])
      case Some(m) =>
        Reply(AuthenticationFailed, true, [OnSuccess(req.params)] + (if hasOnError then [OnError(m)] else []))
  }

  /** The server's life: requests handled one after another from flag `resolved`. */
  function Serve(resolved: bool, reqs: seq<Request>, hasOnError: bool, successThrows: Option<string>): (r: (bool, seq<Call>))
    ensures resolved ==> r.0
    decreases |reqs|
  {
    if |reqs| == 0 then (resolved, [])
    else
      var rep := Handle(resolved, reqs[0], hasOnError, successThrows);
      var rest := Serve(rep.resolved, reqs[1..], hasOnError, successThrows);
      (rest.0, rep.calls + rest.1)
  }

  function CountSuccess(calls: seq<Call>): nat {
    if |calls| == 0 then 0
    else (if calls[0].OnSuccess? then 1 else 0) + CountSuccess(calls[1..])
  }

  lemma {:induction false} CountSuccessAppend(a: seq<Call>, b: seq<Call>)
    ensures CountSuccess(a + b) == CountSuccess(a) + CountSuccess(b)
    decreases |a|
  {
    if |a| == 0 {
      assert a + b == b;
    } else {
      assert (a + b)[1..] == a[1..] + b;
      CountSuccessAppend(a[1..], b);
    }
  }

  lemma CountSuccessOfReply(resolved: bool, req: Request, hasOnError: bool, successThrows: Option<string>)
    ensures var rep := Handle(resolved, req, hasOnError, successThrows);
      CountSuccess(rep.calls) == (if !resolved && rep.resolved then 1 else 0)
  {
    var rep := Handle(resolved, req, hasOnError, successThrows);
    forall c: Call, d: Call | !c.OnSuccess? && !d.OnSuccess?
      ensures CountSuccess([c]) == 0 && CountSuccess([OnSuccess(req.params)]) == 1
      ensures CountSuccess([OnSuccess(req.params), c]) == 1
    {
      assert [c][1..] == [];
      assert [OnSuccess(req.params)][1..] == [];
      assert [OnSuccess(req.params), c][1..] == [c];
    }
  }

  /**
   * However many requests arrive, `onSuccess` runs at most once per server,
   * and never after the flag is set.
   */
  lemma {:induction false} SuccessAtMostOnce(resolved: bool, reqs: seq<Request>, hasOnError: bool, successThrows: Option<string>)
    ensures CountSuccess(Serve(resolved, reqs, hasOnError, successThrows).1) <= (if resolved then 0 else 1)
    ensures CountSuccess(Serve(resolved, reqs, hasOnError, successThrows).1) == 1 ==> Serve(resolved, reqs, hasOnError, successThrows).0
    decreases |reqs|
  {
    if |reqs| > 0 {
      var rep := Handle(resolved, reqs[0], hasOnError, successThrows);
      CountSuccessOfReply(resolved, reqs[0], hasOnError, successThrows);
      SuccessAtMostOnce(rep.resolved, reqs[1..], hasOnError, successThrows);
      CountSuccessAppend(rep.calls, Serve(rep.resolved, reqs[1..], hasOnError, successThrows).1);
    }
  }

  /** Requests to other paths neither change the flag nor reach a handler, whatever precedes them. */
  lemma {:induction false} OtherPathsAreInert(resolved: bool, reqs: seq<Request>, hasOnError: bool, successThrows: Option<string>)
    requires forall i :: 0 <= i < |reqs| ==> reqs[i].path != CallbackPath
    ensures Serve(resolved, reqs, hasOnError, successThrows) == (resolved, [])
    decreases |reqs|
  {
    if |reqs| > 0 {
      OtherPathsAreInert(resolved, reqs[1..], hasOnError, successThrows);
      assert Handle(resolved, reqs[0], hasOnError, successThrows).calls == [];
      var none: seq<Call> := [];
      assert none + none == none;
    }
  }
}
