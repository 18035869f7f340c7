/** `ApiClient.fetchSecrets`: the request the CLI sends and how it reads the reply. */
module ApiClient {
  import opened Wrappers
  import opened Text
  import opened CliSchemas

  const SecretsPath := "/api/picovault/secrets"
  const MsgUnauthorised := "Authentication failed. Your session may have expired."
  const MsgForbidden := "Access denied. You may not have permission to access secrets."
  const MsgServerError := "Server error. Please try again later."
  const MsgDefault := "Failed to fetch secrets"

  /** The constructor's `replace(/\/$/, "")`: drop one trailing slash, if there is one. */
  function BaseUrl(instanceUrl: string): (r: string)
    ensures EndsWith(instanceUrl, "/") ==> r + "/" == instanceUrl
    ensures !EndsWith(instanceUrl, "/") ==> r == instanceUrl
  {
    if |instanceUrl| > 0 && instanceUrl[|instanceUrl| - 1] == '/' then
      assert instanceUrl[..|instanceUrl| - 1] + "/" == instanceUrl;
      instanceUrl[..|instanceUrl| - 1]
    else instanceUrl
  }

  /** A GET request: target URL and header record. */
  datatype ApiRequest = ApiRequest(url: string, headers: map<string, string>)

  /** The request for the secrets endpoint; the two scoping headers only when the option is non-empty. */
  function SecretsRequest(instanceUrl: string, accessToken: string, projectId: Option<string>,
                          organisationSlug: Option<string>): (q: ApiRequest)
    ensures q.url == BaseUrl(instanceUrl) + SecretsPath
    ensures "Authorization" in q.headers && q.headers["Authorization"] == "Bearer " + accessToken
    ensures "Content-Type" in q.headers && q.headers["Content-Type"] == "application/json"
    ensures "X-Project-Id" in q.headers <==> Truthy(projectId)
    ensures "X-Project-Id" in q.headers ==> q.headers["X-Project-Id"] == projectId.value
    ensures "X-Organisation-Slug" in q.headers <==> Truthy(organisationSlug)
    ensures "X-Organisation-Slug" in q.headers ==> q.headers["X-Organisation-Slug"] == organisationSlug.value
    ensures q.headers.Keys <= {"Authorization", "Content-Type", "X-Project-Id", "X-Organisation-Slug"}
  {
    var h0 := map["Authorization" := "Bearer " + accessToken, "Content-Type" := "application/json"];
    var h1 := if Truthy(projectId) then h0["X-Project-Id" := projectId.value] else h0;
    var h2 := if Truthy(organisationSlug) then h1["X-Organisation-Slug" := organisationSlug.value] else h1;
    ApiRequest(BaseUrl(instanceUrl) + SecretsPath, h2)
  }

  /**
   * The error object of a failed fetch. `status` is 0 when the failure
   * carries no status (a falsy status in the source).
   */
  datatype FetchFailure = FetchFailure(status: int, message: Option<string>, statusText: Option<string>)

  /** The message `fetchSecrets` throws for a failed fetch. */
  function ErrorMessage(e: FetchFailure): (m: string)
    ensures e.status == 401 ==> m == MsgUnauthorised
    ensures e.status == 403 ==> m == MsgForbidden
    ensures e.status >= 500 ==> m == MsgServerError
    ensures e.status != 401 && e.status != 403 && e.status < 500 ==>
      m == (if Truthy(e.message) then e.message.value
            else if Truthy(e.statusText) then e.statusText.value
            else MsgDefault)
  {
    if e.status == 401 then MsgUnauthorised
    else if e.status == 403 then MsgForbidden
    else if e.status != 0 && e.status >= 500 then MsgServerError
    else if Truthy(e.message) then e.message.value
    else if Truthy(e.statusText) then e.statusText.value
    else MsgDefault
  }

  /** `fetchSecrets` on the endpoint's reply: the list on success, a message otherwise. */
  function FetchSecrets(reply: Result<SecretsResponse, FetchFailure>): (r: Result<seq<Secret>, string>)
    ensures r.Success? <==> reply.Success?
    ensures r.Success? ==> r.value == reply.value.secrets
    ensures r.Failure? ==> r.error == ErrorMessage(reply.error)
  {
    match reply
    case Success(resp) => Success(resp.secrets)
    case Failure(e) => Failure(ErrorMessage(e))
  }

  // ---- Properties ----

  /** A thrown fetch error always carries a non-empty message. */
  lemma ErrorMessageNonEmpty(e: FetchFailure)
    ensures ErrorMessage(e) != ""
  {
  }

  /** The endpoint URL is the same whether or not the instance URL ends in one slash. */
  lemma TrailingSlashIrrelevant(instanceUrl: string, token: string, p: Option<string>, o: Option<string>)
    requires !EndsWith(instanceUrl, "/")
    ensures SecretsRequest(instanceUrl + "/", token, p, o) == SecretsRequest(instanceUrl, token, p, o)
  {
    var u := instanceUrl + "/";
    assert EndsWith(u, "/") by {
      assert u[|u| - 1..] == "/";
    }
    assert u[..|u| - 1] == instanceUrl;
  }

  /** Only one slash goes: a doubled trailing slash leaves one behind. */
  lemma OnlyOneSlashStripped()
    ensures BaseUrl("https://vault.example.com//") == "https://vault.example.com/"
  {
    assert EndsWith("https://vault.example.com//", "/");
  }
}
