/**
 * The web app's request middleware: every `/api/picovault/...` request is
 * rewritten to the API server, with the first `/picovault` taken out of
 * the path.
 */
module WebMiddleware {
  import opened Wrappers
  import opened Text

  const DefaultServerUrl := "http://localhost:3000"
  const Segment := "/picovault"
  const MatchedPrefix := "/api/picovault"

  /** The server URL: the configured variable when it is set and non-empty, else the default. */
  function ServerUrl(configured: Option<string>): (u: string)
    ensures Truthy(configured) ==> u == configured.value
    ensures !Truthy(configured) ==> u == DefaultServerUrl
  {
    if Truthy(configured) then configured.value else DefaultServerUrl
  }

  /** The rewritten target: server URL, the path without its first `/picovault`, then the query string as received. */
  function Rewrite(configured: Option<string>, pathname: string, search: string): (r: string)
    ensures StartsWith(r, ServerUrl(configured))
    ensures EndsWith(r, search)
    ensures IndexOf(pathname, Segment).None? ==> r == ServerUrl(configured) + pathname + search
    ensures IndexOf(pathname, Segment).Some? ==> |r| == |ServerUrl(configured)| + |pathname| - |Segment| + |search|
  {
    var base := ServerUrl(configured);
    var path := ReplaceFirst(pathname, Segment, "");
    var r := base + path + search;
    assert r[..|base|] == base;
    assert r[|r| - |search|..] == search;
    r
  }

  // ---- Properties ----

  /** A needle does not start at `j` when one of its characters disagrees with the text. */
  lemma MismatchAt(s: string, needle: string, j: nat, i: nat)
    requires i < |needle| && j + i < |s| && s[j + i] != needle[i]
    ensures !OccursAt(s, needle, j)
  {
  }

  /** In a matched path the first `/picovault` starts right after `/api`. */
  lemma MatchedSegmentIndex(rest: string)
    ensures IndexOf(MatchedPrefix + rest, Segment) == Some(4)
  {
    var p := "/api" + (Segment + rest);
    assert MatchedPrefix + rest == p;
    assert p[4..14] == Segment;
    assert OccursAt(p, Segment, 4);
    // Positions 0 to 3 hold "/api"; none of them starts "/picovault".
    MismatchAt(p, Segment, 0, 1);
    MismatchAt(p, Segment, 1, 0);
    MismatchAt(p, Segment, 2, 0);
    MismatchAt(p, Segment, 3, 0);
  }

  /** A matched path loses exactly the `/picovault` after `/api`: the backend sees `/api` followed by the rest. */
  lemma MatchedPathReachesApi(configured: Option<string>, rest: string, search: string)
    ensures Rewrite(configured, MatchedPrefix + rest, search) == ServerUrl(configured) + "/api" + rest + search
  {
    var p := MatchedPrefix + rest;
    MatchedSegmentIndex(rest);
    MatchedPathParts(rest);
    var path := ReplaceFirst(p, Segment, "");
    assert path == "/api" + rest;
    var u := ServerUrl(configured);
    assert Rewrite(configured, p, search) == u + path + search;
    assert u + ("/api" + rest) + search == u + "/api" + rest + search;
  }

  /** A matched path is `/api`, then `/picovault`, then the rest. */
  lemma MatchedPathParts(rest: string)
    ensures (MatchedPrefix + rest)[..4] == "/api"
    ensures (MatchedPrefix + rest)[14..] == rest
  {
    var p := "/api" + (Segment + rest);
    assert MatchedPrefix + rest == p;
  }

  /** The secrets route the CLI calls is forwarded to the server's secrets route. */
  lemma SecretsRouteForwarded(configured: Option<string>)
    ensures Rewrite(configured, "/api/picovault/secrets", "") == ServerUrl(configured) + "/api/secrets"
  {
    SecretsRouteText();
    MatchedPathReachesApi(configured, "/secrets", "");
    var u := ServerUrl(configured);
    assert u + "/api" + "/secrets" + "" == u + ("/api" + "/secrets");
  }

  lemma SecretsRouteText()
    ensures MatchedPrefix + "/secrets" == "/api/picovault/secrets"
    ensures "/api" + "/secrets" == "/api/secrets"
  {
  }

  /** Only the first `/picovault` is removed: a second one stays in the path. */
  lemma OnlyFirstSegmentRemoved(rest: string)
    ensures Rewrite(None, MatchedPrefix + Segment + rest, "") == DefaultServerUrl + "/api" + Segment + rest
  {
    MatchedPathReachesApi(None, Segment + rest, "");
    assert MatchedPrefix + (Segment + rest) == MatchedPrefix + Segment + rest;
  }
}
