/** `normaliseUrl`: give a scheme-less instance address a scheme. */
module UrlUtils {
  import opened Text

  predicate HasScheme(url: string) {
    StartsWith(url, "http://") || StartsWith(url, "https://")
  }

  predicate IsLoopback(url: string) {
    StartsWith(url, "localhost") || StartsWith(url, "127.0.0.1")
  }

  /**
   * A URL with a scheme is kept as it is (a trailing slash is not stripped);
   * a loopback address gets "http://" and anything else "https://".
   */
  function NormaliseUrl(url: string): (r: string)
    ensures HasScheme(url) ==> r == url
    ensures !HasScheme(url) && IsLoopback(url) ==> r == "http://" + url
    ensures !HasScheme(url) && !IsLoopback(url) ==> r == "https://" + url
  {
    if !HasScheme(url) then
      if IsLoopback(url) then "http://" + url else "https://" + url
    else url
  }

  lemma PrefixedHasScheme(scheme: string, url: string)
    requires scheme == "http://" || scheme == "https://"
    ensures HasScheme(scheme + url)
    ensures EndsWith(scheme + url, url)
  {
    var s := scheme + url;
    assert s[..|scheme|] == scheme;
    assert s[|s| - |url|..] == url;
  }

  /** The result always has a scheme and ends with the original input. */
  lemma NormaliseShape(url: string)
    ensures HasScheme(NormaliseUrl(url))
    ensures EndsWith(NormaliseUrl(url), url)
  {
    if !HasScheme(url) {
      if IsLoopback(url) {
        PrefixedHasScheme("http://", url);
      } else {
        PrefixedHasScheme("https://", url);
      }
    } else {
      assert url[|url| - |url|..] == url;
    }
  }

  /** Normalising twice is normalising once. */
  lemma NormaliseIdempotent(url: string)
    ensures NormaliseUrl(NormaliseUrl(url)) == NormaliseUrl(url)
  {
    NormaliseShape(url);
  }

  /** A trailing slash survives normalisation. */
  lemma TrailingSlashKept()
    ensures NormaliseUrl("https://vault.example.com/") == "https://vault.example.com/"
  {
    assert StartsWith("https://vault.example.com/", "https://");
  }
}
