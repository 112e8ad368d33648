/** `_prepare_url`: make a URL start with `http://` or `https://` and end
    with `/`, in two conditional steps. */
module LauncherUtils {

  const Http := "http://"
  const Https := "https://"

  /** `url.startswith(("http://", "https://"))`: a case-sensitive prefix test. */
  predicate HasScheme(url: string) {
    Http <= url || Https <= url
  }

  /** `url.endswith("/")`. */
  predicate EndsWithSlash(url: string) {
    |url| > 0 && url[|url| - 1] == '/'
  }

  /** First step: prefix `https://` unless a scheme is already there. */
  function WithScheme(url: string): (r: string)
    ensures HasScheme(r)
    ensures HasScheme(url) ==> r == url
    ensures !HasScheme(url) ==> |r| == |Https| + |url| && Https <= r && r[|Https|..] == url
  {
    if HasScheme(url) then url else Https + url
  }

  /** Second step: append `/` unless the URL already ends with one. */
  function WithTrailingSlash(url: string): (r: string)
    ensures EndsWithSlash(r)
    ensures url <= r && |r| <= |url| + 1
    ensures EndsWithSlash(url) ==> r == url
  {
    if EndsWithSlash(url) then url else url + "/"
  }

  function PrepareUrl(url: string): (r: string)
    ensures HasScheme(r) && EndsWithSlash(r)
  {
    WithTrailingSlash(WithScheme(url))
  }

  /** The prefix `_prepare_url` puts in front of the input. */
  function SchemePart(url: string): string {
    if HasScheme(url) then "" else Https
  }

  /** The suffix it puts after the input: a slash, unless the input ends with
      one, or is empty and so ends with the slash of `https://`. */
  function SlashPart(url: string): string {
    if EndsWithSlash(url) || (!HasScheme(url) && url == "") then "" else "/"
  }

  /** The result is an optional `https://`, then the input unchanged, then an
      optional `/`. */
  lemma PrepareUrlShape(url: string)
    ensures PrepareUrl(url) == SchemePart(url) + url + SlashPart(url)
    ensures |PrepareUrl(url)| == |url| + |SchemePart(url)| + |SlashPart(url)|
    ensures var p := |SchemePart(url)|; PrepareUrl(url)[p..p + |url|] == url
  {
    var s := WithScheme(url);
    if HasScheme(url) {
      assert s == url;
    } else {
      assert s == Https + url;
      if url == [] {
        assert EndsWithSlash(s);
      } else {
        assert s[|s| - 1] == url[|url| - 1];
      }
    }
    var r := PrepareUrl(url);
    var p := |SchemePart(url)|;
    assert r == SchemePart(url) + url + SlashPart(url);
    assert r[p..p + |url|] == url;
  }

  /** A URL that already has a scheme gets no prefix: the result begins with
      the input. */
  lemma PrepareUrlKeepsScheme(url: string)
    requires HasScheme(url)
    ensures url <= PrepareUrl(url)
    ensures PrepareUrl(url) == url || PrepareUrl(url) == url + "/"
  {
  }

  /** `_prepare_url` leaves a URL unchanged exactly when it already has a
      scheme and a trailing slash. */
  lemma PrepareUrlFixedPoint(url: string)
    ensures PrepareUrl(url) == url <==> HasScheme(url) && EndsWithSlash(url)
  {
  }

  /** Normalising twice is normalising once. */
  lemma PrepareUrlIdempotent(url: string)
    ensures PrepareUrl(PrepareUrl(url)) == PrepareUrl(url)
  {
    PrepareUrlFixedPoint(PrepareUrl(url));
  }

  /** The scheme test is case-sensitive: `HTTP://x` gets a second scheme. */
  lemma PrepareUrlUpperCaseScheme()
    ensures PrepareUrl("HTTP://x") == "https://HTTP://x/"
  {
    assert !HasScheme("HTTP://x") by {
      assert "HTTP://x"[0] != Http[0];
      assert "HTTP://x"[0] != Https[0];
    }
    assert !EndsWithSlash(Https + "HTTP://x");
  }

  /** The empty URL becomes `https://`: the prefix already ends with the
      slash, so none is appended. */
  lemma PrepareUrlEmpty()
    ensures PrepareUrl("") == "https://"
  {
    assert !HasScheme("");
    assert Https + "" == Https;
  }
}
