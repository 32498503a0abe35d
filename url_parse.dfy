/** Python's `urllib.parse.urlparse` (as in CPython 3.11 and later) to the extent the
    Lambdas use it: the scheme, network location and path of a URL, and the bucket and
    key both Lambdas read off an S3 object URL. */
module UrlParse {
  import opened Wrappers
  import opened Text

  datatype ParsedUrl = ParsedUrl(scheme: string, netloc: string, path: string,
                                 params: string, query: string, fragment: string)

  /** `_WHATWG_C0_CONTROL_OR_SPACE`: removed from the start of the URL. */
  predicate IsC0OrSpace(c: char) { c <= ' ' }

  predicate IsUnsafeUrlChar(c: char) { c == '\t' || c == '\r' || c == '\n' }

  /** Tabs and line breaks are deleted wherever they occur. */
  function RemoveUnsafe(s: string): (r: string)
    ensures forall k :: 0 <= k < |r| ==> !IsUnsafeUrlChar(r[k])
    ensures (forall k :: 0 <= k < |s| ==> !IsUnsafeUrlChar(s[k])) ==> r == s
  {
    if s == [] then []
    else if IsUnsafeUrlChar(s[0]) then RemoveUnsafe(s[1..])
    else [s[0]] + RemoveUnsafe(s[1..])
  }

  predicate IsSchemeChar(c: char) { IsAsciiAlnum(c) || c == '+' || c == '-' || c == '.' }

  predicate IsScheme(s: string) {
    |s| > 0 && (IsAsciiUpper(s[0]) || IsAsciiLower(s[0]))
    && forall k :: 0 <= k < |s| ==> IsSchemeChar(s[k])
  }

  /** The schemes `uses_params` names: for these a `;` in the last path segment starts
      the parameters. */
  predicate UsesParams(scheme: string) {
    scheme in {"", "ftp", "hdl", "prospero", "http", "imap", "https", "shttp", "rtsp",
               "rtspu", "sip", "sips", "mms", "sftp", "tel"}
  }

  /** The first position holding one of `stops`, or `|s|`. */
  function FindAny(s: string, stops: set<char>): (r: nat)
    ensures r <= |s|
    ensures forall k :: 0 <= k < r ==> s[k] !in stops
    ensures r < |s| ==> s[r] in stops
  {
    if s == [] || s[0] in stops then 0 else 1 + FindAny(s[1..], stops)
  }

  /** `s.split(c, 1)` when `c` occurs: the text before and after its first occurrence. */
  function SplitOnce(s: string, c: char): (r: (string, string))
    requires c in s
    ensures c !in r.0 && r.0 + [c] + r.1 == s
  {
    var i := IndexOf(s, c).value;
    assert s == s[..i] + [c] + s[i + 1..];
    (s[..i], s[i + 1..])
  }

  /** `_splitparams`: when the path has a `/`, only a `;` after its last `/` starts the
      parameters. */
  function SplitParams(url: string): (r: (string, string))
    requires ';' in url
  {
    match LastIndexOf(url, '/')
    case Some(slash) =>
      (match FindSub(url[slash..], ";")
       case None => (url, "")
       case Some(j) => (url[..slash + j], url[slash + j + 1..]))
    case None =>
      var i := IndexOf(url, ';').value;
      (url[..i], url[i + 1..])
  }

  /** The URL after the leading blanks and every tab and line break are removed. */
  function Sanitize(url: string): string {
    RemoveUnsafe(DropWhile(url, IsC0OrSpace))
  }

  /** The lower-cased scheme and the rest, when the text before the first `:` is a
      scheme; otherwise no scheme and the whole URL. */
  function SplitScheme(url: string): (r: (string, string)) {
    var colon := IndexOf(url, ':');
    if colon.Some? && colon.value > 0 && IsScheme(url[..colon.value])
    then (Lower(url[..colon.value]), url[colon.value + 1..])
    else ("", url)
  }

  /** After `//`, the network location runs up to the first `/`, `?` or `#`. */
  function SplitNetloc(url: string): (r: (string, string)) {
    if |url| >= 2 && url[..2] == "//" then
      var end := 2 + FindAny(url[2..], {'/', '?', '#'});
      (url[2..end], url[end..])
    else ("", url)
  }

  /** `urlparse(url)`; `None` stands for the `ValueError` raised for an unbalanced
      `[` or `]` in the network location. */
  function UrlParse(url0: string): (r: Option<ParsedUrl>)
  {
    var (scheme, url2) := SplitScheme(Sanitize(url0));
    var (netloc, url3) := SplitNetloc(url2);
    if ('[' in netloc) != (']' in netloc) then None
    else
      var (url4, fragment) := if '#' in url3 then SplitOnce(url3, '#') else (url3, "");
      var (url5, query) := if '?' in url4 then SplitOnce(url4, '?') else (url4, "");
      var (path, params) := if UsesParams(scheme) && ';' in url5 then SplitParams(url5) else (url5, "");
      Some(ParsedUrl(scheme, netloc, path, params, query, fragment))
  }

  /** `netloc.split('.')[0]` */
  function BucketOf(netloc: string): (r: string)
    ensures '.' !in r
  {
    Split(netloc, '.')[0]
  }

  predicate IsSlash(c: char) { c == '/' }

  /** `path.lstrip('/')` */
  function KeyOf(path: string): (r: string)
    ensures r == [] || r[0] != '/'
  {
    DropWhile(path, IsSlash)
  }

  /** The bucket and key both Lambdas take from an object URL, or `None` where
      `urlparse` raises. */
  function BucketAndKey(url: string): (r: Option<(string, string)>)
    ensures r.None? <==> UrlParse(url).None?
    ensures r.Some? ==> '.' !in r.value.0 && (r.value.1 == [] || r.value.1[0] != '/')
  {
    match UrlParse(url)
    case None => None
    case Some(p) => Some((BucketOf(p.netloc), KeyOf(p.path)))
  }

  /** The virtual-hosted URL of an S3 object, as the ingestion Lambdas store it. */
  function S3ObjectUrl(bucket: string, region: string, key: string): string {
    "https://" + bucket + ".s3." + region + ".amazonaws.com/" + key
  }

  predicate NoneOf(s: string, cs: set<char>) { forall k :: 0 <= k < |s| ==> s[k] !in cs }

  lemma NoneOfConcat(a: string, b: string, cs: set<char>)
    ensures NoneOf(a + b, cs) <==> NoneOf(a, cs) && NoneOf(b, cs)
  {
    if NoneOf(a, cs) && NoneOf(b, cs) {
      forall k | 0 <= k < |a + b| ensures (a + b)[k] !in cs {
        if k >= |a| { assert (a + b)[k] == b[k - |a|]; }
      }
    }
    if NoneOf(a + b, cs) {
      forall k | 0 <= k < |b| ensures b[k] !in cs { assert (a + b)[|a| + k] == b[k]; }
      forall k | 0 <= k < |a| ensures a[k] !in cs { assert (a + b)[k] == a[k]; }
    }
  }

  lemma NoneOfSubset(s: string, cs: set<char>, ds: set<char>)
    requires NoneOf(s, cs) && ds <= cs
    ensures NoneOf(s, ds)
  {
  }

  const Unsafe: set<char> := {'\t', '\r', '\n'}

  lemma SanitizeClean(url: string)
    requires url != [] && !IsC0OrSpace(url[0]) && NoneOf(url, Unsafe)
    ensures Sanitize(url) == url
  {
    assert DropWhile(url, IsC0OrSpace) == url;
  }

  lemma SplitSchemeOf(scheme: string, rest: string)
    requires IsScheme(scheme)
    ensures SplitScheme(scheme + ":" + rest) == (Lower(scheme), rest)
  {
    var url := scheme + ":" + rest;
    assert url[|scheme|] == ':' && url[..|scheme|] == scheme;
    assert ':' !in scheme;
    IndexOfFirst(url, ':', |scheme|);
    assert url[|scheme| + 1..] == rest;
  }

  lemma SplitNetlocOf(host: string, path: string)
    requires NoneOf(host, {'/', '?', '#'})
    requires path == [] || path[0] == '/'
    ensures SplitNetloc("//" + host + path) == (host, path)
  {
    var url := "//" + host + path;
    var rest := url[2..];
    assert rest == host + path;
    var end := FindAny(rest, {'/', '?', '#'});
    assert forall k :: 0 <= k < |host| ==> rest[k] == host[k];
    assert |host| < |rest| ==> rest[|host|] == path[0];
    assert end == |host|;
    assert url[2..2 + end] == host;
    assert url[2 + end..] == path;
  }

  /** A URL `scheme://host/path` with no tabs or line breaks, and no query, fragment or
      parameters parses into exactly these parts. */
  lemma UrlParseHierarchical(scheme: string, host: string, path: string)
    requires IsScheme(scheme)
    requires NoneOf(scheme + "://" + host + path, Unsafe)
    requires NoneOf(host, {'/', '?', '#', '[', ']'})
    requires path == [] || path[0] == '/'
    requires NoneOf(path, {'?', '#'})
    requires UsesParams(Lower(scheme)) ==> ';' !in path
    ensures UrlParse(scheme + "://" + host + path) == Some(ParsedUrl(Lower(scheme), host, path, "", "", ""))
  {
    var url := scheme + "://" + host + path;
    assert !IsC0OrSpace(url[0]);
    SanitizeClean(url);
    assert url == scheme + ":" + ("//" + host + path);
    SplitSchemeOf(scheme, "//" + host + path);
    SplitNetlocOf(host, path);
    assert '[' !in host && ']' !in host;
    assert '#' !in path && '?' !in path;
  }

  /** `netloc.split('.')[0]` of `bucket.rest` is the bucket. */
  lemma BucketOfHost(bucket: string, rest: string)
    requires '.' !in bucket
    ensures BucketOf(bucket + "." + rest) == bucket
  {
    var host := bucket + "." + rest;
    assert host[..|bucket|] == bucket && host[|bucket|] == '.';
    IndexOfFirst(host, '.', |bucket|);
  }

  /** Stripping the one `/` in front of a key that starts with no `/`. */
  lemma KeyOfPath(key: string)
    requires key == [] || key[0] != '/'
    ensures KeyOf("/" + key) == key
  {
    assert ("/" + key)[1..] == key;
    assert IsSlash(("/" + key)[0]);
    assert DropWhile(key, IsSlash) == key;
  }

  /** Characters that would end or split a host name inside a URL. */
  const HostStops: set<char> := {'/', '?', '#', '[', ']', '\t', '\r', '\n'}

  /** The host name of a stored object URL holds no host delimiter. */
  lemma S3HostChars(bucket: string, region: string)
    requires NoneOf(bucket, HostStops) && NoneOf(region, HostStops)
    ensures NoneOf(bucket + "." + ("s3." + region + ".amazonaws.com"), HostStops)
  {
    NoneOfConcat(bucket, ".", HostStops);
    NoneOfConcat("s3.", region, HostStops);
    NoneOfConcat("s3." + region, ".amazonaws.com", HostStops);
    NoneOfConcat(bucket + ".", "s3." + region + ".amazonaws.com", HostStops);
  }

  /** The whole stored object URL holds no tab or line break. */
  lemma S3UrlChars(host: string, key: string)
    requires NoneOf(host, HostStops) && NoneOf(key, Unsafe)
    ensures NoneOf("https://" + host + ("/" + key), Unsafe)
  {
    NoneOfSubset(host, HostStops, Unsafe);
    NoneOfConcat("/", key, Unsafe);
    NoneOfConcat("https://", host, Unsafe);
    NoneOfConcat("https://" + host, "/" + key, Unsafe);
  }

  /** Reading back a stored object URL gives its bucket and key, provided the bucket has
      no dot, the region no host delimiter, and the key neither starts with `/` nor
      holds `?`, `#`, `;` or a tab or line break. */
  lemma {:induction false} BucketAndKeyOfS3ObjectUrl(bucket: string, region: string, key: string)
    requires NoneOf(bucket, HostStops + {'.'}) && NoneOf(region, HostStops)
    requires NoneOf(key, {'?', '#', ';', '\t', '\r', '\n'}) && (key == [] || key[0] != '/')
    ensures BucketAndKey(S3ObjectUrl(bucket, region, key)) == Some((bucket, key))
  {
    var rest := "s3." + region + ".amazonaws.com";
    var host := bucket + "." + rest;
    var path := "/" + key;
    assert S3ObjectUrl(bucket, region, key) == "https" + "://" + host + path;
    NoneOfSubset(bucket, HostStops + {'.'}, HostStops);
    S3HostChars(bucket, region);
    NoneOfSubset(key, {'?', '#', ';', '\t', '\r', '\n'}, Unsafe);
    S3UrlChars(host, key);
    NoneOfSubset(host, HostStops, {'/', '?', '#', '[', ']'});
    assert NoneOf(path, {'?', '#', ';'}) by {
      NoneOfConcat("/", key, {'?', '#', ';'});
    }
    assert IsScheme("https");
    UrlParseHierarchical("https", host, path);
    assert '.' !in bucket;
    BucketOfHost(bucket, rest);
    KeyOfPath(key);
  }
}
