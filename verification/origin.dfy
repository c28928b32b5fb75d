/** The same-origin test of the macOS host (`URL.hasSameOrigin(as:)`).

    Two URLs are of the same origin when both have a host, their schemes are
    equal after lower-casing, their hosts are equal ignoring case, and their
    effective ports are equal. The effective port is the explicit port, else
    the default port of the scheme: 80 for http and 443 for https (sections 2.7.1
    and 2.7.2 of RFC 7230), else the marker -1. The URL is
    given already parsed into the three components the test reads; case is
    mapped on ASCII letters only. */
module Origin {
  import opened Basics

  /** The components of a parsed URL the test reads: `scheme`, `host`, `port`
      (all optional; a port is never negative). */
  datatype Url = Url(scheme: Option<string>, host: Option<string>, port: Option<nat>)

  /** The origin triple of section 4 of RFC 6454, as this test computes it. */
  datatype OriginTriple = OriginTriple(scheme: Option<string>, host: string, port: int)

  const HttpPort: int := 80
  const HttpsPort: int := 443
  /** The effective port of a scheme with no known default. */
  const UnknownPort: int := -1

  function LowerChar(c: char): char {
    if 'A' <= c <= 'Z' then (c as int - 'A' as int + 'a' as int) as char else c
  }

  /** `lowercased()`: every letter in lower case, everything else kept. */
  function Lower(s: string): (r: string)
    ensures |r| == |s|
    ensures forall i :: 0 <= i < |r| ==> !('A' <= r[i] <= 'Z')
    ensures forall i :: 0 <= i < |s| && !('A' <= s[i] <= 'Z') ==> r[i] == s[i]
    ensures forall i :: 0 <= i < |s| && 'A' <= s[i] <= 'Z' ==> r[i] as int == s[i] as int + 32
  {
    seq(|s|, i requires 0 <= i < |s| => LowerChar(s[i]))
  }

  /** Lower-casing a lower-cased string changes nothing. */
  lemma LowerIdempotent(s: string)
    ensures Lower(Lower(s)) == Lower(s)
  {
  }

  function LowerOpt(s: Option<string>): Option<string> {
    match s
    case None => None
    case Some(x) => Some(Lower(x))
  }

  /** `caseInsensitiveCompare(_) == .orderedSame`, character by character. */
  predicate EqualIgnoringCase(x: string, y: string) {
    |x| == |y| && forall i :: 0 <= i < |x| ==> LowerChar(x[i]) == LowerChar(y[i])
  }

  /** The nested `effectivePort(for:)`. */
  function EffectivePort(u: Url): (p: int)
    ensures u.port.Some? ==> p == u.port.value
    ensures u.port.None? && u.scheme.Some? && Lower(u.scheme.value) == "http" ==> p == HttpPort
    ensures u.port.None? && u.scheme.Some? && Lower(u.scheme.value) == "https" ==> p == HttpsPort
    ensures u.port.None? && LowerOpt(u.scheme) !in {Some("http"), Some("https")} ==> p == UnknownPort
  {
    if u.port.Some? then u.port.value
    else match LowerOpt(u.scheme)
      case Some("http") => HttpPort
      case Some("https") => HttpsPort
      case _ => UnknownPort
  }

  /** `hasSameOrigin(as:)`. */
  function HasSameOrigin(a: Url, b: Url): (r: bool)
    ensures r ==> a.host.Some? && b.host.Some?
    ensures r ==> LowerOpt(a.scheme) == LowerOpt(b.scheme) && EffectivePort(a) == EffectivePort(b)
    ensures r ==> Lower(a.host.value) == Lower(b.host.value)
  {
    if a.host.None? || b.host.None? then false
    else
      && LowerOpt(a.scheme) == LowerOpt(b.scheme)
      && EqualIgnoringCase(a.host.value, b.host.value)
      && EffectivePort(a) == EffectivePort(b)
  }

  /** The origin of a URL with a host: lower-cased scheme and host, and the
      effective port. */
  function OriginOf(u: Url): (o: Option<OriginTriple>)
    ensures o.None? <==> u.host.None?
  {
    match u.host
    case None => None
    case Some(h) => Some(OriginTriple(LowerOpt(u.scheme), Lower(h), EffectivePort(u)))
  }

  /** Comparing ignoring case is comparing lower-cased copies. */
  lemma EqualIgnoringCaseIsLowerEqual(x: string, y: string)
    ensures EqualIgnoringCase(x, y) <==> Lower(x) == Lower(y)
  {
    if Lower(x) == Lower(y) {
      assert |x| == |y|;
      forall i | 0 <= i < |x|
        ensures LowerChar(x[i]) == LowerChar(y[i])
      {
        assert Lower(x)[i] == Lower(y)[i];
      }
    }
  }

  /** The test is exactly equality of origins, and a URL without a host has
      no origin, so it is never of the same origin as anything. */
  lemma SameOriginIsOriginEquality(a: Url, b: Url)
    ensures HasSameOrigin(a, b) <==> OriginOf(a).Some? && OriginOf(a) == OriginOf(b)
  {
    if a.host.Some? && b.host.Some? {
      EqualIgnoringCaseIsLowerEqual(a.host.value, b.host.value);
    }
  }

  /** Same origin is an equivalence on URLs that have a host. */
  lemma SameOriginEquivalence(a: Url, b: Url, c: Url)
    ensures HasSameOrigin(a, b) ==> HasSameOrigin(b, a)
    ensures a.host.Some? <==> HasSameOrigin(a, a)
    ensures HasSameOrigin(a, b) && HasSameOrigin(b, c) ==> HasSameOrigin(a, c)
  {
    SameOriginIsOriginEquality(a, b);
    SameOriginIsOriginEquality(b, a);
    SameOriginIsOriginEquality(b, c);
    SameOriginIsOriginEquality(a, c);
    SameOriginIsOriginEquality(a, a);
  }

  /** Writing a scheme's default port explicitly does not change the origin,
      whatever the case of the scheme. */
  lemma DefaultPortsAreImplicit(scheme: string, host: string)
    requires Lower(scheme) == "http" || Lower(scheme) == "https"
    ensures
      var implicit := Url(Some(scheme), Some(host), None);
      var port: nat := if Lower(scheme) == "http" then 80 else 443;
      HasSameOrigin(implicit, Url(Some(scheme), Some(host), Some(port)))
  {
  }

  /** Schemes that differ after lower-casing never share an origin, even on
      the same host and effective port. */
  lemma DifferentSchemesDiffer(a: Url, b: Url)
    requires LowerOpt(a.scheme) != LowerOpt(b.scheme)
    ensures !HasSameOrigin(a, b)
  {
  }

  /** Neither the case of the scheme nor that of the host matters. */
  lemma CaseDoesNotMatter(a: Url)
    requires a.host.Some?
    ensures HasSameOrigin(a, Url(LowerOpt(a.scheme), Some(Lower(a.host.value)), a.port))
  {
    var b := Url(LowerOpt(a.scheme), Some(Lower(a.host.value)), a.port);
    assert LowerOpt(b.scheme) == LowerOpt(a.scheme) by {
      if a.scheme.Some? {
        assert Lower(Lower(a.scheme.value)) == Lower(a.scheme.value);
      }
    }
  }

  /** Concrete cases: `http://h` and `http://h:80` agree, `https://H` and
      `https://h:443` agree, `http://h:443` and `https://h` do not, and a
      scheme without a default port never matches an explicit port. */
  lemma Examples()
    ensures HasSameOrigin(Url(Some("http"), Some("h"), None), Url(Some("http"), Some("h"), Some(80)))
    ensures HasSameOrigin(Url(Some("https"), Some("H"), None), Url(Some("HTTPS"), Some("h"), Some(443)))
    ensures !HasSameOrigin(Url(Some("http"), Some("h"), Some(443)), Url(Some("https"), Some("h"), None))
    ensures !HasSameOrigin(Url(Some("http"), None, None), Url(Some("http"), None, None))
    ensures forall p: nat :: !HasSameOrigin(Url(Some("ftp"), Some("h"), None), Url(Some("ftp"), Some("h"), Some(p)))
  {
    assert Lower("HTTPS") == "https";
    assert Lower("https") == "https";
    assert Lower("http") == "http";
    assert Lower("ftp") == "ftp";
  }
}
