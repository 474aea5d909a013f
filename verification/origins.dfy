/**
 * The origin key of a URL: the `(prefix, host)` pair under which Firefox
 * groups places in `moz_origins`. The prefix is the scheme followed by
 * "://"; the host carries the port as "host:port" unless the URL is http
 * on port 80 or https on port 443.
 */
module Origins {
  import opened Wrappers

  /**
   * The parts of a parsed URL that the import reads. `port` is the port of
   * the URL's tuple origin, with the scheme's known default already filled
   * in; `opaqueOrigin` tells whether the URL has an opaque origin; `serialized`
   * is the URL's text.
   */
  datatype Url = Url(scheme: string, host: Option<string>, port: nat, opaqueOrigin: bool, serialized: string)

  /** A row key of `moz_origins`. */
  datatype OriginKey = OriginKey(prefix: string, host: string)

  /** The decimal digit for `d`. */
  function Digit(d: nat): (c: char)
    requires d < 10
    ensures '0' <= c <= '9' && c as int - '0' as int == d
  {
    ('0' as int + d) as char
  }

  /** The decimal text of `n`, as Rust's `{}` formats an integer. */
  function DecimalString(n: nat): (s: string)
    ensures |s| >= 1
    ensures forall i :: 0 <= i < |s| ==> '0' <= s[i] <= '9'
    decreases n
  {
    if n < 10 then [Digit(n)] else DecimalString(n / 10) + [Digit(n % 10)]
  }

  /** The number a string of decimal digits denotes. */
  function DecimalValue(s: string): nat
    requires forall i :: 0 <= i < |s| ==> '0' <= s[i] <= '9'
    decreases |s|
  {
    if |s| == 0 then 0 else DecimalValue(s[..|s| - 1]) * 10 + (s[|s| - 1] as int - '0' as int)
  }

  /** Reading the decimal text of `n` gives back `n`. */
  lemma {:induction false} DecimalRoundTrip(n: nat)
    ensures DecimalValue(DecimalString(n)) == n
    decreases n
  {
    if n >= 10 {
      DecimalRoundTrip(n / 10);
      var s := DecimalString(n);
      assert s[..|s| - 1] == DecimalString(n / 10);
    }
  }

  /** Different numbers have different decimal texts. */
  lemma DecimalStringInjective(m: nat, n: nat)
    requires DecimalString(m) == DecimalString(n)
    ensures m == n
  {
    DecimalRoundTrip(m);
    DecimalRoundTrip(n);
  }

  /** The scheme and its default port for which the port is left out of the origin's host. */
  predicate IsDefaultPort(scheme: string, port: nat)
  {
    (scheme == "https" && port == 443) || (scheme == "http" && port == 80)
  }

  /**
   * The origin key of `url`, or None when its origin is opaque or it has
   * no host. A URL without a host is treated like an opaque origin; the
   * import reaches this only for URLs that have a host.
   */
  function OriginKeyOf(url: Url): (r: Option<OriginKey>)
    ensures r.None? <==> url.opaqueOrigin || url.host.None?
    ensures r.Some? ==> r.value.prefix == url.scheme + "://"
    ensures r.Some? && IsDefaultPort(url.scheme, url.port) ==> r.value.host == url.host.value
    ensures r.Some? && !IsDefaultPort(url.scheme, url.port) ==>
              r.value.host == url.host.value + ":" + DecimalString(url.port)
  {
    if url.opaqueOrigin || url.host.None? then None
    else
      var host := url.host.value;
      var hostAndPort := host + ":" + DecimalString(url.port);
      match url.scheme
      case "https" => Some(OriginKey("https://", if url.port == 443 then host else hostAndPort))
      case "http" => Some(OriginKey("http://", if url.port == 80 then host else hostAndPort))
      case _ => Some(OriginKey(url.scheme + "://", hostAndPort))
  }

  /**
   * Two URLs with the same scheme and host share an origin exactly when
   * they have the same port: an explicit default port (https on 443) is
   * the same origin as none, and any other port is a different origin.
   */
  lemma SameOriginIffSamePort(u: Url, v: Url)
    requires !u.opaqueOrigin && !v.opaqueOrigin && u.host.Some? && u.host == v.host && u.scheme == v.scheme
    ensures OriginKeyOf(u) == OriginKeyOf(v) <==> u.port == v.port
  {
    var host := u.host.value;
    if OriginKeyOf(u) == OriginKeyOf(v) {
      var hu := OriginKeyOf(u).value.host;
      var du := DecimalString(u.port);
      var dv := DecimalString(v.port);
      if !IsDefaultPort(u.scheme, u.port) && !IsDefaultPort(v.scheme, v.port) {
        assert du == hu[|host| + 1..] == dv;
        DecimalStringInjective(u.port, v.port);
      }
    }
  }
}
