/** `Link`: a URL that can tell whether another URL is on a different site, and that
    compares and hashes by its canonical string. The operations read only the parsed
    components of the objects involved, so they are functions of those components. */
module Link {
  import opened Wrappers
  import opened Text
  import opened Uri
  import opened Errors
  import Url

  /** The argument of `is_external` and `==`: a URL object (given by its parsed
      components), a string, or a value of any other type. */
  datatype Target = UrlArg(u: Uri) | StrArg(s: string) | OtherArg

  /** A string argument is parsed as a URL. */
  function ParsedTarget(t: Target): (r: Option<Uri>)
    ensures t.UrlArg? ==> r == Some(t.u)
    ensures t.StrArg? ==> r == Some(Parse(t.s))
    ensures t.OtherArg? <==> r.None?
  {
    match t
    case UrlArg(u) => Some(u)
    case StrArg(s) => Some(Parse(s))
    case OtherArg => None
  }

  /** Drop one leading `www.`. */
  function StripWww(host: string): (r: string)
    ensures "www." <= host ==> host == "www." + r
    ensures !("www." <= host) ==> r == host
  {
    if "www." <= host then host[4..] else host
  }

  /** Drop the suffix `port` if the host ends with it. */
  function StripPort(host: string, port: string): (r: string)
    ensures IsSuffix(port, host) ==> host == r + port
    ensures !IsSuffix(port, host) ==> r == host
  {
    if IsSuffix(port, host) then host[..|host| - |port|] else host
  }

  /** The two network locations `is_external` compares: `www.` dropped from both, then
      `:80` from both when both schemes are `http`, or `:443` when both are `https`. */
  function Hosts(self: Uri, base: Uri): (string, string)
  {
    var b, t := StripWww(base.netloc), StripWww(self.netloc);
    if self.scheme == "http" && base.scheme == "http" then (StripPort(b, ":80"), StripPort(t, ":80"))
    else if self.scheme == "https" && base.scheme == "https" then (StripPort(b, ":443"), StripPort(t, ":443"))
    else (b, t)
  }

  /** `is_external` between two parsed URLs. */
  predicate ExternalTo(self: Uri, base: Uri)
  {
    var (b, t) := Hosts(self, base);
    b != t
  }

  /** `is_external(url)`: a string is parsed first; any other kind of value is a
      TypeError. */
  function IsExternal(self: Uri, url: Target): (r: Result<bool, Error>)
    ensures url.OtherArg? <==> r == Failure(TypeError)
    ensures url.UrlArg? ==> r == Success(ExternalTo(self, url.u))
    ensures url.StrArg? ==> r == Success(ExternalTo(self, Parse(url.s)))
  {
    match ParsedTarget(url)
    case None => Failure(TypeError)
    case Some(u) => Success(ExternalTo(self, u))
  }

  /** Being external is symmetric. */
  lemma ExternalSymmetric(a: Uri, b: Uri)
    ensures ExternalTo(a, b) <==> ExternalTo(b, a)
  {
    var (x, y) := Hosts(a, b);
    var (y', x') := Hosts(b, a);
    assert x == x' && y == y';
  }

  /** No URL is external to itself. */
  lemma ExternalIrreflexive(a: Uri)
    ensures !ExternalTo(a, a)
  {
    var (x, y) := Hosts(a, a);
    assert x == y;
  }

  /** Only hosts are compared: URLs with the same network location are internal to each
      other whatever their schemes, paths, queries and fragments. */
  lemma SameHostInternal(a: Uri, b: Uri)
    requires a.netloc == b.netloc
    ensures !ExternalTo(a, b)
  {
    var (x, y) := Hosts(a, b);
    assert x == y;
  }

  /** Hosts equal once `www.` is dropped are internal to each other:
      `www.google.com` is internal to `google.com`. */
  lemma WwwInternal(a: Uri, b: Uri)
    requires StripWww(a.netloc) == StripWww(b.netloc)
    ensures !ExternalTo(a, b)
  {
    var (x, y) := Hosts(a, b);
    assert x == y;
  }

  /** A suffix of a suffix is a suffix. */
  lemma SuffixOfSuffix(p: string, s: string, t: string)
    requires IsSuffix(s, t)
    ensures IsSuffix(p, s) ==> IsSuffix(p, t)
  {
    if IsSuffix(p, s) {
      assert t[|t| - |p|..] == s[|s| - |p|..];
    }
  }

  /** Dropping a default port keeps `www.` + mid longer than any suffix of mid. */
  lemma StripPortLonger(short: string, mid: string, port: string)
    requires port == ":80" || port == ":443"
    requires IsSuffix(short, mid)
    ensures |StripPort(short, port)| < |StripPort("www." + mid, port)|
  {
    var long := "www." + mid;
    SuffixOfSuffix(port, short, mid);
    assert |mid| >= |port| ==> long[|long| - |port|..] == mid[|mid| - |port|..];
    assert IsSuffix(port, long) ==> long[|long| - |port|] == ':';
  }

  /** Only one `www.` is dropped: `www.www.` + h is external to h. */
  lemma WwwStrippedOnce(a: Uri, b: Uri)
    requires a.netloc == "www.www." + b.netloc
    ensures ExternalTo(a, b)
  {
    assert "www." <= a.netloc;
    var ha, hb := StripWww(a.netloc), StripWww(b.netloc);
    assert ha == "www." + b.netloc;
    assert IsSuffix(hb, b.netloc);
    StripPortLonger(hb, b.netloc, ":80");
    StripPortLonger(hb, b.netloc, ":443");
  }

  /** `www.` is dropped before the port is looked at. */
  lemma StripWwwPort(h: string, port: string)
    requires port == ":80" || port == ":443"
    ensures StripWww(h + port) == StripWww(h) + port
  {
    if |h| >= 4 {
      assert (h + port)[..4] == h[..4];
      assert (h + port)[4..] == h[4..] + port;
    } else {
      assert (h + port)[|h|] == ':';
    }
  }

  /** An explicit default port matches an implicit one when both schemes agree:
      `http://h:80` is internal to `http://h`, `https://h:443` to `https://h`. */
  lemma DefaultPortInternal(a: Uri, b: Uri, port: string)
    requires (port == ":80" && a.scheme == "http" && b.scheme == "http")
          || (port == ":443" && a.scheme == "https" && b.scheme == "https")
    requires a.netloc == b.netloc + port && !IsSuffix(port, b.netloc)
    ensures !ExternalTo(a, b)
  {
    StripWwwPort(b.netloc, port);
    var hb := StripWww(b.netloc);
    assert IsSuffix(hb, b.netloc);
    SuffixOfSuffix(port, hb, b.netloc);
    assert IsSuffix(port, hb + port);
    assert (hb + port)[..|hb|] == hb;
  }

  /** A port is kept unless both schemes agree: `http://h:80` is external to
      `https://h`. */
  lemma PortKeptAcrossSchemes(a: Uri, b: Uri)
    requires a.scheme == "http" && b.scheme == "https" && a.netloc == b.netloc + ":80"
    ensures ExternalTo(a, b)
  {
    StripWwwPort(b.netloc, ":80");
  }

  /** `==`: equal canonical strings, a string operand being parsed first. An operand
      that is neither a URL nor a string has no `url()`: an AttributeError. */
  function Equal(self: Uri, other: Target): (r: Result<bool, Error>)
    ensures other.OtherArg? <==> r == Failure(AttributeError)
    ensures other.UrlArg? ==> r == Success(Url.Canonical(self) == Url.Canonical(other.u))
    ensures other.StrArg? ==> r == Success(Url.Canonical(self) == Url.Canonical(Parse(other.s)))
  {
    match ParsedTarget(other)
    case None => Failure(AttributeError)
    case Some(u) => Success(Url.Canonical(self) == Url.Canonical(u))
  }

  /** `__hash__`: the hash of the canonical string, for Python's string hash `strHash`. */
  function Hash(self: Uri, strHash: string -> int): int
  {
    strHash(Url.Canonical(self))
  }

  /** Equal links hash equally, whatever the string hash. */
  lemma EqualHashEqual(a: Uri, b: Uri, strHash: string -> int)
    requires Equal(a, UrlArg(b)) == Success(true)
    ensures Hash(a, strHash) == Hash(b, strHash)
  {
  }

  /** Without query and fragment, text appended to the path ends the recomposed URL. */
  lemma RecomposeAppendPath(u: Uri, t: string)
    requires u.query == "" && u.fragment == ""
    ensures Recompose(u.(path := u.path + t)) == Recompose(u) + t
  {
    var v := u.(path := u.path + t);
    assert QueryPart(v) == QueryPart(u) == "";
    assert HierPart(v) == HierPart(u) + t;
  }

  /** URLs that differ only in trailing slashes are equal. */
  lemma TrailingSlashEqual(u: Uri, n: nat)
    requires u.query == "" && u.fragment == ""
    ensures Equal(u, UrlArg(u.(path := u.path + Slashes(n)))) == Success(true)
  {
    RecomposeAppendPath(u, Slashes(n));
    RStripSlashes(Recompose(u), n);
  }

  /** `n` slashes. */
  function Slashes(n: nat): (r: string)
    ensures |r| == n && forall i :: 0 <= i < n ==> r[i] == '/'
  {
    if n == 0 then "" else Slashes(n - 1) + "/"
  }

  /** Trailing slashes make no difference to `rstrip("/")`. */
  lemma {:induction false} RStripSlashes(s: string, n: nat)
    ensures RStripChar(s + Slashes(n), '/') == RStripChar(s, '/')
  {
    if n > 0 {
      var t := s + Slashes(n);
      assert t[..|t| - 1] == s + Slashes(n - 1);
      RStripSlashes(s, n - 1);
    } else {
      assert s + Slashes(n) == s;
    }
  }
}
