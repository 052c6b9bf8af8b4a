/** A stand-in for the part of Python's `urllib.parse` the crawler uses, written as the
    algorithms of RFC 3986: splitting a reference into components (section 3 and
    Appendix B), putting them back together (section 5.3) and resolving a relative
    reference against a base (section 5.2). Python's `urljoin` and `geturl` depart from
    the RFC on some inputs (an empty reference keeps the base's fragment, dot segments
    stay in a reference with its own authority, `http:foo` is read as relative, empty
    segments of a merged path are dropped); this module follows the RFC. */
module Uri {
  import opened Text

  /** The components of RFC 3986 section 3. As in `urlparse`, a component that is
      absent is the empty string. */
  datatype Uri = Uri(scheme: string, netloc: string, path: string, query: string, fragment: string)

  /** The length of the longest prefix of `s` with no character of `stop`. */
  function Span(s: string, stop: set<char>): (n: nat)
    ensures n <= |s|
    ensures forall i :: 0 <= i < n ==> s[i] !in stop
    ensures n < |s| ==> s[n] in stop
  {
    if s == [] || s[0] in stop then 0 else 1 + Span(s[1..], stop)
  }

  /** Where the scheme's `:` stands, per `^(([^:/?#]+):)?` in Appendix B, or -1. */
  function SchemeColon(s: string): (i: int)
    ensures i == -1 || (0 < i < |s| && s[i] == ':')
  {
    var n := Span(s, {':', '/', '?', '#'});
    if 0 < n < |s| && s[n] == ':' then n else -1
  }

  /** Split a URI reference into its five components, following the regular expression
      of RFC 3986 Appendix B, `^(([^:/?#]+):)?(//([^/?#]*))?([^?#]*)(\?([^#]*))?(#(.*))?`,
      one group at a time. */
  function Parse(s: string): Uri
  {
    var (scheme, r1) := SplitScheme(s);
    var (netloc, r2) := SplitAuthority(r1);
    var (path, r3) := SplitPath(r2);
    var (query, r4) := SplitQuery(r3);
    Uri(scheme, netloc, path, query, SplitFragment(r4))
  }

  /** `(([^:/?#]+):)?`: the scheme and what follows its colon. */
  function SplitScheme(s: string): (string, string)
  {
    var c := SchemeColon(s);
    if c == -1 then ("", s) else (s[..c], s[c + 1..])
  }

  /** `(//([^/?#]*))?`: the authority and what follows it. */
  function SplitAuthority(s: string): (string, string)
  {
    if "//" <= s then
      var a := Span(s[2..], {'/', '?', '#'});
      (s[2..2 + a], s[2 + a..])
    else ("", s)
  }

  /** `([^?#]*)`: the path and what follows it. */
  function SplitPath(s: string): (string, string)
  {
    var p := Span(s, {'?', '#'});
    (s[..p], s[p..])
  }

  /** `(\?([^#]*))?`: the query and what follows it. */
  function SplitQuery(s: string): (string, string)
  {
    if s != [] && s[0] == '?' then
      var q := Span(s[1..], {'#'});
      (s[1..1 + q], s[1 + q..])
    else ("", s)
  }

  /** `(#(.*))?`: the fragment. */
  function SplitFragment(s: string): string
  {
    if s != [] && s[0] == '#' then s[1..] else ""
  }

  /** Put the components back together (RFC 3986 section 5.3), which is what `geturl`
      does. Empty components are left out together with their delimiters. */
  function Recompose(u: Uri): string
  {
    (if u.scheme != "" then u.scheme + ":" else "") + HierPart(u)
  }

  /** What `Recompose` puts after the scheme. */
  function HierPart(u: Uri): string
  {
    (if u.netloc != "" then "//" + u.netloc else "") + (u.path + QueryPart(u))
  }

  /** What `Recompose` puts after the path: query and fragment. */
  function QueryPart(u: Uri): string
  {
    (if u.query != "" then "?" + u.query else "") + (if u.fragment != "" then "#" + u.fragment else "")
  }

  /** No character of `s` is in `stop`. */
  predicate NoneIn(s: string, stop: set<char>)
  {
    forall i :: 0 <= i < |s| ==> s[i] !in stop
  }

  /** The components `Parse` can give back unchanged: no delimiter inside a component
      that would end it early, an authority followed by an absolute or empty path, and
      no path that could be read as an authority or a scheme. */
  predicate WellFormed(u: Uri)
  {
    && NoneIn(u.scheme, {':', '/', '?', '#'})
    && NoneIn(u.netloc, {'/', '?', '#'})
    && NoneIn(u.path, {'?', '#'})
    && NoneIn(u.query, {'#'})
    && (u.netloc != "" ==> u.path == "" || u.path[0] == '/')
    && (u.netloc == "" ==> !("//" <= u.path))
    && (u.scheme == "" && u.netloc == "" ==> SchemeColon(u.path) == -1)
  }

  /** How far `Span` reaches into a concatenation. */
  lemma {:induction false} SpanAppend(a: string, b: string, stop: set<char>)
    ensures Span(a + b, stop) == if Span(a, stop) < |a| then Span(a, stop) else |a| + Span(b, stop)
  {
    if a == [] {
      assert a + b == b;
    } else if a[0] in stop {
      assert (a + b)[0] == a[0];
    } else {
      assert (a + b)[1..] == a[1..] + b;
      SpanAppend(a[1..], b, stop);
    }
  }

  /** `Span` over a prefix none of whose characters stops it, followed by one that does. */
  lemma SpanOfPrefix(a: string, b: string, stop: set<char>)
    requires NoneIn(a, stop) && (b == [] || b[0] in stop)
    ensures Span(a + b, stop) == |a|
  {
    SpanAppend(a, b, stop);
    assert Span(a, stop) == |a|;
    assert Span(b, stop) == 0;
  }

  lemma SplitSchemePrefixed(scheme: string, rest: string)
    requires scheme != [] && NoneIn(scheme, {':', '/', '?', '#'})
    ensures SplitScheme(scheme + ":" + rest) == (scheme, rest)
  {
    var s := scheme + ":" + rest;
    assert s == scheme + (":" + rest);
    SpanOfPrefix(scheme, ":" + rest, {':', '/', '?', '#'});
    assert s[|scheme|] == ':';
    assert s[..|scheme|] == scheme;
    assert s[|scheme| + 1..] == rest;
  }

  lemma SchemeColonOfPath(path: string, qf: string)
    requires SchemeColon(path) == -1 && (qf == [] || qf[0] in {'?', '#'})
    ensures SchemeColon(path + qf) == -1
  {
    var delims := {':', '/', '?', '#'};
    SpanAppend(path, qf, delims);
    var n := Span(path, delims);
    if n == |path| {
      assert Span(qf, delims) == 0;
      assert qf != [] ==> (path + qf)[n] == qf[0];
    } else {
      assert (path + qf)[n] == path[n];
    }
  }

  lemma SplitSchemeOf(u: Uri)
    requires WellFormed(u)
    ensures SplitScheme(Recompose(u)) == (u.scheme, HierPart(u))
  {
    var qf := QueryPart(u);
    if u.scheme != "" {
      assert Recompose(u) == u.scheme + ":" + HierPart(u);
      SplitSchemePrefixed(u.scheme, HierPart(u));
    } else if u.netloc != "" {
      assert Recompose(u) == HierPart(u);
      assert Recompose(u)[0] == '/';
      assert Span(Recompose(u), {':', '/', '?', '#'}) == 0;
    } else {
      assert Recompose(u) == HierPart(u) == u.path + qf;
      assert qf == [] || qf[0] in {'?', '#'};
      SchemeColonOfPath(u.path, qf);
    }
  }

  lemma SplitAuthorityOf(u: Uri)
    requires WellFormed(u)
    ensures SplitAuthority(HierPart(u)) == (u.netloc, u.path + QueryPart(u))
  {
    if u.netloc != "" {
      SplitAuthorityWith(u);
    } else {
      SplitAuthorityWithout(u);
    }
  }

  /** `SplitAuthorityOf` when there is an authority: `//` and the host come first. */
  lemma SplitAuthorityWith(u: Uri)
    requires WellFormed(u) && u.netloc != ""
    ensures SplitAuthority(HierPart(u)) == (u.netloc, u.path + QueryPart(u))
  {
    var qf := QueryPart(u);
    var pqf := u.path + qf;
    var rest := HierPart(u);
    assert qf == [] || qf[0] in {'?', '#'};
    assert rest == "//" + (u.netloc + pqf);
    assert rest[2..] == u.netloc + pqf;
    assert pqf == [] || pqf[0] in {'/', '?', '#'};
    SpanOfPrefix(u.netloc, pqf, {'/', '?', '#'});
    assert "//" <= rest;
    assert rest[2..2 + |u.netloc|] == u.netloc;
    assert rest[2 + |u.netloc|..] == pqf;
  }

  /** `SplitAuthorityOf` without an authority: the text does not start with `//`. */
  lemma SplitAuthorityWithout(u: Uri)
    requires WellFormed(u) && u.netloc == ""
    ensures SplitAuthority(HierPart(u)) == (u.netloc, u.path + QueryPart(u))
  {
    var qf := QueryPart(u);
    var pqf := u.path + qf;
    assert qf == [] || qf[0] in {'?', '#'};
    assert HierPart(u) == pqf;
    if |u.path| >= 2 {
      assert pqf[..2] == u.path[..2];
    } else if u.path == [] {
      assert pqf == qf;
    } else {
      assert qf == [] || pqf[1] == qf[0];
    }
  }

  lemma SplitPathOf(u: Uri)
    requires WellFormed(u)
    ensures SplitPath(u.path + QueryPart(u)) == (u.path, QueryPart(u))
  {
    var qf := QueryPart(u);
    assert qf == [] || qf[0] in {'?', '#'};
    SpanOfPrefix(u.path, qf, {'?', '#'});
    assert (u.path + qf)[..|u.path|] == u.path;
    assert (u.path + qf)[|u.path|..] == qf;
  }

  lemma SplitQueryOf(u: Uri)
    requires WellFormed(u)
    ensures SplitQuery(QueryPart(u)) == (u.query, if u.fragment != "" then "#" + u.fragment else "")
  {
    var f := if u.fragment != "" then "#" + u.fragment else "";
    var qf := QueryPart(u);
    if u.query != "" {
      assert qf == "?" + (u.query + f);
      assert qf[1..] == u.query + f;
      SpanOfPrefix(u.query, f, {'#'});
      assert qf[1..][..|u.query|] == u.query;
      assert qf[1 + |u.query|..] == f;
    } else {
      assert qf == f;
    }
  }

  /** Splitting then recomposing gives back the components of every well-formed `Uri`. */
  lemma ParseRecompose(u: Uri)
    requires WellFormed(u)
    ensures Parse(Recompose(u)) == u
  {
    SplitSchemeOf(u);
    SplitAuthorityOf(u);
    SplitPathOf(u);
    SplitQueryOf(u);
  }

  /** The offset where the first segment of `p` ends: its leading `/`, if any, and the
      characters up to the next `/`. */
  function SegmentEnd(p: string): (n: nat)
    requires p != []
    ensures 0 < n <= |p|
    ensures n < |p| ==> p[n] == '/'
  {
    if p[0] == '/' then 1 + Span(p[1..], {'/'}) else Span(p, {'/'})
  }

  /** Remove the last segment of `out` and the `/` before it (RFC 3986 section 5.2.4, rules
      C and D). */
  function DropLastSegment(out: string): (r: string)
    ensures r <= out
  {
    var k := AfterLast(out, '/');
    if k == 0 then "" else out[..k - 1]
  }

  /** `remove_dot_segments` of RFC 3986 section 5.2.4: move `input` to `output` one segment
      at a time. A segment `.` or `..` with no leading `/` is dropped together with the `/`
      after it (rules A and D); `/.` becomes `/` (rule B); `/..` becomes `/` and takes the
      last segment of `output` with it (rule C); any other segment moves across (rule E). */
  function RemoveDots(input: string, output: string): string
    decreases |input|
  {
    if input == "" then output
    else
      var n := SegmentEnd(input);
      var seg, rest := input[..n], input[n..];
      if seg == "." || seg == ".." then RemoveDots(if rest == "" then "" else rest[1..], output)
      else if seg == "/." then RemoveDots(if rest == "" then "/" else rest, output)
      else if seg == "/.." then RemoveDots(if rest == "" then "/" else rest, DropLastSegment(output))
      else RemoveDots(rest, output + seg)
  }

  /** An absolute path (or the empty path) none of whose segments is `.` or `..`. */
  predicate DotFree(p: string)
    decreases |p|
  {
    p == "" || (p[0] == '/' && var n := SegmentEnd(p); p[1..n] != "." && p[1..n] != ".." && DotFree(p[n..]))
  }

  /** A path with no dot segment passes through `remove_dot_segments` unchanged. */
  lemma {:induction false} RemoveDotsOfDotFree(input: string, output: string)
    requires DotFree(input)
    ensures RemoveDots(input, output) == output + input
    decreases |input|
  {
    if input == "" {
      assert output + input == output;
    } else {
      var n := SegmentEnd(input);
      var seg := input[..n];
      assert seg == "/" + input[1..n];
      assert seg[1..] == input[1..n];
      assert seg != "." && seg != ".." && seg != "/." && seg != "/..";
      assert RemoveDots(input, output) == RemoveDots(input[n..], output + seg);
      RemoveDotsOfDotFree(input[n..], output + seg);
      assert output + input[..n] + input[n..] == output + input;
    }
  }

  /** Where the first segment ends when it is spelled out. */
  lemma SegmentEndOf(seg: string, rest: string)
    requires NoneIn(seg, {'/'}) && (rest == [] || rest[0] == '/')
    ensures seg != [] ==> SegmentEnd(seg + rest) == |seg| && (seg + rest)[..|seg|] == seg && (seg + rest)[|seg|..] == rest
    ensures SegmentEnd("/" + seg + rest) == 1 + |seg|
    ensures ("/" + seg + rest)[..1 + |seg|] == "/" + seg && ("/" + seg + rest)[1 + |seg|..] == rest
  {
    SpanOfPrefix(seg, rest, {'/'});
    assert ("/" + seg + rest)[1..] == seg + rest;
  }

  /** Merge a relative path with the base path (RFC 3986 section 5.2.3). */
  function Merge(base: Uri, ref: string): (r: string)
    ensures base.netloc != "" && base.path == "" ==> r == "/" + ref
    ensures IsSuffix(ref, r)
  {
    if base.netloc != "" && base.path == "" then "/" + ref
    else base.path[..AfterLast(base.path, '/')] + ref
  }

  /** Transform a parsed reference into a target against a parsed base (RFC 3986
      section 5.2.2), with empty components taken as undefined. */
  function Transform(base: Uri, ref: Uri): (t: Uri)
    ensures t.fragment == ref.fragment
    ensures t.scheme == if ref.scheme != "" then ref.scheme else base.scheme
    ensures t.netloc == if ref.scheme != "" || ref.netloc != "" then ref.netloc else base.netloc
    ensures ref.scheme == "" && ref.netloc == "" && ref.path == "" ==>
              t.path == base.path && t.query == (if ref.query != "" then ref.query else base.query)
    ensures ref.scheme != "" || ref.netloc != "" || ref.path != "" ==> t.query == ref.query
  {
    if ref.scheme != "" then
      ref.(path := RemoveDots(ref.path, ""))
    else if ref.netloc != "" then
      Uri(base.scheme, ref.netloc, RemoveDots(ref.path, ""), ref.query, ref.fragment)
    else if ref.path == "" then
      Uri(base.scheme, base.netloc, base.path, if ref.query != "" then ref.query else base.query, ref.fragment)
    else if ref.path[0] == '/' then
      Uri(base.scheme, base.netloc, RemoveDots(ref.path, ""), ref.query, ref.fragment)
    else
      Uri(base.scheme, base.netloc, RemoveDots(Merge(base, ref.path), ""), ref.query, ref.fragment)
  }

  /** `urljoin(base, ref)`: resolve `ref` against `base` and recompose the target. */
  function Resolve(base: string, ref: string): string
  {
    Recompose(Transform(Parse(base), Parse(ref)))
  }

  /** A reference with its own scheme and a dot-free path resolves to itself. */
  lemma ResolveAbsolute(base: string, ref: Uri)
    requires WellFormed(ref) && ref.scheme != "" && DotFree(ref.path)
    ensures Resolve(base, Recompose(ref)) == Recompose(ref)
  {
    ParseRecompose(ref);
    RemoveDotsOfDotFree(ref.path, "");
    assert "" + ref.path == ref.path;
  }

  /** `Parse` of a string spelled out as the recomposition of its components. */
  lemma ParseOf(s: string, u: Uri)
    requires WellFormed(u) && s == Recompose(u)
    ensures Parse(s) == u
  {
    ParseRecompose(u);
  }

  /** Rule E: a segment other than `.` and `..` moves to the output. */
  lemma RemoveDotsMove(seg: string, rest: string, out: string)
    requires NoneIn(seg, {'/'}) && seg != "." && seg != ".." && (rest == [] || rest[0] == '/')
    ensures RemoveDots("/" + seg + rest, out) == RemoveDots(rest, out + ("/" + seg))
  {
    SegmentEndOf(seg, rest);
    var sl := "/" + seg;
    assert sl[1..] == seg;
  }

  /** Rule C: `/..` removes the last segment of the output. */
  lemma RemoveDotsUp(rest: string, out: string)
    requires rest == [] || rest[0] == '/'
    ensures RemoveDots("/.." + rest, out) == RemoveDots(if rest == [] then "/" else rest, DropLastSegment(out))
  {
    SegmentEndOf("..", rest);
    assert "/.." + rest == "/" + ".." + rest;
  }

  /** A relative path whose first segment is `..`, merged against a base with an
      authority and an empty path. */
  lemma DotFreeCons(seg: string, rest: string)
    requires NoneIn(seg, {'/'}) && seg != "." && seg != ".." && DotFree(rest)
    ensures DotFree("/" + seg + rest)
  {
    SegmentEndOf(seg, rest);
    assert ("/" + seg + rest)[1..1 + |seg|] == seg;
  }

  /** Resolving a path-relative reference against a base with a scheme. */
  lemma ResolvePathRelative(base: string, ref: string, b: Uri, path: string)
    requires WellFormed(b) && base == Recompose(b)
    requires ref != [] && ref[0] != '/' && NoneIn(ref, {'?', '#'}) && SchemeColon(ref) == -1
    requires path == RemoveDots(Merge(b, ref), "")
    ensures Resolve(base, ref) == Recompose(Uri(b.scheme, b.netloc, path, "", ""))
  {
    var r := Uri("", "", ref, "", "");
    assert Recompose(r) == ref by {
      assert ref + "" == ref;
    }
    ResolveRecomposed(b, r);
    assert Transform(b, r) == Uri(b.scheme, b.netloc, path, "", "");
  }

  /** Resolving between recomposed values is transforming the values. */
  lemma ResolveRecomposed(b: Uri, r: Uri)
    requires WellFormed(b) && WellFormed(r)
    ensures Resolve(Recompose(b), Recompose(r)) == Recompose(Transform(b, r))
  {
    ParseRecompose(b);
    ParseRecompose(r);
  }

  /** What the vectors below ask of their parts: a scheme, a host, and path segments
      that are neither `.` nor `..`. */
  predicate IsScheme(scheme: string)
  {
    scheme != "" && NoneIn(scheme, {':', '/', '?', '#'})
  }

  predicate IsHost(host: string)
  {
    host != "" && NoneIn(host, {'/', '?', '#'})
  }

  predicate IsSegment(seg: string)
  {
    NoneIn(seg, {':', '/', '?', '#'}) && seg != "." && seg != ".."
  }

  /** A base `scheme://host/dir/` or `scheme://host/file` as components. */
  lemma BaseOf(scheme: string, host: string, path: string)
    requires IsScheme(scheme) && IsHost(host) && path != [] && path[0] == '/' && NoneIn(path, {'?', '#'})
    ensures WellFormed(Uri(scheme, host, path, "", ""))
  {
  }

  /** `seg` and `../seg` are path-relative references with no scheme. */
  lemma RelativeRef(seg: string)
    requires seg != [] && IsSegment(seg)
    ensures seg[0] != '/' && NoneIn(seg, {'?', '#'}) && SchemeColon(seg) == -1
    ensures var up := "../" + seg; up[0] != '/' && NoneIn(up, {'?', '#'}) && SchemeColon(up) == -1
  {
    SpanOfPrefix(seg, "", {':', '/', '?', '#'});
    assert seg + "" == seg;
    SpanOfPrefix("..", "/" + seg, {':', '/', '?', '#'});
    assert "../" + seg == ".." + ("/" + seg);
  }

  /** A one-segment reference against a directory base lands in that directory
      (the test vector of `tests/test_links.py`, `http://localhost:1313/documentation/` + `part1.html`). */
  lemma ResolveIntoDirectory(scheme: string, host: string, dir: string, file: string)
    requires IsScheme(scheme) && IsHost(host) && IsSegment(dir) && file != [] && IsSegment(file)
    ensures Resolve(Recompose(Uri(scheme, host, "/" + dir + "/", "", "")), file)
         == Recompose(Uri(scheme, host, "/" + dir + "/" + file, "", ""))
  {
    var path := "/" + dir + "/";
    BaseOf(scheme, host, path);
    RelativeRef(file);
    var b := Uri(scheme, host, path, "", "");
    assert AfterLast(path, '/') == |path|;
    assert path[..|path|] == path;
    var merged := "/" + dir + ("/" + file + "");
    assert Merge(b, file) == merged;
    DotFreeCons(file, "");
    DotFreeCons(dir, "/" + file + "");
    RemoveDotsOfDotFree(merged, "");
    assert "" + merged == merged == "/" + dir + "/" + file;
    ResolvePathRelative(Recompose(b), file, b, merged);
  }

  /** A one-segment reference against a base naming a file replaces that file
      (the test vector of `tests/test_links.py`, `http://localhost:1313/documentation` + `part1.html`). */
  lemma ResolveBesideFile(scheme: string, host: string, name: string, file: string)
    requires IsScheme(scheme) && IsHost(host) && IsSegment(name) && file != [] && IsSegment(file)
    ensures Resolve(Recompose(Uri(scheme, host, "/" + name, "", "")), file)
         == Recompose(Uri(scheme, host, "/" + file, "", ""))
  {
    var path := "/" + name;
    BaseOf(scheme, host, path);
    RelativeRef(file);
    var b := Uri(scheme, host, path, "", "");
    assert forall i :: 1 <= i < |path| ==> path[i] == name[i - 1];
    assert AfterLast(path, '/') == 1;
    var merged := "/" + file + "";
    assert Merge(b, file) == merged;
    DotFreeCons(file, "");
    RemoveDotsOfDotFree(merged, "");
    assert "" + merged == merged == "/" + file;
    ResolvePathRelative(Recompose(b), file, b, merged);
  }

  /** `../file` against a base naming a file at the top reaches the root
      (the test vector of `tests/test_links.py`, `http://localhost:1313/documentation` + `../part1.html`). */
  lemma ResolveUpFromFile(scheme: string, host: string, name: string, file: string)
    requires IsScheme(scheme) && IsHost(host) && IsSegment(name) && file != [] && IsSegment(file)
    ensures Resolve(Recompose(Uri(scheme, host, "/" + name, "", "")), "../" + file)
         == Recompose(Uri(scheme, host, "/" + file, "", ""))
  {
    var path := "/" + name;
    BaseOf(scheme, host, path);
    RelativeRef(file);
    var b := Uri(scheme, host, path, "", "");
    assert forall i :: 1 <= i < |path| ==> path[i] == name[i - 1];
    assert AfterLast(path, '/') == 1;
    var rest := "/" + file + "";
    assert Merge(b, "../" + file) == "/.." + rest;
    RemoveDotsUp(rest, "");
    assert DropLastSegment("") == "";
    DotFreeCons(file, "");
    RemoveDotsOfDotFree(rest, "");
    assert "" + rest == rest == "/" + file;
    ResolvePathRelative(Recompose(b), "../" + file, b, rest);
  }

  /** `../file` against a directory base leaves that directory
      (the test vector of `tests/test_links.py`, `http://localhost:1313/documentation/` + `../part1.html`). */
  lemma ResolveUpFromDirectory(scheme: string, host: string, dir: string, file: string)
    requires IsScheme(scheme) && IsHost(host) && IsSegment(dir) && file != [] && IsSegment(file)
    ensures Resolve(Recompose(Uri(scheme, host, "/" + dir + "/", "", "")), "../" + file)
         == Recompose(Uri(scheme, host, "/" + file, "", ""))
  {
    var path := "/" + dir + "/";
    BaseOf(scheme, host, path);
    RelativeRef(file);
    var b := Uri(scheme, host, path, "", "");
    assert AfterLast(path, '/') == |path|;
    assert path[..|path|] == path;
    var rest := "/" + file + "";
    assert Merge(b, "../" + file) == "/" + dir + ("/.." + rest);
    RemoveDotsMove(dir, "/.." + rest, "");
    DropTop(dir);
    RemoveDotsUp(rest, "" + ("/" + dir));
    DotFreeCons(file, "");
    RemoveDotsOfDotFree(rest, "");
    assert "" + rest == rest == "/" + file;
    ResolvePathRelative(Recompose(b), "../" + file, b, rest);
  }

  /** Removing the only segment of `/dir` leaves nothing. */
  lemma DropTop(dir: string)
    requires NoneIn(dir, {'/'})
    ensures DropLastSegment("" + ("/" + dir)) == ""
  {
    var top := "" + ("/" + dir);
    assert top[0] == '/';
    assert forall i :: 1 <= i < |top| ==> top[i] == dir[i - 1] && top[i] != '/';
    assert AfterLast(top, '/') == 1;
  }
}
