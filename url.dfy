/** A crawled URL: its parsed components, the checks made on them, the page-existence
    cache that guarantees one request per object, the pages that refer to it, and the
    links scanned out of its body. */
module Url {
  import opened Wrappers
  import opened Text
  import opened Uri
  import opened Request
  import opened LinkStatus

  // ---------------------------------------------------------------------------
  // Checks on the parsed components

  /** `is_valid`: both a scheme and a network location. */
  predicate IsValid(u: Uri)
  {
    u.scheme != "" && u.netloc != ""
  }

  /** A reference with no scheme is never valid, whatever follows. */
  lemma NoSchemeInvalid(s: string)
    requires SchemeColon(s) == -1
    ensures !IsValid(Parse(s))
  {
  }

  /** "localhost" alone is a path, not a host. */
  lemma BareHostInvalid(s: string)
    requires s == "localhost"
    ensures !IsValid(Parse(s))
  {
    SpanOfPrefix(s, "", {':', '/', '?', '#'});
    assert s + "" == s;
    NoSchemeInvalid(s);
  }

  /** Some pattern of `patterns` is a substring of `s`: the early-return loop of
      `match_domains` and `match_pathes`. */
  function MatchAny(patterns: seq<string>, s: string): (r: bool)
    ensures r <==> exists i :: 0 <= i < |patterns| && Contains(s, patterns[i])
  {
    if patterns == [] then false
    else if Contains(s, patterns[0]) then true
    else
      var r := MatchAny(patterns[1..], s);
      assert forall i :: 1 <= i < |patterns| ==> patterns[i] == patterns[1..][i - 1];
      r
  }

  /** `match_domains`: an ignored domain occurs in the network location. */
  function MatchDomains(u: Uri, domains: seq<string>): (r: bool)
    ensures r <==> exists i :: 0 <= i < |domains| && Contains(u.netloc, domains[i])
    ensures domains == [] ==> !r
  {
    MatchAny(domains, u.netloc)
  }

  /** `match_pathes`: an ignored path occurs in the path. */
  function MatchPathes(u: Uri, pathes: seq<string>): (r: bool)
    ensures r <==> exists i :: 0 <= i < |pathes| && Contains(u.path, pathes[i])
    ensures pathes == [] ==> !r
  {
    MatchAny(pathes, u.path)
  }

  /** `url()` (and `str()`): the recomposed URL with every trailing `/` removed. */
  function Canonical(u: Uri): (r: string)
    ensures r <= Recompose(u)
    ensures r == [] || r[|r| - 1] != '/'
    ensures forall i :: |r| <= i < |Recompose(u)| ==> Recompose(u)[i] == '/'
  {
    RStripChar(Recompose(u), '/')
  }

  // ---------------------------------------------------------------------------
  // The href scanner

  /** The attribute text of a tag `<a` + one white-space character + one or more
      characters other than `>` + `>` starting at the front of `t`, if there is one. */
  function TagAt(t: string): (r: Option<string>)
    ensures r.Some? ==> r.value != [] && 4 + |r.value| <= |t| && t[3..3 + |r.value|] == r.value
    ensures r.Some? ==> '>' !in r.value && t[3 + |r.value|] == '>'
  {
    if |t| < 3 || t[0] != '<' || t[1] != 'a' || !IsSpace(t[2]) then None
    else
      var n := Span(t[3..], {'>'});
      if n == 0 || 3 + n == |t| then None
      else Some(t[3..3 + n])
  }

  /** `findall` of that pattern: the attribute texts of the non-overlapping matches,
      left to right. */
  function FindTags(t: string): (r: seq<string>)
    ensures forall i :: 0 <= i < |r| ==> r[i] != [] && '>' !in r[i]
    decreases |t|
  {
    if t == [] then []
    else match TagAt(t)
      case Some(a) =>
        var rest := FindTags(t[4 + |a|..]);
        [a] + rest
      case None => FindTags(t[1..])
  }

  /** The href value of one tag's attributes, before cleaning: the text after the first
      `href=`, stripped, read by `HrefValue`. */
  function HrefOf(attr: string): (r: Option<string>)
    ensures r.Some? ==> r.value != [] && Contains(attr, "href=")
    ensures !Contains(attr, "href=") ==> r.None?
  {
    var pos := Find(attr, "href=");
    if pos == -1 then None else HrefValue(StripSpace(attr[pos + 5..]))
  }

  /** A stripped href value: if quoted, up to the matching quote (nothing when the quote
      is never closed); otherwise up to and including the first space. An empty value
      gives nothing. */
  function HrefValue(href: string): (r: Option<string>)
    ensures r.Some? ==> r.value != []
  {
    if href == "" then None
    else
      var link :=
        if href[0] == '"' || href[0] == '\'' then
          var endPos := Find(href[1..], [href[0]]);
          if endPos == -1 then None else Some(href[1..endPos + 1])
        else
          var endPos := Find(href, " ");
          Some(if endPos == -1 then href else href[..endPos + 1]);
      if link.None? || link.value == "" then None else link
  }

  /** `CLEANER`: strip double and single quotes, new lines and spaces from both ends. */
  function Clean(s: string): (r: string)
    ensures r == [] || (r[0] !in {'"', '\'', '\n', ' '} && r[|r| - 1] !in {'"', '\'', '\n', ' '})
  {
    Strip(s, c => c in {'"', '\'', '\n', ' '})
  }

  /** `ANCHORS`: the part before the first `#`. */
  function Anchor(s: string): (r: string)
    ensures r <= s && '#' !in r
    ensures |r| < |s| ==> s[|r|] == '#'
  {
    s[..Span(s, {'#'})]
  }

  /** The raw hrefs of a sequence of tags, in order, one at most per tag. */
  function Hrefs(tags: seq<string>): (r: seq<string>)
    ensures |r| <= |tags|
  {
    if tags == [] then []
    else
      var last := HrefOf(tags[|tags| - 1]);
      Hrefs(tags[..|tags| - 1]) + (if last.Some? then [last.value] else [])
  }

  /** What `_consume_links` returns for a page body. */
  function Consumed(text: string): seq<string>
  {
    var raw := Hrefs(FindTags(text));
    seq(|raw|, i requires 0 <= i < |raw| => Anchor(Clean(raw[i])))
  }

  /** `_consume_links`: scan the tags, keep each tag's href, then clean the list. */
  method ConsumeLinks(text: string) returns (result: seq<string>)
    ensures result == Consumed(text)
    ensures |result| <= |FindTags(text)|
    ensures forall i :: 0 <= i < |result| ==> '#' !in result[i]
  {
    var tags := FindTags(text);
    var links := CollectHrefs(tags);
    result := seq(|links|, k requires 0 <= k < |links| => Anchor(Clean(links[k])));
  }

  /** The scanning loop of `_consume_links`: each tag's href, when it has one, is
      appended to `links`. */
  method CollectHrefs(tags: seq<string>) returns (links: seq<string>)
    ensures links == Hrefs(tags)
  {
    links := [];
    var i := 0;
    while i < |tags|
      invariant 0 <= i <= |tags|
      invariant links == Hrefs(tags[..i])
    {
      assert tags[..i + 1][..i] == tags[..i];
      var link := HrefOf(tags[i]);
      if link.Some? {
        links := links + [link.value];
      }
      i := i + 1;
    }
    assert tags[..|tags|] == tags;
  }

  /** `Find` of a pattern the string starts with. */
  lemma FindAtFront(s: string, p: string)
    requires p <= s
    ensures Find(s, p) == 0
  {
  }

  /** A tag's attributes that start with `href=`. */
  lemma HrefOfFront(x: string)
    ensures HrefOf("href=" + x) == HrefValue(StripSpace(x))
  {
    var attr := "href=" + x;
    FindAtFront(attr, "href=");
    assert attr[5..] == x;
  }

  /** Only the first `href=` of a tag counts: the value is read from there on. */
  lemma HrefFromFirst(attr: string)
    requires Contains(attr, "href=")
    ensures HrefOf(attr) == HrefOf(attr[Find(attr, "href=")..])
  {
    var pos := Find(attr, "href=");
    var t := attr[pos..];
    assert t == "href=" + attr[pos + 5..];
    HrefOfFront(attr[pos + 5..]);
  }

  /** Stripping `[q] + v + [q] + post` keeps its quoted front. */
  lemma StripKeepsQuoted(q: char, v: string, post: string)
    requires q == '"' || q == '\''
    ensures var href := StripSpace([q] + v + [q] + post);
      |href| >= |v| + 2 && href[..|v| + 2] == [q] + v + [q]
  {
    var s := [q] + v + [q] + post;
    var l := LStrip(s, IsSpace);
    assert l == s;
    var r := RStrip(l, IsSpace);
    assert s[|v| + 1] == q;
    assert |r| >= |v| + 2;
    assert r == s[..|r|];
    assert s[..|v| + 2] == [q] + v + [q];
  }

  /** Where a one-character pattern occurs. */
  lemma OccursChar(t: string, c: char, k: int)
    ensures OccursAt(t, [c], k) <==> 0 <= k < |t| && t[k] == c
  {
    if 0 <= k < |t| {
      assert t[k..k + 1] == [t[k]];
    }
  }

  /** `Find` of one character: the first index holding it, or -1. */
  lemma FindChar(t: string, c: char, k: int)
    requires k == -1 ==> c !in t
    requires k != -1 ==> 0 <= k < |t| && t[k] == c && c !in t[..k]
    ensures Find(t, [c]) == k
  {
    forall j | 0 <= j && (k == -1 || j < k) ensures !OccursAt(t, [c], j) {
      OccursChar(t, c, j);
      if k != -1 && j < |t| {
        assert t[j] == t[..k][j];
      }
    }
    if k != -1 {
      OccursChar(t, c, k);
    }
  }

  /** A stripped value in quotes. */
  lemma QuotedValue(q: char, v: string, href: string)
    requires q == '"' || q == '\''
    requires |href| >= |v| + 2 && href[..|v| + 2] == [q] + v + [q] && q !in v
    ensures HrefValue(href) == if v == [] then None else Some(v)
  {
    var t := href[1..];
    assert href[..|v| + 2][1..|v| + 1] == v;
    assert t[..|v|] == v;
    assert t[|v|] == href[..|v| + 2][|v| + 1] == q;
    FindChar(t, q, |v|);
    assert href[1..|v| + 1] == v;
  }

  /** A quoted value is read up to its closing quote: `href="v"...` gives `v`, and an
      empty quoted value gives nothing. */
  lemma HrefQuoted(q: char, v: string, post: string)
    requires q == '"' || q == '\''
    requires q !in v
    ensures HrefOf("href=" + [q] + v + [q] + post) == if v == [] then None else Some(v)
  {
    var x := [q] + v + [q] + post;
    assert "href=" + [q] + v + [q] + post == "href=" + x;
    HrefOfFront(x);
    StripKeepsQuoted(q, v, post);
    QuotedValue(q, v, StripSpace(x));
  }

  /** A stripped value whose opening quote is never closed. */
  lemma UnterminatedValue(q: char, href: string)
    requires q == '"' || q == '\''
    requires href != [] && href[0] == q && q !in href[1..]
    ensures HrefValue(href) == None
  {
    FindChar(href[1..], q, -1);
  }

  /** Stripping keeps an unclosed quote unclosed. */
  lemma StripUnterminated(q: char, v: string)
    requires q == '"' || q == '\''
    requires q !in v
    ensures HrefValue(StripSpace([q] + v)) == None
  {
    StripKeepsQuote(q, v);
    UnterminatedValue(q, StripSpace([q] + v));
  }

  /** Stripping a value that opens with a quote keeps the quote first, and adds no
      other quote of that kind. */
  lemma StripKeepsQuote(q: char, v: string)
    requires q == '"' || q == '\''
    requires q !in v
    ensures var href := StripSpace([q] + v); href != [] && href[0] == q && q !in href[1..]
  {
    var x := [q] + v;
    assert !IsSpace(q);
    assert LStrip(x, IsSpace) == x;
    var href := RStrip(x, IsSpace);
    assert StripSpace(x) == href;
    RStripKeepsFirst(x, IsSpace);
    assert q !in href[1..] by {
      forall k | 0 <= k < |href| - 1 ensures href[1..][k] != q {
        assert href[1..][k] == x[1 + k] == v[k];
      }
    }
  }

  /** A quote that is never closed contributes nothing. */
  lemma HrefUnterminated(q: char, v: string)
    requires q == '"' || q == '\''
    requires q !in v
    ensures HrefOf("href=" + [q] + v) == None
  {
    assert "href=" + [q] + v == "href=" + ([q] + v);
    HrefOfFront([q] + v);
    StripUnterminated(q, v);
  }

  /** Stripping an unquoted value keeps its first word. */
  lemma StripKeepsWord(v: string, post: string)
    requires v != [] && forall k :: 0 <= k < |v| ==> !IsSpace(v[k])
    ensures var href := StripSpace(v + post); |href| >= |v| && href <= v + post && href[..|v|] == v
  {
    var s := v + post;
    assert LStrip(s, IsSpace) == s;
    var r := RStrip(s, IsSpace);
    assert !IsSpace(s[|v| - 1]);
    assert |r| >= |v|;
    assert r[..|v|] == s[..|v|] == v;
  }

  /** A stripped unquoted value: its first word, with the space after it if any. */
  lemma UnquotedValue(v: string, href: string)
    requires v != [] && v[0] != '"' && v[0] != '\''
    requires forall k :: 0 <= k < |v| ==> !IsSpace(v[k])
    requires |href| >= |v| && href[..|v|] == v && (|href| > |v| ==> href[|v|] == ' ')
    ensures HrefValue(href) == if |href| == |v| then Some(v) else Some(v + " ")
  {
    assert ' ' !in v by {
      forall k | 0 <= k < |v| ensures v[k] != ' ' {
        assert !IsSpace(v[k]);
      }
    }
    if |href| == |v| {
      assert href == v;
      FindChar(href, ' ', -1);
    } else {
      FindChar(href, ' ', |v|);
      assert href[..|v| + 1] == v + " ";
    }
  }

  /** An unquoted value runs to the first space, which it keeps and which `CLEANER`
      then removes: `href=v rest` and `href=v` both give `v` once cleaned. */
  lemma HrefUnquoted(v: string, post: string)
    requires v != [] && v[0] != '"' && v[0] != '\''
    requires forall k :: 0 <= k < |v| ==> !IsSpace(v[k])
    requires post == [] || post[0] == ' '
    ensures HrefOf("href=" + v + post) in {Some(v), Some(v + " ")}
  {
    assert "href=" + v + post == "href=" + (v + post);
    HrefOfFront(v + post);
    StripKeepsWord(v, post);
    var href := StripSpace(v + post);
    if |href| > |v| {
      assert href[|v|] == (v + post)[|v|] == post[0];
    }
    UnquotedValue(v, href);
  }

  /** A value that is only an anchor survives scanning but is empty once cut at `#`. */
  lemma AnchorOnly(v: string)
    requires v != [] && v[0] == '#'
    ensures Anchor(Clean(v)) == ""
  {
    var c := Clean(v);
    assert LStrip(v, c => c in {'"', '\'', '\n', ' '}) == v;
  }

  // ---------------------------------------------------------------------------
  // The mutable URL object

  /** What `exists` recorded about a failed request: nothing yet, the status code of a
      response outside 2xx, or the exception raised. */
  datatype FetchError = NoError | Code(code: int) | Exception(message: string)

  /** `referrers` with `r` appended unless it is there already. */
  function WithReferrer(referrers: seq<string>, r: string): (rs: seq<string>)
    ensures r in rs
    ensures forall x :: x in rs <==> x in referrers || x == r
    ensures referrers <= rs && |rs| <= |referrers| + 1
  {
    if r in referrers then referrers else referrers + [r]
  }

  /** No referrer is stored twice. */
  predicate Distinct(rs: seq<string>)
  {
    forall i, j :: 0 <= i < j < |rs| ==> rs[i] != rs[j]
  }

  lemma WithReferrerDistinct(referrers: seq<string>, r: string)
    requires Distinct(referrers)
    ensures Distinct(WithReferrer(referrers, r))
  {
  }

  /** Adding the same referrer twice leaves the list as adding it once. */
  lemma WithReferrerIdempotent(referrers: seq<string>, r: string)
    ensures WithReferrer(WithReferrer(referrers, r), r) == WithReferrer(referrers, r)
  {
  }

  /** `link(href)` of the URL whose components are `page`: `href` resolved against the
      page written out as it was given. */
  function LinkOf(page: Uri, href: string): string
  {
    Resolve(Recompose(page), href)
  }

  /** `URL`, with the `status`, `message` and `links` fields the crawler relies on. */
  class Url {
    ghost const location: string    // the constructor's argument
    const parsed: Uri
    const key: string               // `url()`, which depends on nothing but `parsed`
    var cached: Option<bool>        // `_exists`: None until the first `exists` call
    var error: FetchError           // `_error`
    var referrers: seq<string>      // `_referrers`
    var attempts: nat               // `_attempts`
    var links: seq<string>          // `_links`
    var status: Status
    var message: Option<string>

    /** At most one request is ever made: the counter is 0 before the first `exists`
        call and 1 after it. */
    ghost predicate Valid()
      reads this
    {
      attempts == (if cached.None? then 0 else 1)
    }

    /** `URL(location)`. */
    constructor (location: string)
      ensures this.location == location && parsed == Parse(location) && key == Canonical(parsed)
      ensures cached == None && error == NoError && referrers == [] && attempts == 0 && links == []
      ensures status == Undefined && message == None
      ensures Valid()
    {
      this.location := location;
      parsed := Parse(location);
      key := Canonical(Parse(location));
      cached := None;
      error := NoError;
      referrers := [];
      attempts := 0;
      links := [];
      status := Undefined;
      message := None;
    }

    /** `add_referrer`. */
    method AddReferrer(r: string)
      requires Valid()
      modifies this
      ensures referrers == WithReferrer(old(referrers), r)
      ensures cached == old(cached) && error == old(error) && attempts == old(attempts) && links == old(links)
      ensures status == old(status) && message == old(message)
      ensures Valid()
    {
      if r in referrers {
        return;
      }
      referrers := referrers + [r];
    }

    /** `exists(is_external, retries)`: the cached answer if there is one; otherwise one
        request, whose outcome is cached: 2xx means found and its body's links are kept,
        any other code or a raised exception means not found and is kept as the error. The
        retries are the HTTP client's business. */
    method Exists(web: Web, isExternal: bool, retries: nat) returns (found: bool)
      requires Valid()
      modifies this
      ensures old(cached).Some? ==> found == old(cached).value
      ensures old(cached).Some? ==>
                cached == old(cached) && attempts == old(attempts) && error == old(error) && links == old(links)
      ensures old(cached).None? ==> cached == Some(found) && attempts == old(attempts) + 1
      ensures old(cached).None? ==> found == PageFound(web, key, isExternal)
      ensures old(cached).None? ==>
                match Fetch(web, key, isExternal)
                case Raised(m) => !found && error == Exception(m) && links == old(links)
                case Received(resp) =>
                  && found == (resp.status / 100 == 2)
                  && (found ==> links == Consumed(resp.text) && error == old(error))
                  && (!found ==> error == Code(resp.status) && links == old(links))
      ensures referrers == old(referrers) && status == old(status) && message == old(message)
      ensures Valid() && attempts <= 1
    {
      if cached.Some? {
        return cached.value;
      }
      attempts := attempts + 1;
      var outcome := Fetch(web, key, isExternal);
      match outcome {
        case Raised(m) =>
          cached := Some(false);
          error := Exception(m);
          return false;
        case Received(resp) =>
          if resp.status / 100 == 2 {
            cached := Some(true);
            links := ConsumeLinks(resp.text);
            return true;
          }
          cached := Some(false);
          error := Code(resp.status);
          return false;
      }
    }

    /** `get_links`: the links of a page that was found, and none otherwise. */
    function GetLinks(): (r: seq<string>)
      reads this
      ensures cached != Some(true) ==> r == []
      ensures cached == Some(true) ==> r == links
    {
      if cached == Some(true) then links else []
    }

    /** `link(href)`: `href` resolved against this URL as it was given (not `url()`,
        which would lose a trailing `/`). */
    function Link(href: string): string
    {
      LinkOf(parsed, href)
    }

    /** For a well-formed URL, `link` resolves against the components themselves: writing
        the URL out and parsing it again loses nothing. */
    lemma LinkResolvesParsed(href: string)
      requires WellFormed(parsed)
      ensures Link(href) == Recompose(Transform(parsed, Parse(href)))
    {
      ParseRecompose(parsed);
    }
  }

  /** Once `exists` has answered, the answer never changes and no further request is
      made, whatever the web looks like on the second call. */
  method ExistsTwice(u: Url, web1: Web, web2: Web, isExternal: bool, retries: nat)
    returns (first: bool, second: bool)
    requires u.Valid()
    modifies u
    ensures first == second && u.cached == Some(first) && u.attempts == 1
  {
    first := u.Exists(web1, isExternal, retries);
    second := u.Exists(web2, isExternal, retries);
  }
}
