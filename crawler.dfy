/** `Crawler`: the breadth-first walk over a site. Links wait in a queue; each is looked
    up in the index, decided (ignored, not found, found), and a found page's links are
    resolved against it and queued in turn. */
module Crawler {
  import opened Wrappers
  import opened Uri
  import opened Errors
  import opened LinkStatus
  import opened Request
  import Url
  import Link
  import Index
  import Settings

  /** What the crawler reads from its settings, which cannot change once built. */
  datatype Config = Config(
    external: bool,
    domains: seq<string>,
    pathes: seq<string>,
    retry: nat,
    threads: nat,
    stayWithinPath: bool)

  /** The settings of a fully built `Settings` object. */
  function ConfigOf(s: Settings.Settings): (c: Config)
    reads s
    requires s.Complete()
    ensures c.external == s.external.value && c.domains == s.domains.value && c.pathes == s.pathes.value
    ensures c.retry == s.retry.value && c.threads == s.threads.value && c.stayWithinPath == s.stayWithinPath
  {
    Config(s.external.value, s.domains.value, s.pathes.value, s.retry.value, s.threads.value, s.stayWithinPath)
  }

  /** Why a URL is not checked. */
  datatype Reason = ExternalOff | IgnoredDomain | IgnoredPath | OutsidePath
  {
    /** The message the crawler stores on the link. */
    function Message(): string
    {
      match this
      case ExternalOff => "External indexation is Off"
      case IgnoredDomain => "Matching ignored domain"
      case IgnoredPath => "Matching ignored path"
      case OutsidePath => "URL outside of the allowed path"
    }
  }

  /** `is_ignored(url)`: the first rule that applies, in the order external links when
      they are not checked, ignored domains, ignored paths, internal links outside the
      base URL's path; `None` when no rule applies. */
  function IsIgnored(u: Uri, base: Uri, c: Config): (r: Option<Reason>)
    ensures r == Some(ExternalOff) <==> Link.ExternalTo(u, base) && !c.external
    ensures r == Some(IgnoredDomain) <==>
              !(Link.ExternalTo(u, base) && !c.external) && Url.MatchDomains(u, c.domains)
    ensures r == Some(IgnoredPath) <==>
              !(Link.ExternalTo(u, base) && !c.external) && !Url.MatchDomains(u, c.domains)
              && Url.MatchPathes(u, c.pathes)
    ensures r == Some(OutsidePath) ==> !Link.ExternalTo(u, base) && c.stayWithinPath && !(base.path <= u.path)
    ensures r == None <==>
              && !(Link.ExternalTo(u, base) && !c.external)
              && !Url.MatchDomains(u, c.domains)
              && !Url.MatchPathes(u, c.pathes)
              && !(!Link.ExternalTo(u, base) && c.stayWithinPath && !(base.path <= u.path))
  {
    if Link.ExternalTo(u, base) && !c.external then Some(ExternalOff)
    else if Url.MatchDomains(u, c.domains) then Some(IgnoredDomain)
    else if Url.MatchPathes(u, c.pathes) then Some(IgnoredPath)
    else if !Link.ExternalTo(u, base) && c.stayWithinPath && !(base.path <= u.path) then Some(OutsidePath)
    else None
  }

  /** The base URL is never ignored for its own sake: only an ignored domain or path can
      refuse it. */
  lemma BaseIgnoredOnlyByPatterns(base: Uri, c: Config)
    ensures IsIgnored(base, base, c).Some? <==> Url.MatchDomains(base, c.domains) || Url.MatchPathes(base, c.pathes)
  {
    Link.ExternalIrreflexive(base);
  }

  /** An external link is never refused for lying outside the base path, and with
      external checking off it is refused before any pattern is looked at. */
  lemma ExternalNeverOutside(u: Uri, base: Uri, c: Config)
    requires Link.ExternalTo(u, base)
    ensures IsIgnored(u, base, c) != Some(OutsidePath)
    ensures !c.external ==> IsIgnored(u, base, c) == Some(ExternalOff)
  {
  }

  /** `ignores()`: whether any domain or path is to be ignored. */
  function Ignores(c: Config): (r: bool)
    ensures r <==> c.domains != [] || c.pathes != []
  {
    |c.domains| > 0 || |c.pathes| > 0
  }

  /** Without ignore patterns, only the external and base-path rules can refuse a link. */
  lemma NoPatternsNoPatternReasons(u: Uri, base: Uri, c: Config)
    requires !Ignores(c)
    ensures IsIgnored(u, base, c) != Some(IgnoredDomain) && IsIgnored(u, base, c) != Some(IgnoredPath)
  {
  }

  /** The links `exists` keeps when the fetch of `url` finds a page: those `_consume_links`
      finds in the body received. */
  function PageLinks(web: Web, url: string, isExternal: bool): seq<string>
  {
    match Fetch(web, url, isExternal)
    case Received(resp) => Url.Consumed(resp.text)
    case Raised(_) => []
  }

  /** A link whose state the crawler can rely on: well formed, and not yet fetched while
      its status is UNDEFINED. */
  ghost predicate Tracked(u: Url.Url)
    reads u
  {
    u.Valid() && (u.status == Undefined ==> u.cached == None)
  }

  /** The keys of the links in `q`. */
  function KeysOf(q: seq<Url.Url>): set<string>
  {
    set i | 0 <= i < |q| :: q[i].key
  }

  /** Appending a link adds its key. */
  lemma KeysOfAppend(q: seq<Url.Url>, u: Url.Url)
    ensures KeysOf(q + [u]) == KeysOf(q) + {u.key}
  {
    var q' := q + [u];
    assert forall i :: 0 <= i < |q| ==> q'[i] == q[i];
    assert q'[|q|] == u;
  }

  /** Appending one link after two lists. */
  lemma AppendAfter(p: seq<Url.Url>, q: seq<Url.Url>, u: Url.Url)
    ensures (p + q) + [u] == p + (q + [u])
  {
  }

  /** The keys of two lists together. */
  lemma KeysOfConcat(p: seq<Url.Url>, q: seq<Url.Url>)
    ensures KeysOf(p + q) == KeysOf(p) + KeysOf(q)
  {
    var pq := p + q;
    assert forall i :: 0 <= i < |p| ==> pq[i] == p[i];
    assert forall i :: 0 <= i < |q| ==> pq[|p| + i] == q[i];
  }

  /** Taking the head off leaves the keys of the rest. */
  lemma KeysOfTail(q: seq<Url.Url>)
    requires q != []
    ensures KeysOf(q) == KeysOf(q[1..]) + {q[0].key}
  {
    assert forall i :: 1 <= i < |q| ==> q[1..][i - 1] == q[i];
  }

  /** The stored links after `put(u)`: `u` under its key unless the key is taken. */
  function Stored(e: map<string, Url.Url>, u: Url.Url): map<string, Url.Url>
  {
    if u.key in e then e else e[u.key := u]
  }

  /** The stored links after `put` of each link of `q` in turn: every link stored before
      stays, and each key added is that of a link of `q`, stored as that link. */
  function Extend(e: map<string, Url.Url>, q: seq<Url.Url>): (r: map<string, Url.Url>)
    ensures forall k :: k in e ==> k in r && r[k] == e[k]
    ensures forall k :: k in r && k !in e ==> r[k] in q && r[k].key == k && k in KeysOf(q)
    decreases |q|
  {
    if q == [] then e
    else
      var p := Extend(e, q[..|q| - 1]);
      var u := q[|q| - 1];
      assert forall v :: v in q[..|q| - 1] ==> v in q;
      KeysOfAppend(q[..|q| - 1], u);
      assert q[..|q| - 1] + [u] == q;
      Stored(p, u)
  }

  /** One more `put` after `q`. */
  lemma ExtendStep(e: map<string, Url.Url>, q: seq<Url.Url>, u: Url.Url)
    ensures Extend(e, q + [u]) == Stored(Extend(e, q), u)
  {
    assert (q + [u])[..|q|] == q;
  }

  /** Every stored link is tracked, every queued link has its key stored, and the
      decided keys are exactly the stored keys whose link is no longer UNDEFINED. */
  ghost predicate Consistent(entries: map<string, Url.Url>, queue: seq<Url.Url>, decided: set<string>)
    reads entries.Values
  {
    && (forall k :: k in entries ==> Tracked(entries[k]))
    && (forall i :: 0 <= i < |queue| ==> queue[i].key in entries)
    && decided <= entries.Keys
    && (forall k :: k in entries ==> (k in decided <==> entries[k].status != Undefined))
  }

  /** The indexer's step keeps every undecided stored key queued: the head's key is
      decided if stored, the rest of the old queue stays, and new keys are queued. */
  lemma StillQueued(stored: set<string>, decided: set<string>, stored': set<string>, decided': set<string>,
                    head: string, rest: set<string>, queued: set<string>)
    requires stored - decided <= rest + {head}
    requires rest <= queued && stored' - stored <= queued
    requires decided' == decided + (if head in stored then {head} else {})
    ensures stored' - decided' <= queued
  {
    forall k | k in stored' - decided'
      ensures k in queued
    {
      if k in stored {
        assert k !in decided && k != head;
        assert k in stored - decided;
        assert k in rest + {head};
      }
    }
  }

  /** The links `update` added for the links `hrefs` of the page `page`, in order: the
      j-th is made from the location `follow` makes of the j-th href, and has the page (`from`) as its
      only referrer. */
  ghost predicate Spawned(added: seq<Url.Url>, follow: (Uri, string) -> string, page: Uri, hrefs: seq<string>, from: string)
    reads added
    decreases |hrefs|
  {
    && |added| == |hrefs|
    && (hrefs != [] ==>
          var n := |hrefs| - 1;
          && Spawned(added[..n], follow, page, hrefs[..n], from)
          && added[n].location == follow(page, hrefs[n])
          && added[n].referrers == [from])
  }

  /** One more link, made from the next href, extends what was spawned. */
  lemma SpawnedStep(added: seq<Url.Url>, link: Url.Url, follow: (Uri, string) -> string, page: Uri, hrefs: seq<string>, i: nat, from: string)
    requires i < |hrefs| && Spawned(added, follow, page, hrefs[..i], from)
    requires link.location == follow(page, hrefs[i]) && link.referrers == [from]
    ensures Spawned(added + [link], follow, page, hrefs[..i + 1], from)
  {
    assert (added + [link])[..i] == added;
    assert hrefs[..i + 1][..i] == hrefs[..i];
  }

  /** The j-th spawned link comes from the j-th href. */
  lemma {:induction false} SpawnedAt(added: seq<Url.Url>, follow: (Uri, string) -> string, page: Uri, hrefs: seq<string>, from: string, j: nat)
    requires Spawned(added, follow, page, hrefs, from) && j < |hrefs|
    ensures added[j].location == follow(page, hrefs[j]) && added[j].referrers == [from]
    decreases |hrefs|
  {
    var n := |hrefs| - 1;
    if j < n {
      SpawnedAt(added[..n], follow, page, hrefs[..n], from, j);
    }
  }

  class Crawler {
    const config: Config
    const base: Url.Url          // `settings.base`, also `_base`
    const web: Web               // what the HTTP client would answer
    const index: Index.Index
    const follow: (Uri, string) -> string   // how `url.link(href)` resolves: `Url.LinkOf`
    var queue: seq<Url.Url>
    var crawling: bool
    ghost var decided: set<string>   // the stored keys whose link is no longer UNDEFINED

    /** The index is valid and the crawler's state is consistent with it. */
    ghost predicate Sound()
      reads this, index, index.entries.Values
    {
      index.Valid() && Consistent(index.entries, queue, decided)
    }

    /** Some queued link has key `k`. */
    predicate Queued(k: string)
      reads this
    {
      k in KeysOf(queue)
    }

    /** `Sound`, and every stored link still UNDEFINED is waiting in the queue. */
    ghost predicate Valid()
      reads this, index, index.entries.Values
    {
      Sound() && index.entries.Keys - decided <= KeysOf(queue)
    }

    /** The pages of the web not yet decided: not stored, or stored and UNDEFINED. */
    ghost function Unvisited(): set<string>
      reads this
    {
      web.pages.Keys - decided
    }

    /** The link `update(url)` works on: the stored one with the same key if there is
        one, the argument itself otherwise. */
    function Target(url: Url.Url): (t: Url.Url)
      reads this, index
      ensures url.key in index.entries ==> t == index.entries[url.key]
      ensures url.key !in index.entries ==> t == url
    {
      if url.key in index.entries then index.entries[url.key] else url
    }

    /** An empty crawler over `web`. */
    constructor (c: Config, b: Url.Url, w: Web)
      ensures config == c && base == b && web == w
      ensures queue == [] && !crawling && fresh(index) && decided == {}
      ensures index.entries == map[] && index.order == [] && index.Valid()
      ensures follow == Url.LinkOf
    {
      config := c;
      follow := Url.LinkOf;
      base := b;
      web := w;
      index := new Index.Index();
      queue := [];
      crawling := false;
      decided := {};
    }

    /** `add(link)`: stored if its key is new, queued in any case. */
    method Add(link: Url.Url)
      requires Sound() && Tracked(link)
      modifies this, index
      ensures queue == old(queue) + [link] && crawling == old(crawling)
      ensures index.entries == Stored(old(index.entries), link)
      ensures link.status == Undefined ==> decided == old(decided)
      ensures Sound()
    {

      if link.key !in index.entries && link.status != Undefined {
        decided := decided + {link.key};
      }
      index.Put(link);
      queue := queue + [link];
    }
  
    /** `update(url)`: decide the stored link with `url`'s key (or `url` itself when
        none is stored). A decided link is left alone. An ignored one becomes IGNORED
        with the reason, without a request. Otherwise one request decides between
        NOT_FOUND and FOUND, and each link of a found page is resolved against it, added,
        and given the page as referrer: the fresh object gets the referrer even when an
        object with its key is already stored and the fresh one is not. */
    method Update(url: Url.Url)
      requires Sound() && Tracked(Target(url))
      modifies this, index, Target(url)
      ensures Sound() && crawling == old(crawling)
      ensures old(queue) <= queue
      ensures forall k :: k in old(index.entries) ==> k in index.entries && index.entries[k] == old(index.entries[k])
      ensures forall k :: k in old(index.entries) && k != url.key ==> unchanged(old(index.entries[k]))
      ensures old(Target(url)).referrers == old(Target(url).referrers)
      ensures forall k :: k in index.entries && k !in old(index.entries) ==>
                fresh(index.entries[k]) && index.entries[k].status == Undefined && Queued(k)
      ensures forall i :: |old(queue)| <= i < |queue| ==> fresh(queue[i])
      ensures forall k :: k in old(index.entries) && k != url.key ==>
                index.entries[k].status == old(index.entries[k].status)
      ensures var t := old(Target(url));
              old(t.status) != Undefined ==>
                unchanged(t) && queue == old(queue) && index.entries == old(index.entries)
      ensures var t := old(Target(url)); var reason := IsIgnored(t.parsed, base.parsed, config);
              old(t.status) == Undefined && reason.Some? ==>
                && t.status == Ignored && t.message == Some(reason.value.Message())
                && t.cached == old(t.cached) && queue == old(queue) && index.entries == old(index.entries)
      ensures var t := old(Target(url)); var reason := IsIgnored(t.parsed, base.parsed, config);
              old(t.status) == Undefined && reason.None? ==>
                && t.attempts == 1
                && (t.status == Found <==> PageFound(web, t.key, Link.ExternalTo(t.parsed, base.parsed)))
                && (t.status == Found || t.status == NotFound)
      ensures var t := old(Target(url));
              old(t.status) == Undefined && t.status == NotFound ==> queue == old(queue)
      ensures var t := old(Target(url));
              old(t.status) == Undefined && t.status == Found ==>
                && t.links == PageLinks(web, t.key, Link.ExternalTo(t.parsed, base.parsed))
                && |queue| >= |old(queue)| && queue[..|old(queue)|] == old(queue)
                && Spawned(queue[|old(queue)|..], follow, t.parsed, t.links, t.key)
      ensures decided == old(decided) + (if old(url.key in index.entries) then {url.key} else {})
      ensures Unvisited() <= old(Unvisited())
      ensures old(url.key in index.entries) && queue != old(queue) ==> Unvisited() < old(Unvisited())
    {
      var t := Target(url);
      if t.status != Undefined {
        return;
      }
      Decide(t);
    }

    /** `update` of a link still UNDEFINED: IGNORED with the reason, or decided by one
        request, the links of a found page being followed. */
    method Decide(t: Url.Url)
      requires Sound() && Tracked(t) && t.status == Undefined
      requires t.key in index.entries ==> index.entries[t.key] == t
      modifies this, index, t
      ensures Sound() && crawling == old(crawling)
      ensures old(queue) <= queue
      ensures t.referrers == old(t.referrers)
      ensures forall k :: k in old(index.entries) ==> k in index.entries && index.entries[k] == old(index.entries[k])
      ensures forall k :: k in index.entries && k !in old(index.entries) ==>
                fresh(index.entries[k]) && index.entries[k].status == Undefined && Queued(k)
      ensures forall i :: |old(queue)| <= i < |queue| ==> fresh(queue[i])
      ensures decided == old(decided) + (if t.key in old(index.entries) then {t.key} else {})
      ensures var reason := IsIgnored(t.parsed, base.parsed, config);
              reason.Some? ==>
                && t.status == Ignored && t.message == Some(reason.value.Message())
                && t.cached == old(t.cached) && queue == old(queue) && index.entries == old(index.entries)
      ensures var reason := IsIgnored(t.parsed, base.parsed, config);
              reason.None? ==>
                && t.attempts == 1
                && (t.status == Found <==> PageFound(web, t.key, Link.ExternalTo(t.parsed, base.parsed)))
                && (t.status == Found || t.status == NotFound)
      ensures t.status == NotFound ==> queue == old(queue)
      ensures t.status == Found ==>
                && t.links == PageLinks(web, t.key, Link.ExternalTo(t.parsed, base.parsed))
                && |queue| >= |old(queue)| && queue[..|old(queue)|] == old(queue)
                && Spawned(queue[|old(queue)|..], follow, t.parsed, t.links, t.key)
    {
      var reason := IsIgnored(t.parsed, base.parsed, config);
      if reason.Some? {
        Ignore(t, reason.value);
        return;
      }
      var found := Request(t);
      if found {
        FollowLinks(t);
      }
    }

    /** The IGNORED branch of `update`: the link records the reason, and nothing is
        requested. */
    method Ignore(t: Url.Url, reason: Reason)
      requires Sound() && Tracked(t) && t.status == Undefined
      requires t.key in index.entries ==> index.entries[t.key] == t
      modifies this, t
      ensures t.status == Ignored && t.message == Some(reason.Message())
      ensures t.cached == old(t.cached) && t.attempts == old(t.attempts) && t.links == old(t.links)
      ensures t.referrers == old(t.referrers)
      ensures queue == old(queue) && crawling == old(crawling)
      ensures decided == old(decided) + (if t.key in index.entries then {t.key} else {})
      ensures Sound()
    {
      t.status := Ignored;
      t.message := Some(reason.Message());
      if t.key in index.entries {
        decided := decided + {t.key};
      }
      forall k | k in index.entries
        ensures Tracked(index.entries[k])
        ensures k in decided <==> index.entries[k].status != Undefined
      {
        if index.entries[k] != t {
          assert index.entries[k].status == old(index.entries[k].status);
        }
      }
    }

    /** The request of `update`: one fetch decides between FOUND (a 2xx answer, whose
        links are kept) and NOT_FOUND. */
    method Request(t: Url.Url) returns (found: bool)
      requires Sound() && Tracked(t) && t.status == Undefined
      requires t.key in index.entries ==> index.entries[t.key] == t
      modifies this, t
      ensures found == PageFound(web, t.key, Link.ExternalTo(t.parsed, base.parsed))
      ensures t.status == (if found then Found else NotFound) && t.attempts == 1
      ensures t.cached == Some(found)
      ensures found ==> t.links == PageLinks(web, t.key, Link.ExternalTo(t.parsed, base.parsed))
      ensures t.referrers == old(t.referrers)
      ensures queue == old(queue) && crawling == old(crawling)
      ensures decided == old(decided) + (if t.key in index.entries then {t.key} else {})
      ensures Sound()
    {
      var isExternal := Link.ExternalTo(t.parsed, base.parsed);
      found := Probe(t, web, isExternal, config.retry);
      t.status := if found then Found else NotFound;
      if t.key in index.entries {
        decided := decided + {t.key};
      }
      forall k | k in index.entries
        ensures Tracked(index.entries[k])
        ensures k in decided <==> index.entries[k].status != Undefined
      {
        if index.entries[k] != t {
          assert index.entries[k].status == old(index.entries[k].status);
        }
      }
    }

    /** `add(link)` followed by `link.add_referrer(from)`, for a link just made. */
    method Adopt(link: Url.Url, from: string)
      requires Sound() && Tracked(link) && link.status == Undefined && link.referrers == []
      modifies this, index, link
      ensures Sound() && crawling == old(crawling)
      ensures queue == old(queue) + [link]
      ensures link.status == Undefined && link.referrers == [from]
      ensures index.entries == Stored(old(index.entries), link)
      ensures decided == old(decided)
    {
      Add(link);
      link.AddReferrer(from);
    }

    /** Where the loop of `update` over the links `hrefs` of the page `t` stands after
        `i` of them, from the queue `q0`, the stored links `e0`, the decided keys `d0`
        and the flag `c0`: each link made so far is queued, spawned from its href and
        stored unless its key was taken. */
    ghost predicate Following(t: Url.Url, hrefs: seq<string>, from: string, i: nat, added: seq<Url.Url>,
                              q0: seq<Url.Url>, e0: map<string, Url.Url>, d0: set<string>, c0: bool)
      reads this, index, index.entries.Values, added
    {
      && i <= |hrefs| && |added| == i
      && Sound() && crawling == c0 && decided == d0
      && queue == q0 + added
      && Spawned(added, follow, t.parsed, hrefs[..i], from)
      && index.entries == Extend(e0, added)
    }

    /** One turn of the loop of `update`: the link made of the next href is added and
        given the page as referrer. */
    method Enqueue(t: Url.Url, hrefs: seq<string>, from: string, i: nat, ghost added: seq<Url.Url>,
                   ghost q0: seq<Url.Url>, ghost e0: map<string, Url.Url>, ghost d0: set<string>, ghost c0: bool)
      returns (link: Url.Url)
      requires i < |hrefs| && Following(t, hrefs, from, i, added, q0, e0, d0, c0)
      modifies this, index
      ensures fresh(link)
      ensures Following(t, hrefs, from, i + 1, added + [link], q0, e0, d0, c0)
    {
      var location := follow(t.parsed, hrefs[i]);
      link := new Url.Url(location);
      Adopt(link, from);
      SpawnedStep(added, link, follow, t.parsed, hrefs, i, from);
      AppendAfter(q0, added, link);
      ExtendStep(e0, added, link);
    }

    /** The loop of `update` over a found page's links. */
    method FollowLinks(t: Url.Url)
      requires Sound() && t.status == Found
      modifies this, index
      ensures Sound() && crawling == old(crawling)
      ensures |queue| == |old(queue)| + |t.links| && queue[..|old(queue)|] == old(queue)
      ensures forall i :: |old(queue)| <= i < |queue| ==> fresh(queue[i])
      ensures Spawned(queue[|old(queue)|..], follow, t.parsed, t.links, t.key)
      ensures index.entries == Extend(old(index.entries), queue[|old(queue)|..])
      ensures forall k :: k in index.entries && k !in old(index.entries) ==>
                fresh(index.entries[k]) && index.entries[k].status == Undefined && Queued(k)
      ensures decided == old(decided)
    {
      var hrefs := t.links;
      var from := t.key;
      ghost var q0, e0, d0, c0 := queue, index.entries, decided, crawling;
      ghost var added: seq<Url.Url> := [];
      var i := 0;
      while i < |hrefs|
        invariant Following(t, hrefs, from, i, added, q0, e0, d0, c0)
        invariant forall j :: 0 <= j < i ==> fresh(added[j])
      {
        var link := Enqueue(t, hrefs, from, i, added, q0, e0, d0, c0);
        added := added + [link];
        i := i + 1;
      }
      assert hrefs[..i] == hrefs;
      assert queue[|q0|..] == added;
      KeysOfConcat(q0, added);
    }

    /** `indexer()` with no thread number: take links off the queue and update each,
        until the queue is empty. Every stored link is then decided. */
    method Indexer()
      requires Valid()
      modifies this, index, index.entries.Values, queue
      ensures Valid() && queue == [] && crawling == old(crawling)
      ensures forall k :: k in index.entries ==> index.entries[k].status != Undefined
      ensures forall k :: k in old(index.entries) ==> k in index.entries && index.entries[k] == old(index.entries[k])
      ensures forall k :: k in old(index.entries) && old(index.entries[k].status) != Undefined ==>
                unchanged(old(index.entries[k]))
      ensures forall k :: k in old(index.entries) ==> index.entries[k].referrers == old(index.entries[k].referrers)
    {
      while queue != []
        invariant Valid() && crawling == old(crawling)
        invariant forall k :: k in old(index.entries) ==> k in index.entries && index.entries[k] == old(index.entries[k])
        invariant forall k :: k in index.entries && k !in old(index.entries) ==> fresh(index.entries[k])
        invariant forall i :: 0 <= i < |queue| ==> queue[i] in old(queue) || fresh(queue[i])
        invariant forall k :: k in old(index.entries) && old(index.entries[k].status) != Undefined ==>
                    unchanged(old(index.entries[k]))
        invariant forall k :: k in old(index.entries) ==> index.entries[k].referrers == old(index.entries[k].referrers)
        decreases Unvisited(), |queue|
      {
        Visit();
      }
      forall k | k in index.entries
        ensures index.entries[k].status != Undefined
      {
        assert k in index.entries.Keys && k !in KeysOf(queue);
        assert k in decided;
      }
    }

    /** One turn of the indexer's loop: the link at the head of the queue is taken off
        and updated. Either fewer pages are left undecided, or as many and the queue is
        shorter. */
    method Visit()
      requires Valid() && queue != []
      modifies this, index, index.entries.Values, queue[0]
      ensures Valid() && crawling == old(crawling)
      ensures forall k :: k in old(index.entries) ==> k in index.entries && index.entries[k] == old(index.entries[k])
      ensures forall k :: k in index.entries && k !in old(index.entries) ==> fresh(index.entries[k])
      ensures forall i :: 0 <= i < |queue| ==> queue[i] in old(queue) || fresh(queue[i])
      ensures forall k :: k in old(index.entries) && old(index.entries[k].status) != Undefined ==>
                unchanged(old(index.entries[k]))
      ensures forall k :: k in old(index.entries) ==> index.entries[k].referrers == old(index.entries[k].referrers)
      ensures Unvisited() < old(Unvisited()) || (Unvisited() == old(Unvisited()) && |queue| < |old(queue)|)
    {
      var url := queue[0];
      ghost var e0, d0 := index.entries.Keys, decided;
      KeysOfTail(queue);
      queue := queue[1..];
      ghost var q1 := queue;
      Settle(url);
      assert queue == q1 + queue[|q1|..];
      KeysOfConcat(q1, queue[|q1|..]);
      StillQueued(e0, d0, index.entries.Keys, decided, url.key, KeysOf(q1), KeysOf(queue));
    }

    /** `update(url)` for the indexer's loop, seen only through what the loop needs:
        what is kept, what is new, and the pages decided. */
    method Settle(url: Url.Url)
      requires Sound() && Tracked(Target(url))
      modifies this, index, index.entries.Values, url
      ensures Sound() && crawling == old(crawling) && old(queue) <= queue
      ensures forall k :: k in old(index.entries) ==> k in index.entries && index.entries[k] == old(index.entries[k])
      ensures forall k :: k in index.entries && k !in old(index.entries) ==> fresh(index.entries[k])
      ensures index.entries.Keys - old(index.entries).Keys <= KeysOf(queue)
      ensures forall i :: |old(queue)| <= i < |queue| ==> fresh(queue[i])
      ensures forall k :: k in old(index.entries) && old(index.entries[k].status) != Undefined ==>
                unchanged(old(index.entries[k]))
      ensures forall k :: k in old(index.entries) ==> index.entries[k].referrers == old(index.entries[k].referrers)
      ensures decided == old(decided) + (if old(url.key in index.entries) then {url.key} else {})
      ensures Unvisited() <= old(Unvisited())
      ensures old(url.key in index.entries) && queue != old(queue) ==> Unvisited() < old(Unvisited())
    {
      Update(url);
    }

    /** `start()` with one thread: a crawl already running is left alone; otherwise the
        crawler is marked as crawling and the queue is drained. */
    method Start()
      requires Valid()
      modifies this, index, index.entries.Values, queue
      ensures old(crawling) ==> unchanged(this, index) && unchanged(index.entries.Values)
      ensures !old(crawling) ==> crawling && Valid() && queue == []
      ensures !old(crawling) ==> forall k :: k in index.entries ==> index.entries[k].status != Undefined
      ensures !old(crawling) ==> forall k :: k in old(index.entries) ==>
                k in index.entries && index.entries[k] == old(index.entries[k])
      ensures !old(crawling) ==> forall k :: k in old(index.entries) && old(index.entries[k].status) != Undefined ==>
                unchanged(old(index.entries[k]))
      ensures !old(crawling) ==> forall k :: k in old(index.entries) ==>
                index.entries[k].referrers == old(index.entries[k].referrers)
    {
      if crawling {
        return;
      }
      crawling := true;
      Indexer();
    }
  }

  /** `url.exists()` on a link not yet requested, seen only through what `update`
      needs: the one request made and whether the page was found. */
  method Probe(t: Url.Url, web: Web, isExternal: bool, retries: nat) returns (found: bool)
    requires Tracked(t) && t.status == Undefined
    modifies t
    ensures found == PageFound(web, t.key, isExternal)
    ensures t.cached == Some(found) && t.attempts == 1 && t.Valid()
    ensures found ==> t.links == PageLinks(web, t.key, isExternal)
    ensures t.status == old(t.status) && t.message == old(t.message) && t.referrers == old(t.referrers)
  {
    found := t.Exists(web, isExternal, retries);
  }

  /** `Crawler(settings)`: an ignored base URL is marked IGNORED with the reason and
      refused; any other is stored and queued. */
  method Create(s: Settings.Settings, w: Web) returns (r: Result<Crawler, Error>)
    requires s.Complete() && Tracked(s.base.value)
    modifies s.base.value
    ensures var b := s.base.value; var reason := IsIgnored(b.parsed, b.parsed, ConfigOf(s));
            reason.Some? ==>
              && r == Failure(IgnoredUrl(b.key, reason.value.Message()))
              && b.status == Ignored && b.message == Some(reason.value.Message())
              && b.cached == old(b.cached) && b.error == old(b.error) && b.attempts == old(b.attempts)
              && b.referrers == old(b.referrers) && b.links == old(b.links)
    ensures var b := s.base.value;
            IsIgnored(b.parsed, b.parsed, ConfigOf(s)).None? ==>
              && r.Success? && fresh(r.value) && fresh(r.value.index)
              && r.value.config == ConfigOf(s) && r.value.base == b && r.value.web == w
              && r.value.follow == Url.LinkOf && !r.value.crawling
              && r.value.queue == [b] && r.value.index.entries == map[b.key := b]
              && unchanged(b) && r.value.Valid()
  {
    var b := s.base.value;
    var c := ConfigOf(s);
    var reason := IsIgnored(b.parsed, b.parsed, c);
    if reason.Some? {
      b.status := Ignored;
      b.message := Some(reason.value.Message());
      return Failure(IgnoredUrl(b.key, reason.value.Message()));
    }
    var crawler := new Crawler(c, b, w);
    crawler.Add(b);
    assert crawler.queue[0] == b;
    return Success(crawler);
  }
}
