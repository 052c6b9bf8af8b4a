# deadlinks crawling engine in Dafny

This project models the core of `deadlinks`, a dead-link checker for web sites. The checker starts from a base URL. It fetches each page of the site, scans the page for `<a href=...>` links and resolves them against the page. It then queues every new link and records each link as FOUND, NOT_FOUND or IGNORED. A small static router serves a generated site from disk for such a crawl.

One Dafny module per core source file:

- `Url` (`deadlinks/url.py`): the `URL` class. It is a `class` with the mutable fields of the Python object: the `exists` cache, the error, the attempt counter, the referrers and the links, plus the `status` and `message` the crawler writes. It also holds the pure pieces: validity, the canonical string `url()`, the domain and path matchers, and the href scanner `_consume_links` with `CLEANER` and `ANCHORS`.
- `Link` (`deadlinks/link.py`): `is_external`, `==` and `hash`, as functions of the parsed components.
- `BaseUrl` (`deadlinks/baseurl.py`): `get_base_path` and `within`.
- `Index` (`deadlinks/index.py`): a `class` with the key order, the key→link map and the per-status counters, which `put` and `update` change in place.
- `Settings` (`deadlinks/settings.py`): a `class` with write-once fields, one guarded setter per field, refused deleters, and the constructor that runs the setters in their fixed order.
- `Crawler` (`deadlinks/crawler.py`): a `class` with the queue, the index and the crawling flag. Its methods are `add`, `update` (split by branch), the single-thread `indexer` drain loop and `start`. `is_ignored` and `ignores` are functions.
- `Router` (`deadlinks/serving/router.py`): a `class` with the redirect table. It has `load_redirects`, a loop over the file's lines, and the lookup `__call__`, which builds the candidate list and loops over it.

Helper modules stand in for what the core calls but does not define:

- `Text`: the Python `str` methods used (`in`, `find`, `strip`, `lstrip`, `rstrip`, `split`).
- `Uri`: stands in for `urlparse`, `geturl` and `urljoin` with the algorithms of RFC 3986, which Python's functions follow only in part (the differences are under "Left out"):
  - splitting follows Appendix B;
  - recomposition follows section 5.3;
  - resolution follows sections 5.2.2 to 5.2.4.
- `Request`: the HTTP client as a finite map from URL to response. A URL outside the map raises.
- `LinkStatus`: the five statuses.
- `Errors`: one constructor per exception class.
- `Wrappers`: `Option`, `Result` and `Outcome`.

Three modelling choices:

- **Fields the crawler needs.** `crawler.py` relies on `status`, `message`, `path` and `links` of a link, and on a `stay_within_path` flag of the settings. Neither `url.py` nor `settings.py` defines them. `status` and `message` are plain fields here. `path` is the parsed path. `links` is the `_links` list that `exists` fills with the links of a found page (`Url.Url.links`). `stay_within_path` defaults to true.
- **No inheritance.** `Link` and `BaseURL` subclass `URL` in Python. Here the one mutable class is `Url.Url`, and the `Link` and `BaseURL` behaviour is pure functions over its immutable `parsed` components.
- **The crawler's constants.** `follow` is how `url.link(href)` resolves; the constructor fixes it to `Url.LinkOf`. The ghost constant `Url.Url.location` records the string a link was built from, so the crawler's contracts can say which href each new link came from.

`Crawler.IsIgnored` follows the code's outside-path test. That test compares a link's path with the full path of the settings' base link, not with `BaseURL.get_base_path`. `BaseUrl` is modelled on its own, as the source defines it.

## Model

| member | source | states |
|---|---|---|
| Url.NoSchemeInvalid | deadlinks/url.py:62-64 | a reference with no scheme is never valid |
| Url.BareHostInvalid | deadlinks/url.py:62-64 | `localhost` without a scheme parses as a path, so it is not valid |
| Url.MatchAny | deadlinks/url.py:75-87 | the early-return loop is true iff some pattern is a substring of the text |
| Url.MatchDomains | deadlinks/url.py:75-80 | true iff some ignored domain occurs in the netloc; false for an empty list |
| Url.MatchPathes | deadlinks/url.py:82-87 | true iff some ignored path occurs in the path; false for an empty list |
| Url.Canonical | deadlinks/url.py:119-127 | `url()` is a prefix of the recomposed URL, never ends in `/`, and only `/` were cut |
| Url.TagAt | deadlinks/url.py:38 | a match of `<a`, one space, a run of non-`>` characters and `>` gives that non-empty run as the tag's attribute text |
| Url.FindTags | deadlinks/url.py:38 | every attribute text `findall` returns is non-empty and holds no `>` |
| Url.HrefOf | deadlinks/url.py:139-144 | a tag without `href=` gives nothing; a value, when given, is non-empty |
| Url.HrefValue | deadlinks/url.py:146-164 | an empty value, or an empty link, gives nothing |
| Url.Clean | deadlinks/url.py:41 | the result neither starts nor ends with a quote, a newline or a space |
| Url.Anchor | deadlinks/url.py:42 | the result is the prefix of the text before its first `#`, and holds no `#` |
| Url.Hrefs | deadlinks/url.py:138-166 | at most one raw href per tag |
| Url.ConsumeLinks | deadlinks/url.py:134-168 | the links are the cleaned, anchor-cut hrefs of the tags in order, at most one per tag, none containing `#` |
| Url.CollectHrefs | deadlinks/url.py:137-166 | the loop appends each tag's href, in tag order |
| Url.HrefFromFirst | deadlinks/url.py:139-144 | only the first `href=` of a tag is read |
| Url.HrefQuoted | deadlinks/url.py:151-157 | `href="v"...` gives `v`; an empty quoted value gives nothing |
| Url.HrefUnterminated | deadlinks/url.py:151-156 | a quote that is never closed gives nothing |
| Url.HrefUnquoted | deadlinks/url.py:158-160 | an unquoted value runs to the first space, which it keeps |
| Url.AnchorOnly | deadlinks/url.py:41-42 | a value that is only an anchor such as `#top` becomes the empty string |
| Url.WithReferrer | deadlinks/url.py:66-70 | the referrer is present afterwards; no other value appears; the old list is a prefix; it grows by at most one |
| Url.WithReferrerDistinct | deadlinks/url.py:66-70 | adding a referrer never creates a duplicate |
| Url.WithReferrerIdempotent | deadlinks/url.py:66-70 | adding the same referrer twice is the same as adding it once |
| Url.Url.constructor | deadlinks/url.py:50-60 | parsed components of the location, no cached answer, no error, no referrers, no attempt, no links |
| Url.Url.AddReferrer | deadlinks/url.py:66-70 | the referrers become `WithReferrer` of the old ones; nothing else changes |
| Url.Url.Exists | deadlinks/url.py:89-113 | a cached answer is returned with no new request; otherwise one request: 2xx is found and the page's links are kept, another code is not found with the code as error, an exception is not found with the exception as error; attempts stay at most 1 |
| Url.ExistsTwice | deadlinks/url.py:92-95 | a second `exists` returns the first answer, whatever the web then says, and makes no request |
| Url.Url.GetLinks | deadlinks/url.py:170-174 | the links of a found page, and an empty list otherwise |
| Url.Url.LinkResolvesParsed | deadlinks/url.py:176-184 | `link(href)` resolves the href against the URL's own components |
| Link.ParsedTarget | deadlinks/link.py:36-39 | a string argument is parsed as a URL; any other type gives nothing |
| Link.StripWww | deadlinks/link.py:44-47 | one leading `www.` is dropped, and only when present |
| Link.StripPort | deadlinks/link.py:50-57 | the port suffix is dropped, and only when present |
| Link.IsExternal | deadlinks/link.py:33-59 | a URL or string argument is compared by normalised host; any other type is a TypeError |
| Link.ExternalSymmetric | deadlinks/link.py:41-59 | `a.is_external(b) == b.is_external(a)` |
| Link.ExternalIrreflexive | deadlinks/link.py:41-59 | a link is never external to itself |
| Link.SameHostInternal | deadlinks/link.py:41-59 | only netlocs are compared: a different scheme, path, query or fragment never makes a link external |
| Link.WwwInternal | deadlinks/link.py:44-47 | hosts equal up to one leading `www.` are internal to each other |
| Link.WwwStrippedOnce | deadlinks/link.py:44-47 | `www.www.h` is external to `h`: only one `www.` is dropped |
| Link.DefaultPortInternal | deadlinks/link.py:50-57 | `http://h:80` is internal to `http://h`, and `https://h:443` to `https://h` |
| Link.PortKeptAcrossSchemes | deadlinks/link.py:50-57 | `:80` is kept when the schemes differ, so `http://h:80` is external to `https://h` |
| Link.Equal | deadlinks/link.py:66-72 | equal iff the `url()` strings are equal, a string operand parsed first; any other operand raises |
| Link.EqualHashEqual | deadlinks/link.py:61-72 | equal links hash equally, whatever the string hash |
| Link.TrailingSlashEqual | deadlinks/link.py:66-72 | links that differ only by trailing slashes are equal |
| Link.RStripSlashes | deadlinks/url.py:122 | trailing slashes make no difference to `url()` |
| BaseUrl.LastSegmentStart | deadlinks/baseurl.py:41 | where `path.split("/")[-1]` starts: after the last `/`, and no `/` follows |
| BaseUrl.GetBasePath | deadlinks/baseurl.py:40-45 | the base path is a prefix of the path; it differs from the path iff the last segment contains a dot, and then it ends in `/` |
| BaseUrl.BasePathOfFile | deadlinks/baseurl.py:40-45 | `/docs/sample.html` has base path `/docs/` |
| BaseUrl.BasePathOfDirectory | deadlinks/baseurl.py:40-45 | a path whose last segment has no dot is its own base path |
| BaseUrl.BasePathIdempotent | deadlinks/baseurl.py:40-45 | computing the base path of a base path changes nothing |
| BaseUrl.Within | deadlinks/baseurl.py:47-53 | never true for an external link; for an internal link, true iff its path starts with the base path minus trailing `/` |
| BaseUrl.ExternalNotWithin | deadlinks/baseurl.py:50-51 | a link external to the base, in either direction, is never within it |
| BaseUrl.RootContainsInternal | deadlinks/baseurl.py:53 | a base at `""` or `/` contains every internal link |
| BaseUrl.WithinBelow | deadlinks/baseurl.py:53 | a same-host link whose path starts with the base path is within the base |
| BaseUrl.WithinSelf | deadlinks/baseurl.py:47-53 | a base is within itself |
| Index.Filter | deadlinks/index.py:119-121 | every link kept is from the list and accepted; every accepted link of the list is kept |
| Index.FiltersPartition | deadlinks/index.py:75-103 | the five status filters' sizes add up to the number of links |
| Index.AllComplementsUndefined | deadlinks/index.py:69-73 | `all()` and `undefined()` together cover every link, with no overlap |
| Index.DistinctCard | deadlinks/index.py:47-49 | a key list without repeats has as many keys as its set |
| Index.ValuesAt | deadlinks/index.py:51-53 | the values are read in key order, one per key |
| Index.Index.constructor | deadlinks/index.py:38-45 | empty, with counters at 0 for exactly the four terminal statuses |
| Index.Index.Len | deadlinks/index.py:47-49 | `len` is the number of distinct keys |
| Index.Index.Values | deadlinks/index.py:51-57 | iteration yields each stored link once, and every yielded link is contained in the index |
| Index.Index.Get | deadlinks/index.py:59-61 | a lookup succeeds iff the key is stored, and returns the link stored under it |
| Index.Index.Put | deadlinks/index.py:63-67 | a taken key leaves the index unchanged, so the first link stays; a new key is appended with its link; entries are never removed; counters are unchanged |
| Index.Index.All | deadlinks/index.py:69-73 | exactly the stored links whose status is not UNDEFINED |
| Index.Index.WithStatus | deadlinks/index.py:75-103 | exactly the stored links with the given status |
| Index.Index.Update | deadlinks/index.py:105-114 | a link not in the index changes nothing; otherwise the argument gets the status and message, and only that status's counter goes up by one; UNDEFINED has no counter and raises after the change |
| Index.Index.GetStats | deadlinks/index.py:116-117 | the counters are keyed by exactly the four terminal statuses |
| Settings.AsInt | deadlinks/settings.py:162 | `isinstance(v, int)` holds for ints and bools |
| Settings.Items | deadlinks/settings.py:101 | a list is walked by item, a string by character; other values are not iterable |
| Settings.WithDefaults | deadlinks/settings.py:57-68 | keywords override the defaults: external false, empty domains and paths, no retry, no threads |
| Settings.CheckThreads | deadlinks/settings.py:198-215 | None becomes 1; ints 1..10 are kept; every other value fails with the threads error |
| Settings.CheckRetry | deadlinks/settings.py:152-170 | None becomes 0; ints 0..10 are kept; every other value fails with the retry error |
| Settings.Strings | deadlinks/settings.py:115 | the accepted list keeps its strings in order |
| Settings.Dedup | deadlinks/settings.py:141 | each path kept once, and exactly the paths given |
| Settings.DefaultsValidate | deadlinks/settings.py:40-68 | with no keywords, only an invalid base URL can fail |
| Settings.LocalhostRefused | deadlinks/settings.py:81-82 | `Settings("localhost")` raises the base error |
| Settings.ThreadsFirst | deadlinks/settings.py:43-46 | out-of-range threads is the error whatever else is wrong, because threads is checked first |
| Settings.Settings.constructor | deadlinks/settings.py:31-38 | every field starts unset |
| Settings.Settings.SetThreads | deadlinks/settings.py:198-215 | refused once set; otherwise set to the checked value or refused with the threads error; no other field changes |
| Settings.Settings.SetRetry | deadlinks/settings.py:152-170 | refused once set; otherwise set to the checked value or refused with the retry error; no other field changes |
| Settings.Settings.SetExternal | deadlinks/settings.py:181-186 | refused once set; otherwise set to the value's truth |
| Settings.Settings.SetDomains | deadlinks/settings.py:95-115 | refused with the domain error once set; a non-iterable raises TypeError; any item that is not a non-empty string of at most 255 characters fails; otherwise stored as given |
| Settings.Settings.SetPathes | deadlinks/settings.py:126-141 | refused with the paths error once set; any item that is not a non-empty string fails; otherwise each path is stored once |
| Settings.Settings.SetBase | deadlinks/settings.py:75-84 | refused with the base error when already set or when the URL lacks a scheme or a host |
| Settings.Settings.Delete | deadlinks/settings.py:86-88 | deleting a field is always refused with the change error |
| Settings.Settings.Create | deadlinks/settings.py:40-54 | fails iff validation in the order threads, retry, domains, paths, base fails, with the first error; otherwise every field holds its checked value |
| Settings.ThreadsWriteOnce | deadlinks/settings.py:200-201 | a second assignment of threads is refused and keeps the first value |
| Crawler.ConfigOf | deadlinks/crawler.py:49-50 | the crawler reads each setting as it was built |
| Crawler.IsIgnored | deadlinks/crawler.py:90-118 | the rules apply in order (external when not checked, domain, path, outside the base's path), the first that applies is the reason, and none applying gives none |
| Crawler.BaseIgnoredOnlyByPatterns | deadlinks/crawler.py:90-118 | the base URL can be ignored only by an ignored domain or path |
| Crawler.ExternalNeverOutside | deadlinks/crawler.py:102-116 | an external link is never outside the path; with external checking off it is refused first |
| Crawler.Ignores | deadlinks/crawler.py:160-164 | true iff some domain or path is ignored |
| Crawler.NoPatternsNoPatternReasons | deadlinks/crawler.py:105-111 | without patterns, no link is ignored for a domain or a path |
| Crawler.SpawnedAt | deadlinks/crawler.py:152-158 | the j-th link added for a page comes from the page's j-th href and has the page as its only referrer |
| Crawler.Crawler.constructor | deadlinks/crawler.py:49-54 | empty queue and index, not crawling |
| Crawler.Crawler.Target | deadlinks/crawler.py:125-126 | the stored link with the argument's key, or the argument when none is stored |
| Crawler.Crawler.Add | deadlinks/crawler.py:85-88 | always queued, stored only when its key is new |
| Crawler.Crawler.Update | deadlinks/crawler.py:120-158 | a decided link is left alone; an ignored one becomes IGNORED with the reason and no request; otherwise one request gives FOUND or NOT_FOUND, and the links of a found page's body are queued in order with the page as referrer. Only the link `update` works on changes among the stored links, and its referrers never change: the referrer goes on the fresh link, not on a stored link with the same key |
| Crawler.Crawler.Decide | deadlinks/crawler.py:131-158 | an UNDEFINED link ends IGNORED, NOT_FOUND or FOUND, by the rules above; a found link's links are those of the body fetched, and each is queued in order |
| Crawler.Crawler.Ignore | deadlinks/crawler.py:134-137 | IGNORED with the reason's message; no request made; referrers kept |
| Crawler.Crawler.Request | deadlinks/crawler.py:139-150 | exactly one request, whose answer is cached; FOUND iff the page answers 2xx, NOT_FOUND otherwise; a found page keeps the links of its body; referrers kept |
| Crawler.Probe | deadlinks/crawler.py:141-142 | the request answers whether the page is found, and is the link's only attempt; a found page's links are those `_consume_links` finds in the body received |
| Crawler.Crawler.Adopt | deadlinks/crawler.py:154-158 | the fresh link is added and gets the page as referrer, even when its key was taken |
| Crawler.Crawler.Enqueue | deadlinks/crawler.py:152-158 | one more href becomes a queued link |
| Crawler.Crawler.FollowLinks | deadlinks/crawler.py:152-158 | one new queued link per href, in order; only new keys are stored |
| Crawler.Crawler.Indexer | deadlinks/crawler.py:181-193 | the loop ends with an empty queue and no stored link UNDEFINED; stored links stay, a decided link is never changed, and no link stored before the loop gets a referrer |
| Crawler.Crawler.Visit | deadlinks/crawler.py:185-188 | one turn: fewer undecided pages, or as many and a shorter queue; decided links unchanged and earlier links' referrers kept |
| Crawler.Crawler.Settle | deadlinks/crawler.py:187 | `update` seen by the loop: new keys are queued, decided links are unchanged, and earlier links' referrers are kept |
| Crawler.Crawler.Start | deadlinks/crawler.py:69-83 | a running crawl is left alone: the crawler, its index and every stored link are unchanged. Otherwise the queue is drained and every stored link decided. Stored links stay, decided ones are never changed, and earlier ones get no referrer |
| Crawler.Create | deadlinks/crawler.py:43-67 | an ignored base becomes IGNORED with the reason and is refused, with its other fields unchanged; any other is stored and queued, itself unchanged |
| Router.Parse | deadlinks/serving/router.py:49-50 | a parsed path has only real parts |
| Router.JoinChild | deadlinks/serving/router.py:108-109 | joining a single part adds it as the last part |
| Router.ParseRender | deadlinks/serving/router.py:111-114 | `Path(str(p)) == p` for every parsed path |
| Router.PartsOfJoin | deadlinks/serving/router.py:111 | splitting a joined list of parts gives the list back |
| Router.WithLast | deadlinks/serving/router.py:112-113 | only the last part gets the suffix |
| Router.PartsOfJoinSuffix | deadlinks/serving/router.py:112-113 | a suffix without `/` stays inside the last part |
| Router.WithSuffixLast | deadlinks/serving/router.py:112-113 | `Path(str(f) + ".html")` is `f` with `.html` added to its last part |
| Router.RuleWhen | deadlinks/serving/router.py:76-83 | a line gives a rule iff it is non-empty, is not a comment and has at least two words; the rule maps the first word to the second |
| Router.RulesOf | deadlinks/serving/router.py:75 | one rule or none per line, in order |
| Router.LoadKeys | deadlinks/serving/router.py:74-83 | a request is in the table iff it was there before or some line gives a rule for it |
| Router.LoadLast | deadlinks/serving/router.py:83 | the last line for a request wins |
| Router.LoadOthers | deadlinks/serving/router.py:74-83 | a request that no line gives a rule for keeps its entry, or stays absent |
| Router.FirstFile | deadlinks/serving/router.py:116-118 | the first candidate that is a file; none before it is a file |
| Router.Router.constructor | deadlinks/serving/router.py:52-63 | the root, the site path and an empty table |
| Router.Router.LoadRedirects | deadlinks/serving/router.py:66-83 | without a `_redirects` file the table is unchanged; otherwise each line's rule is entered in order |
| Router.Router.Route | deadlinks/serving/router.py:85-120 | a redirect is 301 with its target before any lookup; a root web file is 200 if it is a file at the root and 404 otherwise, with no fall-through; anything else has its site path stripped and gets 200 with the first candidate that is a file, or 404; only 200, 301 and 404 occur, and a file comes with every code but 404 |
| Router.Router.TryFiles | deadlinks/serving/router.py:116-120 | the first candidate that is a file is answered 200, and none gives 404 |
| Router.Create | deadlinks/serving/router.py:46-64 | a missing root and a non-directory root raise their own errors; otherwise a fresh router with the `_redirects` rules loaded |
| Request.Fetch | deadlinks/request.py:36-61 | a known URL answers with its status; a local one also with its body, an external one with none; an unknown URL raises |
| Text.Find | deadlinks/url.py:139 | `find` gives the first occurrence, or -1 when there is none |
| Text.Contains | deadlinks/url.py:78 | `in` holds iff there is an occurrence |
| Text.LStrip | deadlinks/url.py:144 | only characters to drop are removed from the front, and the result does not start with one |
| Text.RStrip | deadlinks/url.py:122 | only characters to drop are removed from the end, and the result does not end with one |
| Text.Strip | deadlinks/url.py:41 | the result neither starts nor ends with a character to drop |
| Text.StripWithin | deadlinks/url.py:41 | what `strip` leaves occurs in the string it was given |
| Text.WordsAreWords | deadlinks/serving/router.py:79 | every piece `split()` gives is a non-empty run of non-space characters |
| Text.WordsEmpty | deadlinks/serving/router.py:76-79 | `split()` finds no word iff `strip()` leaves nothing |
| Uri.ParseRecompose | deadlinks/url.py:51 | parsing the recomposed URL gives back its components |
| Uri.Transform | deadlinks/url.py:184 | the target takes the reference's scheme, authority and fragment, and otherwise the base's |
| Uri.Merge | deadlinks/url.py:184 | the merged path ends with the reference, and is `/` plus the reference under an authority with an empty path |
| Uri.RemoveDotsOfDotFree | deadlinks/url.py:184 | a path without dot segments goes through dot removal unchanged |
| Uri.ResolveAbsolute | deadlinks/url.py:184 | a reference with its own scheme and no dot segments resolves to itself |
| Uri.ResolvePathRelative | deadlinks/url.py:184 | a path-relative reference resolves to the base's scheme and host with the merged path, dots removed |
| Uri.ResolveIntoDirectory | tests/test_links.py:38-42 | `part1.html` against `http://h/documentation/` is `http://h/documentation/part1.html` |
| Uri.ResolveBesideFile | tests/test_links.py:43-47 | `part1.html` against `http://h/documentation` is `http://h/part1.html` |
| Uri.ResolveUpFromFile | tests/test_links.py:48-52 | `../part1.html` against `http://h/documentation` is `http://h/part1.html` |
| Uri.ResolveUpFromDirectory | tests/test_links.py:53-57 | `../part1.html` against `http://h/documentation/` is `http://h/part1.html` |

## Left out

- The HTTP client: `deadlinks/request.py` is not part of this model beyond `Request.Fetch`. Retries, backoff, headers and the session are the client's business. The `retries` argument is passed through and otherwise unused.
- The robots.txt support: `deadlinks/robots_txt.py` is not part of this model.
- Threads: the multi-thread branch of `start` and the sleeping `indexer` loop for a thread number above 0. `Crawler.Crawler.Start` drains the queue on one thread for any thread count. `Queue.task_done` and `join` have no counterpart.
- Crawler.Crawler.Update: the `DeadlinksIgnoredURL` handler around the request is left out, because `exists` in `deadlinks/url.py` never raises it.
- The `ignored`, `succeed` and `failed` properties of the crawler only forward to `Index.Index.WithStatus`, so they have no member of their own.
- `urlparse` details outside RFC 3986 Appendix B:
  - the scheme is neither lower-cased nor checked for legal characters;
  - `;params` are not split off the last path segment, so they stay in the path that `match_pathes` and `is_ignored` read;
  - ports are not validated;
  - Uri.Parse: CPython's `urlsplit` raises `ValueError` for an authority with an unbalanced `[` or `]`, and newer versions delete tab, CR and LF anywhere in the URL. `Uri.Parse` does neither. So for an href such as `http://[::1/x`, the program's `Link(url.link(href))` raises inside `update` and ends the drain. In the model, Crawler.Crawler.Update queues a link for it, and Crawler.Crawler.Indexer goes on to decide every stored link.
- Python's `urljoin` and `geturl` differ from RFC 3986 on some inputs, and on these the model follows the RFC, so the model's index keys can differ from the program's:
  - an empty reference gives the base whole in Python, fragment included; the model drops the base's fragment (section 5.2.2). So an href of `#top` on a page `http://h/#x` gives the key `http://h/#x` in Python and `http://h` in the model;
  - a reference with its own authority or another scheme keeps its dot segments in Python, so `http://h/a/../b` stays as it is. The model removes them, giving `http://h/b`;
  - Python reads `http:foo` against an `http` base as a relative reference (`http://h/dir/foo`). The model uses the strict reading of section 5.2.2 and keeps `http:foo`;
  - Python drops empty segments from a merged path, so `a//b` against `http://h/dir/x` gives `/dir/a/b`. The model keeps them, giving `/dir/a//b`;
  - depending on the Python version, `geturl` writes `//` after an `http` or `https` scheme when the authority is empty. Recomposition in the model never does.
- Url.TagAt: the regular expression engine is replaced by a direct scan for `<a`, one white-space character, a run of non-`>` characters and `>`.
- Url.Url.Exists: the error is kept as a code or as the exception's message, not as the exception object. `error()`, `__repr__` and the unused `_text` field are left out.
- Index.Index.Update: raising `KeyError` for UNDEFINED is modelled as a `false` result, returned after the argument has been changed.
- Settings.Items: only lists and strings are iterable. A tuple, set or generator is modelled as a list, and every other value as non-iterable.
- Settings.Settings.SetPathes: Python's `list(set(values))` has no specified order, so the model keeps first occurrences in their order.
- Settings.Settings.SetDomains: the list is stored as a copy of its strings, not as the same list object.
- Error messages of the settings exceptions are not modelled; only the exception kind is.
- Router paths:
  - POSIX `pathlib` keeps a leading `//`, which the model's paths do not;
  - `Path.resolve` (symbolic links, the working directory) is a function given with the file system.
- Router.Router.LoadRedirects: a `_redirects` that is a directory makes `open` raise; the model reads its lines as if it were a file. File reading, encodings and I/O errors are left out; the file's lines are a function of the file system.
- Router.Router.LoadRedirects: the `OrderedDict` is a `map`. Insertion order never matters to the lookup.
- Router.Router.Route: `try_files` is built by `Router.Candidates`, a function with the same three or two entries in the same order, rather than by appends.
