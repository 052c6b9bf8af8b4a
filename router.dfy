/** `Router`: the lookup behind the static server that serves a generated site for a
    crawl. A request is answered from the `_redirects` table, then from the site root's
    well-known files, then from the first existing file among a few candidates. */
module Router {
  import opened Wrappers
  import opened Text
  import opened Errors

  /** A `pathlib` path as Python stores it: absolute or not, and its parts. Parsing
      drops empty parts and `.` parts, which is how `a//b/./c/` becomes `a/b/c`. */
  datatype Path = Path(absolute: bool, parts: seq<string>)

  /** What can be a part of a parsed path. */
  predicate IsPart(x: string)
  {
    x != "" && x != "." && '/' !in x
  }

  /** A path as parsing leaves it: every part is a real one. */
  predicate Normal(p: Path)
  {
    forall i :: 0 <= i < |p.parts| ==> IsPart(p.parts[i])
  }

  /** The length of the part `s` starts with: up to the first `/`. */
  function PartEnd(s: string): (n: nat)
    ensures n <= |s|
    ensures forall j :: 0 <= j < n ==> s[j] != '/'
    ensures n < |s| ==> s[n] == '/'
  {
    if s == [] || s[0] == '/' then 0 else 1 + PartEnd(s[1..])
  }

  /** The parts of `s` between its `/`s, without the empty and the `.` ones. */
  function Parts(s: string): (r: seq<string>)
    ensures forall i :: 0 <= i < |r| ==> IsPart(r[i])
    decreases |s|
  {
    if s == [] then []
    else
      var n := PartEnd(s);
      var rest := if n < |s| then Parts(s[n + 1..]) else [];
      if s[..n] == "" || s[..n] == "." then rest
      else
        assert forall j :: 0 <= j < n ==> s[..n][j] != '/';
        [s[..n]] + rest
  }

  /** `Path(s)`. */
  function Parse(s: string): (p: Path)
    ensures Normal(p)
  {
    Path(s != [] && s[0] == '/', Parts(s))
  }

  /** The parts joined by `/`. */
  function JoinParts(ps: seq<string>): string
  {
    if ps == [] then "" else if |ps| == 1 then ps[0] else ps[0] + "/" + JoinParts(ps[1..])
  }

  /** `str(p)`: `.` for the empty relative path. */
  function Render(p: Path): string
  {
    if p.absolute then "/" + JoinParts(p.parts)
    else if p.parts == [] then "."
    else JoinParts(p.parts)
  }

  /** `p / rel`: an absolute `rel` replaces `p`, a relative one extends it. */
  function Join(p: Path, rel: string): Path
  {
    if rel != [] && rel[0] == '/' then Parse(rel) else Path(p.absolute, p.parts + Parts(rel))
  }

  /** `p / name` for a single part `name`. */
  function Child(p: Path, name: string): Path
  {
    Path(p.absolute, p.parts + [name])
  }

  /** Joining a single part is adding it as the last part. */
  lemma JoinChild(p: Path, name: string)
    requires IsPart(name)
    ensures Join(p, name) == Child(p, name)
  {
    PartsOne(name);
  }

  /** `Path(str(p) + ext)`. */
  function WithSuffix(p: Path, ext: string): Path
  {
    Parse(Render(p) + ext)
  }

  /** The first part of a joined list ends where the first `/` is. */
  lemma PartEndJoin(a: string, b: string)
    requires '/' !in a
    ensures PartEnd(a) == |a|
    ensures PartEnd(a + "/" + b) == |a|
  {
    var s := a + "/" + b;
    assert forall j :: 0 <= j < |a| ==> s[j] == a[j] && a[j] in a;
    assert s[|a|] == '/';
  }

  /** A joined list of parts does not start with `/`. */
  lemma JoinPartsHead(ps: seq<string>)
    requires ps != [] && forall i :: 0 <= i < |ps| ==> IsPart(ps[i])
    ensures ps[0] != [] && JoinParts(ps) != [] && JoinParts(ps)[0] == ps[0][0]
  {
    assert ps[0][0] in ps[0];
  }

  /** A single part parses to itself. */
  lemma PartsOne(a: string)
    requires IsPart(a)
    ensures Parts(a) == [a]
  {
    PartEndJoin(a, "");
    assert a[..|a|] == a;
  }

  /** A part followed by `/` parses to that part, then the rest. */
  lemma PartsCons(a: string, t: string)
    requires IsPart(a)
    ensures Parts(a + "/" + t) == [a] + Parts(t)
  {
    var s := a + "/" + t;
    PartEndJoin(a, t);
    assert s[..|a|] == a;
    assert s[|a| + 1..] == t;
  }

  /** Splitting a joined list of parts gives the list back. */
  lemma {:induction false} PartsOfJoin(ps: seq<string>)
    requires forall i :: 0 <= i < |ps| ==> IsPart(ps[i])
    ensures Parts(JoinParts(ps)) == ps
    decreases |ps|
  {
    if ps == [] {
    } else if |ps| == 1 {
      PartsOne(ps[0]);
    } else {
      PartsCons(ps[0], JoinParts(ps[1..]));
      PartsOfJoin(ps[1..]);
    }
  }

  /** `Path(str(p)) == p` for every parsed path. */
  lemma ParseRender(p: Path)
    requires Normal(p)
    ensures Parse(Render(p)) == p
  {
    var s := Render(p);
    PartsOfJoin(p.parts);
    if p.absolute {
      PartsSlash(JoinParts(p.parts));
    } else if p.parts == [] {
      assert PartEnd(s) == 1;
    } else {
      JoinPartsHead(p.parts);
    }
  }

  /** `ps` with `ext` added to its last part. */
  function WithLast(ps: seq<string>, ext: string): (r: seq<string>)
    requires ps != []
    ensures |r| == |ps| && r[..|ps| - 1] == ps[..|ps| - 1] && r[|ps| - 1] == ps[|ps| - 1] + ext
  {
    if |ps| == 1 then [ps[0] + ext]
    else
      var r := [ps[0]] + WithLast(ps[1..], ext);
      assert r[1..] == WithLast(ps[1..], ext);
      r
  }

  /** Text added after the last part of a joined list stays in that part. */
  lemma {:induction false} PartsOfJoinSuffix(ps: seq<string>, ext: string)
    requires ps != [] && forall i :: 0 <= i < |ps| ==> IsPart(ps[i])
    requires '/' !in ext
    ensures Parts(JoinParts(ps) + ext) == WithLast(ps, ext)
    decreases |ps|
  {
    var a := ps[0];
    if |ps| == 1 {
      var s := a + ext;
      assert '/' !in s by {
        forall j | 0 <= j < |s| ensures s[j] != '/' {
          if j < |a| { assert s[j] == a[j] && a[j] in a; } else { assert s[j] == ext[j - |a|] && ext[j - |a|] in ext; }
        }
      }
      assert |s| > 1 || s == a;
      PartsOne(s);
    } else {
      var t := JoinParts(ps[1..]) + ext;
      assert JoinParts(ps) + ext == a + "/" + t;
      PartsCons(a, t);
      PartsOfJoinSuffix(ps[1..], ext);
    }
  }

  /** `Path(str(p) + ".html")` names the sibling whose last part has `.html` added. */
  lemma WithSuffixLast(p: Path, ext: string)
    requires Normal(p) && p.parts != [] && '/' !in ext
    ensures WithSuffix(p, ext) == Path(p.absolute, WithLast(p.parts, ext))
  {
    var t := JoinParts(p.parts) + ext;
    PartsOfJoinSuffix(p.parts, ext);
    JoinPartsHead(p.parts);
    if p.absolute {
      assert Render(p) + ext == "/" + t;
      PartsSlash(t);
    } else {
      assert Render(p) + ext == t;
      assert t[0] == p.parts[0][0];
    }
  }

  /** A leading `/` adds no part. */
  lemma PartsSlash(t: string)
    ensures Parts("/" + t) == Parts(t)
  {
    var s := "/" + t;
    assert PartEnd(s) == 0;
    assert s[1..] == t;
  }

  /** The files and directories of the disk, by the string of their path; `lines` is
      how a text file reads line by line (each line with its end-of-line character),
      `resolve` is `Path.resolve` (absolute, symbolic links followed). */
  datatype FileSystem = FileSystem(
    files: set<string>,
    dirs: set<string>,
    lines: string -> seq<string>,
    resolve: string -> string)

  predicate IsFile(fs: FileSystem, p: Path)
  {
    Render(p) in fs.files
  }

  predicate IsDir(fs: FileSystem, p: Path)
  {
    Render(p) in fs.dirs
  }

  predicate Exists(fs: FileSystem, p: Path)
  {
    IsFile(fs, p) || IsDir(fs, p)
  }

  /** The files answered only from the site root. */
  const RootWebFiles: seq<string> := ["/robots.txt", "/favicon.ico", "/sitemap.xml"]

  /** The rule a `_redirects` line gives: its first two words, unless it is empty,
      blank, a comment, or has fewer than two words. */
  function Rule(line: string): Option<(string, string)>
  {
    if line == [] || StripSpace(line) == [] || line[0] == '#' then None
    else
      var p := Words(line);
      if |p| < 2 then None else Some((p[0], p[1]))
  }

  /** The blank-line test is subsumed by the two-word test: a line gives a rule exactly
      when it is not empty, is not a comment, and has two words or more. */
  lemma RuleWhen(line: string)
    ensures Rule(line).Some? <==> line != [] && line[0] != '#' && |Words(line)| >= 2
    ensures Rule(line).Some? ==> Rule(line).value == (Words(line)[0], Words(line)[1])
  {
    if line != [] && StripSpace(line) == [] {
      StripEmpty(line);
      WordsEmpty(line);
    }
  }

  /** A line `strip()` empties is all white space. */
  lemma StripEmpty(s: string)
    requires StripSpace(s) == []
    ensures AllSpace(s)
  {
    var l := LStrip(s, IsSpace);
    assert forall i :: 0 <= i < |l| ==> IsSpace(l[i]);
    assert l == [];
  }

  /** The rules of the lines of a `_redirects` file, one per line. */
  function RulesOf(lines: seq<string>): (rs: seq<Option<(string, string)>>)
    ensures |rs| == |lines| && forall i :: 0 <= i < |lines| ==> rs[i] == Rule(lines[i])
  {
    seq(|lines|, i requires 0 <= i < |lines| => Rule(lines[i]))
  }

  /** The rule `r` sends the request `k` somewhere. */
  predicate Defines(r: Option<(string, string)>, k: string)
  {
    r.Some? && r.value.0 == k
  }

  /** The table after the rules `rs` are entered into `m` in order. */
  function Load(m: map<string, string>, rs: seq<Option<(string, string)>>): map<string, string>
    decreases |rs|
  {
    if rs == [] then m
    else
      var t := Load(m, rs[..|rs| - 1]);
      match rs[|rs| - 1]
      case None => t
      case Some((k, v)) => t[k := v]
  }

  /** A request is in the table exactly when it was before or some rule is for it. */
  lemma {:induction false} LoadKeys(m: map<string, string>, rs: seq<Option<(string, string)>>, k: string)
    ensures k in Load(m, rs) <==> k in m || exists i :: 0 <= i < |rs| && Defines(rs[i], k)
    decreases |rs|
  {
    if rs != [] {
      var init := rs[..|rs| - 1];
      LoadKeys(m, init, k);
      if exists i :: 0 <= i < |init| && Defines(init[i], k) {
        var i :| 0 <= i < |init| && Defines(init[i], k);
        assert Defines(rs[i], k);
      }
      if exists i :: 0 <= i < |rs| && Defines(rs[i], k) {
        var i :| 0 <= i < |rs| && Defines(rs[i], k);
        if i < |init| {
          assert Defines(init[i], k);
        }
      }
    }
  }

  /** The last rule for a request wins. */
  lemma {:induction false} LoadLast(m: map<string, string>, rs: seq<Option<(string, string)>>, i: nat, k: string, v: string)
    requires i < |rs| && rs[i] == Some((k, v))
    requires forall j :: i < j < |rs| ==> !Defines(rs[j], k)
    ensures k in Load(m, rs) && Load(m, rs)[k] == v
    decreases |rs|
  {
    var init := rs[..|rs| - 1];
    if i < |init| {
      assert init[i] == Some((k, v));
      LoadLast(m, init, i, k, v);
      assert !Defines(rs[|rs| - 1], k);
    }
  }

  /** A request no rule is for keeps its entry, or its absence. */
  lemma {:induction false} LoadOthers(m: map<string, string>, rs: seq<Option<(string, string)>>, k: string)
    requires forall j :: 0 <= j < |rs| ==> !Defines(rs[j], k)
    ensures k in Load(m, rs) <==> k in m
    ensures k in m ==> Load(m, rs)[k] == m[k]
    decreases |rs|
  {
    if rs != [] {
      var init := rs[..|rs| - 1];
      assert forall j :: 0 <= j < |init| ==> init[j] == rs[j];
      LoadOthers(m, init, k);
      assert !Defines(rs[|rs| - 1], k);
    }
  }

  /** `root / "_redirects"` (a single part, so `JoinChild` applies). */
  function RedirectsFile(root: Path): Path
  {
    Child(root, "_redirects")
  }

  /** The file a request names, once the site path is stripped. */
  function RequestFile(root: Path, sitepath: string, url: string): Path
  {
    var rel := if sitepath <= url then url[|sitepath|..] else url;
    Join(root, LStripChar(rel, '/'))
  }

  /** `try_files`, in order: `index.html` then `index.htm` inside a directory
      (`f / "index.html"`, a single part), otherwise `f` with `.html`, with `.htm`, and
      `f` itself. */
  function Candidates(fs: FileSystem, f: Path): seq<Path>
  {
    if IsDir(fs, f) then [Child(f, "index.html"), Child(f, "index.htm")]
    else [WithSuffix(f, ".html"), WithSuffix(f, ".htm"), f]
  }

  /** The index of the first file among `cs`, `|cs|` when there is none. */
  function FirstFile(fs: FileSystem, cs: seq<Path>): (i: nat)
    ensures i <= |cs|
    ensures i < |cs| ==> IsFile(fs, cs[i])
    ensures forall j :: 0 <= j < i ==> !IsFile(fs, cs[j])
  {
    if cs == [] then 0
    else if IsFile(fs, cs[0]) then 0
    else 1 + FirstFile(fs, cs[1..])
  }

  class Router {
    const root: Path
    const sitepath: string
    const fs: FileSystem
    var redirects: map<string, string>

    /** The fields, with an empty table. */
    constructor (root: Path, sitepath: string, fs: FileSystem)
      ensures this.root == root && this.sitepath == sitepath && this.fs == fs
      ensures redirects == map[]
    {
      this.root := root;
      this.sitepath := sitepath;
      this.fs := fs;
      redirects := map[];
    }

    /** `load_redirects()`: read the site's `_redirects`, when there is one, into the
        table, line by line. */
    method LoadRedirects()
      modifies this
      ensures var f := RedirectsFile(root);
              redirects == if Exists(fs, f) then Load(old(redirects), RulesOf(fs.lines(Render(f)))) else old(redirects)
    {
      var f := RedirectsFile(root);
      if !Exists(fs, f) {
        return;
      }
      var lines := fs.lines(Render(f));
      ghost var rs := RulesOf(lines);
      var i := 0;
      while i < |lines|
        invariant i <= |lines|
        invariant redirects == Load(old(redirects), rs[..i])
      {
        var rule := Rule(lines[i]);
        assert rs[..i + 1][..i] == rs[..i];
        if rule.Some? {
          redirects := redirects[rule.value.0 := rule.value.1];
        }
        i := i + 1;
      }
      assert rs[..i] == rs;
    }

    /** `router(request_url)`: a redirect is answered 301 with its target; a root web
        file 200 with its resolved path when the site root has it, 404 otherwise;
        anything else, once the site path is stripped, 200 with the first candidate
        that is a file, 404 when none is. */
    method Route(url: string) returns (code: int, file: Option<string>)
      ensures url in redirects ==> code == 301 && file == Some(redirects[url])
      ensures url !in redirects && url in RootWebFiles ==>
                var f := Join(root, LStripChar(url, '/'));
                if IsFile(fs, f) then code == 200 && file == Some(fs.resolve(Render(f)))
                else code == 404 && file == None
      ensures url !in redirects && url !in RootWebFiles ==>
                var cs := Candidates(fs, RequestFile(root, sitepath, url));
                var i := FirstFile(fs, cs);
                if i < |cs| then code == 200 && file == Some(Render(cs[i]))
                else code == 404 && file == None
      ensures code == 200 || code == 301 || code == 404
      ensures code != 404 <==> file.Some?
    {
      if url in redirects {
        return 301, Some(redirects[url]);
      }
      if url in RootWebFiles {
        var f := Join(root, LStripChar(url, '/'));
        if IsFile(fs, f) {
          return 200, Some(fs.resolve(Render(f)));
        }
        return 404, None;
      }
      var request := url;
      if sitepath <= request {
        request := request[|sitepath|..];
      }
      var f := Join(root, LStripChar(request, '/'));
      var tries := Candidates(fs, f);
      code, file := TryFiles(tries);
    }

    /** The loop over the candidates: the first that is a file is answered 200. */
    method TryFiles(tries: seq<Path>) returns (code: int, file: Option<string>)
      ensures var i := FirstFile(fs, tries);
              if i < |tries| then code == 200 && file == Some(Render(tries[i]))
              else code == 404 && file == None
    {
      var i := 0;
      while i < |tries|
        invariant i <= |tries|
        invariant forall j :: 0 <= j < i ==> !IsFile(fs, tries[j])
      {
        if IsFile(fs, tries[i]) {
          return 200, Some(Render(tries[i]));
        }
        i := i + 1;
      }
      return 404, None;
    }
  }

  /** `Router(siteroot, sitepath)`: the site root must exist and be a directory; the
      table is then loaded. */
  method Create(siteroot: string, sitepath: string, fs: FileSystem) returns (r: Result<Router, Error>)
    ensures var root := Parse(siteroot);
            && (!Exists(fs, root) ==> r == Failure(SettingsRoot("DocumentRoot not found")))
            && (Exists(fs, root) && !IsDir(fs, root) ==> r == Failure(SettingsRoot("This is not a directory")))
            && (IsDir(fs, root) ==>
                  && r.Success? && fresh(r.value)
                  && r.value.root == root && r.value.sitepath == sitepath && r.value.fs == fs
                  && var f := RedirectsFile(root);
                     r.value.redirects == if Exists(fs, f) then Load(map[], RulesOf(fs.lines(Render(f)))) else map[])
  {
    var root := Parse(siteroot);
    if !Exists(fs, root) {
      return Failure(SettingsRoot("DocumentRoot not found"));
    }
    if !IsDir(fs, root) {
      return Failure(SettingsRoot("This is not a directory"));
    }
    var router := new Router(root, sitepath, fs);
    router.LoadRedirects();
    return Success(router);
  }
}
