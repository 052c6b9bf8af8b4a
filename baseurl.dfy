/** `BaseURL`: the crawl's starting URL, which confines the crawl to the directory of
    its path. The base path is computed once from the parsed path, so the whole
    behaviour is a pair of functions over parsed URLs. */
module BaseUrl {
  import opened Text
  import opened Uri
  import Link

  /** Where the last `/`-segment of `path` starts: `path.split("/")[-1]` is
      `path[LastSegmentStart(path)..]`. */
  function LastSegmentStart(path: string): (r: nat)
    ensures r <= |path|
    ensures r == 0 || path[r - 1] == '/'
    ensures forall i :: r <= i < |path| ==> path[i] != '/'
  {
    AfterLast(path, '/')
  }

  /** `get_base_path`: the path without its last segment when that segment names a
      file (contains a `.`), the path itself otherwise. */
  function GetBasePath(path: string): (r: string)
    ensures r <= path
    ensures r == path || r == [] || r[|r| - 1] == '/'
    ensures r != path <==> exists i :: LastSegmentStart(path) <= i < |path| && path[i] == '.'
  {
    var file := path[LastSegmentStart(path)..];
    if '.' in file then path[..|path| - |file|] else path
  }

  /** The last segment of `dir + file` is `file` when `dir` is empty or ends in `/`
      and `file` has no `/`. */
  lemma LastSegmentOf(dir: string, file: string)
    requires dir == [] || dir[|dir| - 1] == '/'
    requires '/' !in file
    ensures LastSegmentStart(dir + file) == |dir|
  {
    var p := dir + file;
    var r := LastSegmentStart(p);
    assert forall i :: |dir| <= i < |p| ==> p[i] == file[i - |dir|];
    if dir != [] {
      assert p[|dir| - 1] == '/';
    }
  }

  /** A path ending in a file name loses exactly that name: `/docs/sample.html` has base
      path `/docs/`. */
  lemma BasePathOfFile(dir: string, file: string)
    requires dir == [] || dir[|dir| - 1] == '/'
    requires '/' !in file && '.' in file
    ensures GetBasePath(dir + file) == dir
  {
    LastSegmentOf(dir, file);
    assert (dir + file)[|dir|..] == file;
    assert (dir + file)[..|dir|] == dir;
  }

  /** A path whose last segment has no `.` is its own base path: `/docs/` and
      `/docs/sample.html/` are kept whole. */
  lemma BasePathOfDirectory(dir: string, name: string)
    requires dir == [] || dir[|dir| - 1] == '/'
    requires '/' !in name && '.' !in name
    ensures GetBasePath(dir + name) == dir + name
  {
    LastSegmentOf(dir, name);
    assert (dir + name)[|dir|..] == name;
  }

  /** The base path is already a directory: computing it again changes nothing. */
  lemma BasePathIdempotent(path: string)
    ensures GetBasePath(GetBasePath(path)) == GetBasePath(path)
  {
    var r := GetBasePath(path);
    if r != path {
      BasePathOfDirectory(r, "");
      assert r + "" == r;
    }
  }

  /** `within`: a link stays within the base when it is internal to it and its path
      starts with the base path minus trailing slashes. */
  function Within(base: Uri, link: Uri): (r: bool)
    ensures r ==> !Link.ExternalTo(link, base)
    ensures !Link.ExternalTo(link, base) ==> (r <==> RStripChar(GetBasePath(base.path), '/') <= link.path)
  {
    if Link.ExternalTo(link, base) then false
    else RStripChar(GetBasePath(base.path), '/') <= link.path
  }

  /** A link external to the base is never within it, whatever its path. */
  lemma ExternalNotWithin(base: Uri, link: Uri)
    requires Link.ExternalTo(link, base) || Link.ExternalTo(base, link)
    ensures !Within(base, link)
  {
    Link.ExternalSymmetric(link, base);
  }

  /** A base at the site root (path `""` or `/`) contains every internal link. */
  lemma RootContainsInternal(base: Uri, link: Uri)
    requires base.path == "" || base.path == "/"
    requires !Link.ExternalTo(link, base)
    ensures Within(base, link)
  {
    if base.path == "/" {
      BasePathOfDirectory("/", "");
      assert "/" + "" == "/";
    } else {
      BasePathOfDirectory("", "");
    }
  }

  /** Every link on the same host whose path starts with the base path is within the
      base: `/docs/index.html` and `/docs/` are within `/docs/example.html`. */
  lemma WithinBelow(base: Uri, link: Uri)
    requires link.netloc == base.netloc
    requires GetBasePath(base.path) <= link.path
    ensures Within(base, link)
  {
    Link.SameHostInternal(link, base);
  }

  /** A base URL is within itself. */
  lemma WithinSelf(base: Uri)
    ensures Within(base, base)
  {
    WithinBelow(base, base);
  }
}
