/** `Settings`: the crawl configuration. Every field starts unset, is assigned once
    through a validating setter, and can then be neither reassigned nor deleted. */
module Settings {
  import opened Wrappers
  import opened Errors
  import opened Uri
  import Url

  /** The Python values a keyword argument can carry. Any value the setters treat
      alike (a float, an arbitrary object) is `PyOther`, with its truth value. */
  datatype PyValue =
    | PyNone
    | PyBool(b: bool)
    | PyInt(i: int)
    | PyStr(s: string)
    | PyList(items: seq<PyValue>)
    | PyOther(truthy: bool)

  /** `isinstance(v, int)`, which holds for `bool` too (as 0 or 1). */
  function AsInt(v: PyValue): (r: Option<int>)
    ensures r.Some? <==> v.PyInt? || v.PyBool?
    ensures v.PyInt? ==> r == Some(v.i)
    ensures v.PyBool? ==> r == Some(if v.b then 1 else 0)
  {
    match v
    case PyInt(i) => Some(i)
    case PyBool(b) => Some(if b then 1 else 0)
    case _ => None
  }

  /** `bool(v)`. */
  predicate Truthy(v: PyValue)
  {
    match v
    case PyNone => false
    case PyBool(b) => b
    case PyInt(i) => i != 0
    case PyStr(s) => s != ""
    case PyList(xs) => xs != []
    case PyOther(t) => t
  }

  /** What `for x in v` walks: a list's items, a string's one-character strings; any
      other value is not iterable. */
  function Items(v: PyValue): (r: Option<seq<PyValue>>)
    ensures v.PyList? ==> r == Some(v.items)
    ensures v.PyStr? ==> (r.Some? && |r.value| == |v.s|
                          && forall i :: 0 <= i < |v.s| ==> r.value[i] == PyStr([v.s[i]]))
    ensures !v.PyList? && !v.PyStr? ==> r.None?
  {
    match v
    case PyList(xs) => Some(xs)
    case PyStr(s) => Some(seq(|s|, i requires 0 <= i < |s| => PyStr([s[i]])))
    case _ => None
  }

  // Keyword names.
  const ExternalKey := "check_external_urls"
  const DomainsKey := "ignore_domains"
  const PathesKey := "ignore_pathes"
  const RetryKey := "retry"
  const ThreadsKey := "threads"
  const StayKey := "stay_within_path"

  /** `Settings.defaults`: the defaults overridden by the given keywords. */
  function WithDefaults(kwargs: map<string, PyValue>): (r: map<string, PyValue>)
    ensures forall k :: k in kwargs ==> k in r && r[k] == kwargs[k]
    ensures ThreadsKey in r && ExternalKey in r && RetryKey in r && DomainsKey in r && PathesKey in r
    ensures ThreadsKey !in kwargs ==> r[ThreadsKey] == PyNone
    ensures RetryKey !in kwargs ==> r[RetryKey] == PyNone
    ensures ExternalKey !in kwargs ==> r[ExternalKey] == PyBool(false)
    ensures DomainsKey !in kwargs ==> r[DomainsKey] == PyList([])
    ensures PathesKey !in kwargs ==> r[PathesKey] == PyList([])
  {
    map[ExternalKey := PyBool(false), DomainsKey := PyList([]), PathesKey := PyList([]),
        RetryKey := PyNone, ThreadsKey := PyNone] + kwargs
  }

  /** The `stay_within_path` option, true unless given. */
  function StayWithinPath(kwargs: map<string, PyValue>): bool
  {
    if StayKey in kwargs then Truthy(kwargs[StayKey]) else true
  }

  /** The `threads` setter's check: None means 1; an int must lie in 1..10. */
  function CheckThreads(v: PyValue): (r: Result<nat, Error>)
    ensures r.Success? ==> 1 <= r.value <= 10
    ensures r.Success? <==> v.PyNone? || (AsInt(v).Some? && 1 <= AsInt(v).value <= 10)
    ensures r.Success? && !v.PyNone? ==> r.value == AsInt(v).value
    ensures r.Failure? ==> r.error == SettingsThreads
    ensures v.PyNone? ==> r == Success(1)
  {
    if v.PyNone? then Success(1)
    else match AsInt(v)
      case Some(n) => if 1 <= n <= 10 then Success(n) else Failure(SettingsThreads)
      case None => Failure(SettingsThreads)
  }

  /** The `retry` setter's check: None means 0; an int must lie in 0..10. */
  function CheckRetry(v: PyValue): (r: Result<nat, Error>)
    ensures r.Success? ==> r.value <= 10
    ensures r.Success? <==> v.PyNone? || (AsInt(v).Some? && 0 <= AsInt(v).value <= 10)
    ensures r.Success? && !v.PyNone? ==> r.value == AsInt(v).value
    ensures r.Failure? ==> r.error == SettingsRetry
    ensures v.PyNone? ==> r == Success(0)
  {
    if v.PyNone? then Success(0)
    else match AsInt(v)
      case Some(n) => if 0 <= n <= 10 then Success(n) else Failure(SettingsRetry)
      case None => Failure(SettingsRetry)
  }

  /** An acceptable ignored domain: a non-empty string of at most 255 characters. */
  predicate DomainOk(v: PyValue)
  {
    v.PyStr? && v.s != "" && |v.s| <= 255
  }

  /** An acceptable ignored path: a non-empty string. */
  predicate PathOk(v: PyValue)
  {
    v.PyStr? && v.s != ""
  }

  /** The strings of a list of string values. */
  function Strings(vs: seq<PyValue>): (r: seq<string>)
    requires forall i :: 0 <= i < |vs| ==> vs[i].PyStr?
    ensures |r| == |vs| && forall i :: 0 <= i < |vs| ==> r[i] == vs[i].s
  {
    seq(|vs|, i requires 0 <= i < |vs| => vs[i].s)
  }

  /** No string occurs twice. */
  predicate Distinct(ss: seq<string>)
  {
    forall i, j :: 0 <= i < j < |ss| ==> ss[i] != ss[j]
  }

  /** `list(set(values))`: each string once, first occurrences kept in order. */
  function Dedup(ss: seq<string>): (r: seq<string>)
    ensures Distinct(r)
    ensures forall s :: s in r <==> s in ss
    ensures |r| <= |ss|
  {
    if ss == [] then []
    else
      var init := Dedup(ss[..|ss| - 1]);
      var last := ss[|ss| - 1];
      assert forall s :: s in ss <==> s in ss[..|ss| - 1] || s == last;
      if last in init then init else init + [last]
  }

  /** What the `domains` setter accepts on an unset field: an iterable all of whose
      items are acceptable domains. */
  function CheckDomains(v: PyValue): Outcome<Error>
  {
    match Items(v)
    case None => Fail(TypeError)
    case Some(vs) => if forall i :: 0 <= i < |vs| ==> DomainOk(vs[i]) then Pass else Fail(SettingsDomain)
  }

  /** What the `pathes` setter accepts on an unset field: an iterable all of whose
      items are acceptable paths. */
  function CheckPathes(v: PyValue): Outcome<Error>
  {
    match Items(v)
    case None => Fail(TypeError)
    case Some(vs) => if forall i :: 0 <= i < |vs| ==> PathOk(vs[i]) then Pass else Fail(SettingsPathes)
  }

  /** The outcome of `Settings(url, **kwargs)`: the setters run in the order threads,
      external, retry, domains, pathes, base, and the first that raises decides the
      error. */
  function Validate(url: string, kwargs: map<string, PyValue>): Outcome<Error>
  {
    var d := WithDefaults(kwargs);
    if CheckThreads(d[ThreadsKey]).Failure? then Fail(SettingsThreads)
    else if CheckRetry(d[RetryKey]).Failure? then Fail(SettingsRetry)
    else if CheckDomains(d[DomainsKey]).Fail? then CheckDomains(d[DomainsKey])
    else if CheckPathes(d[PathesKey]).Fail? then CheckPathes(d[PathesKey])
    else if !Url.IsValid(Parse(url)) then Fail(SettingsBase)
    else Pass
  }

  /** With no keywords the only possible error is an invalid base URL. */
  lemma DefaultsValidate(url: string)
    ensures Validate(url, map[]) == if Url.IsValid(Parse(url)) then Pass else Fail(SettingsBase)
  {
    var d := WithDefaults(map[]);
    assert CheckDomains(d[DomainsKey]) == Pass;
    assert CheckPathes(d[PathesKey]) == Pass;
  }

  /** A bare host is refused as the base: `Settings("localhost")` raises the base
      error. */
  lemma LocalhostRefused(url: string)
    requires url == "localhost"
    ensures Validate(url, map[]) == Fail(SettingsBase)
  {
    DefaultsValidate(url);
    Url.BareHostInvalid(url);
  }

  /** Out-of-range threads win over every later problem, however bad. */
  lemma ThreadsFirst(url: string, kwargs: map<string, PyValue>, n: int)
    requires ThreadsKey in kwargs && kwargs[ThreadsKey] == PyInt(n) && !(1 <= n <= 10)
    ensures Validate(url, kwargs) == Fail(SettingsThreads)
  {
    assert WithDefaults(kwargs)[ThreadsKey] == PyInt(n);
  }

  /** Which field a deleter was called on. */
  datatype Field = BaseField | DomainsField | PathesField | RetryField | ExternalField | ThreadsField

  class Settings {
    var external: Option<bool>          // `_external`
    var threads: Option<nat>            // `_threads`
    var domains: Option<seq<string>>    // `_domains`
    var pathes: Option<seq<string>>     // `_pathes`
    var retry: Option<nat>              // `_retry`
    var base: Option<Url.Url>           // `_base`
    var stayWithinPath: bool

    /** Every field set, as after a successful construction. */
    predicate Complete()
      reads this
    {
      external.Some? && threads.Some? && domains.Some? && pathes.Some? && retry.Some? && base.Some?
    }

    /** The class attributes: nothing set yet. */
    constructor (stay: bool)
      ensures external == None && threads == None && domains == None && pathes == None
      ensures retry == None && base == None && stayWithinPath == stay
    {
      external := None;
      threads := None;
      domains := None;
      pathes := None;
      retry := None;
      base := None;
      stayWithinPath := stay;
    }

    /** `threads = v`. */
    method SetThreads(v: PyValue) returns (r: Outcome<Error>)
      modifies this
      ensures old(threads).Some? ==> r == Fail(SettingsChange) && threads == old(threads)
      ensures old(threads).None? && CheckThreads(v).Failure? ==> r == Fail(SettingsThreads) && threads == None
      ensures old(threads).None? && CheckThreads(v).Success? ==> r == Pass && threads == Some(CheckThreads(v).value)
      ensures external == old(external) && domains == old(domains) && pathes == old(pathes)
      ensures retry == old(retry) && base == old(base) && stayWithinPath == old(stayWithinPath)
    {
      if threads.Some? {
        return Fail(SettingsChange);
      }
      var c := CheckThreads(v);
      if c.Failure? {
        return Fail(c.error);
      }
      threads := Some(c.value);
      return Pass;
    }

    /** `retry = v`. */
    method SetRetry(v: PyValue) returns (r: Outcome<Error>)
      modifies this
      ensures old(retry).Some? ==> r == Fail(SettingsChange) && retry == old(retry)
      ensures old(retry).None? && CheckRetry(v).Failure? ==> r == Fail(SettingsRetry) && retry == None
      ensures old(retry).None? && CheckRetry(v).Success? ==> r == Pass && retry == Some(CheckRetry(v).value)
      ensures external == old(external) && domains == old(domains) && pathes == old(pathes)
      ensures threads == old(threads) && base == old(base) && stayWithinPath == old(stayWithinPath)
    {
      if retry.Some? {
        return Fail(SettingsChange);
      }
      var c := CheckRetry(v);
      if c.Failure? {
        return Fail(c.error);
      }
      retry := Some(c.value);
      return Pass;
    }

    /** `external = v`: any value, kept as its truth value. */
    method SetExternal(v: PyValue) returns (r: Outcome<Error>)
      modifies this
      ensures old(external).Some? ==> r == Fail(SettingsChange) && external == old(external)
      ensures old(external).None? ==> r == Pass && external == Some(Truthy(v))
      ensures threads == old(threads) && domains == old(domains) && pathes == old(pathes)
      ensures retry == old(retry) && base == old(base) && stayWithinPath == old(stayWithinPath)
    {
      if external.Some? {
        return Fail(SettingsChange);
      }
      external := Some(Truthy(v));
      return Pass;
    }

    /** `domains = v`: checked item by item, the first bad item raising; the list is
        kept as given. */
    method SetDomains(v: PyValue) returns (r: Outcome<Error>)
      modifies this
      ensures old(domains).Some? ==> r == Fail(SettingsDomain) && domains == old(domains)
      ensures old(domains).None? ==> r == CheckDomains(v)
      ensures old(domains).None? && r.Fail? ==> domains == None
      ensures r.Pass? ==> Items(v).Some? && domains == Some(Strings(Items(v).value))
      ensures external == old(external) && threads == old(threads) && pathes == old(pathes)
      ensures retry == old(retry) && base == old(base) && stayWithinPath == old(stayWithinPath)
    {
      if domains.Some? {
        return Fail(SettingsDomain);
      }
      if Items(v).None? {
        return Fail(TypeError);
      }
      var vs := Items(v).value;
      var i := 0;
      while i < |vs|
        invariant 0 <= i <= |vs|
        invariant forall j :: 0 <= j < i ==> DomainOk(vs[j])
      {
        if !vs[i].PyStr? || vs[i].s == "" || |vs[i].s| > 255 {
          return Fail(SettingsDomain);
        }
        i := i + 1;
      }
      domains := Some(Strings(vs));
      return Pass;
    }

    /** `pathes = v`: checked item by item, the first bad item raising; each path is
        kept once. */
    method SetPathes(v: PyValue) returns (r: Outcome<Error>)
      modifies this
      ensures old(pathes).Some? ==> r == Fail(SettingsPathes) && pathes == old(pathes)
      ensures old(pathes).None? ==> r == CheckPathes(v)
      ensures old(pathes).None? && r.Fail? ==> pathes == None
      ensures r.Pass? ==> Items(v).Some? && pathes == Some(Dedup(Strings(Items(v).value)))
      ensures external == old(external) && threads == old(threads) && domains == old(domains)
      ensures retry == old(retry) && base == old(base) && stayWithinPath == old(stayWithinPath)
    {
      if pathes.Some? {
        return Fail(SettingsPathes);
      }
      if Items(v).None? {
        return Fail(TypeError);
      }
      var vs := Items(v).value;
      var i := 0;
      while i < |vs|
        invariant 0 <= i <= |vs|
        invariant forall j :: 0 <= j < i ==> PathOk(vs[j])
      {
        if !vs[i].PyStr? || vs[i].s == "" {
          return Fail(SettingsPathes);
        }
        i := i + 1;
      }
      pathes := Some(Dedup(Strings(vs)));
      return Pass;
    }

    /** `base = link`: refused once set, and refused for a link without scheme or host. */
    method SetBase(link: Url.Url) returns (r: Outcome<Error>)
      modifies this
      ensures old(base).Some? ==> r == Fail(SettingsBase) && base == old(base)
      ensures old(base).None? && !Url.IsValid(link.parsed) ==> r == Fail(SettingsBase) && base == None
      ensures old(base).None? && Url.IsValid(link.parsed) ==> r == Pass && base == Some(link)
      ensures external == old(external) && threads == old(threads) && domains == old(domains)
      ensures pathes == old(pathes) && retry == old(retry) && stayWithinPath == old(stayWithinPath)
    {
      if base.Some? {
        return Fail(SettingsBase);
      }
      if !Url.IsValid(link.parsed) {
        return Fail(SettingsBase);
      }
      base := Some(link);
      return Pass;
    }

    /** `del settings.<field>`: always refused, nothing changes. */
    method Delete(f: Field) returns (r: Outcome<Error>)
      ensures r == Fail(SettingsChange)
    {
      return Fail(SettingsChange);
    }

    /** `Settings(url, **kwargs)`: the setters in their fixed order on a fresh object,
        the base being a fresh link for `url`. */
    static method Create(url: string, kwargs: map<string, PyValue>) returns (r: Result<Settings, Error>)
      ensures r.Failure? <==> Validate(url, kwargs).Fail?
      ensures r.Failure? ==> r.error == Validate(url, kwargs).error
      ensures r.Success? ==> fresh(r.value) && r.value.Complete()
      ensures r.Success? ==> fresh(r.value.base.value) && r.value.base.value.parsed == Parse(url)
      ensures r.Success? ==> r.value.base.value.Valid() && r.value.base.value.status.Undefined?
      ensures r.Success? ==> r.value.base.value.referrers == [] && r.value.base.value.cached == None
      ensures r.Success? ==> var d := WithDefaults(kwargs);
                && r.value.threads == Some(CheckThreads(d[ThreadsKey]).value)
                && r.value.external == Some(Truthy(d[ExternalKey]))
                && r.value.retry == Some(CheckRetry(d[RetryKey]).value)
                && r.value.domains == Some(Strings(Items(d[DomainsKey]).value))
                && r.value.pathes == Some(Dedup(Strings(Items(d[PathesKey]).value)))
                && r.value.stayWithinPath == StayWithinPath(kwargs)
    {
      var d := WithDefaults(kwargs);
      var s := new Settings(StayWithinPath(kwargs));
      var o := s.SetThreads(d[ThreadsKey]);
      if o.Fail? {
        return Failure(o.error);
      }
      o := s.SetExternal(d[ExternalKey]);
      o := s.SetRetry(d[RetryKey]);
      if o.Fail? {
        return Failure(o.error);
      }
      o := s.SetDomains(d[DomainsKey]);
      if o.Fail? {
        return Failure(o.error);
      }
      o := s.SetPathes(d[PathesKey]);
      if o.Fail? {
        return Failure(o.error);
      }
      var link := new Url.Url(url);
      o := s.SetBase(link);
      if o.Fail? {
        return Failure(o.error);
      }
      return Success(s);
    }
  }

  /** A field is written once: a second assignment of threads is refused and keeps the
      first value. */
  method ThreadsWriteOnce(s: Settings, first: PyValue, second: PyValue) returns (r1: Outcome<Error>, r2: Outcome<Error>)
    requires s.threads.None?
    modifies s
    ensures r1.Pass? ==> CheckThreads(first).Success? && r2 == Fail(SettingsChange)
    ensures r1.Pass? ==> s.threads == Some(CheckThreads(first).value)
  {
    r1 := s.SetThreads(first);
    r2 := s.SetThreads(second);
  }
}
