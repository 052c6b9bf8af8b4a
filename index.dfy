/** `Index`: the crawl's collection of links, keyed by canonical URL string, with
    per-status counters. */
module Index {
  import opened LinkStatus
  import opened Wrappers
  import Url

  /** The statuses that have a counter; UNDEFINED has none. */
  const Counted: set<Status> := {Found, NotFound, Ignored, Redirection}

  /** The filter conditions the index offers: one status, or any status but one. */
  datatype Selector = Is(st: Status) | IsNot(st: Status)
  {
    predicate Accepts(s: Status)
    {
      if Is? then s == st else s != st
    }
  }

  /** The links of `xs` whose status `keep` accepts, in order. */
  function Filter(xs: seq<Url.Url>, keep: Selector): (r: seq<Url.Url>)
    reads xs
    ensures |r| <= |xs|
    ensures forall i :: 0 <= i < |r| ==> r[i] in xs && keep.Accepts(r[i].status)
    ensures forall i :: 0 <= i < |xs| && keep.Accepts(xs[i].status) ==> xs[i] in r
  {
    if xs == [] then []
    else if keep.Accepts(xs[|xs| - 1].status) then Filter(xs[..|xs| - 1], keep) + [xs[|xs| - 1]]
    else Filter(xs[..|xs| - 1], keep)
  }

  /** How many links of `xs` carry status `s`. */
  function CountOf(xs: seq<Url.Url>, s: Status): nat
    reads xs
  {
    |Filter(xs, Is(s))|
  }

  /** The five status filters split any list of links: their sizes add up to its length. */
  lemma {:induction false} FiltersPartition(xs: seq<Url.Url>)
    ensures CountOf(xs, Found) + CountOf(xs, NotFound) + CountOf(xs, Ignored)
          + CountOf(xs, Redirection) + CountOf(xs, Undefined) == |xs|
  {
    if xs != [] {
      FiltersPartition(xs[..|xs| - 1]);
    }
  }

  /** `all()` is everything but the UNDEFINED links: the two together are the whole list. */
  lemma {:induction false} AllComplementsUndefined(xs: seq<Url.Url>)
    ensures |Filter(xs, IsNot(Undefined))| + CountOf(xs, Undefined) == |xs|
  {
    if xs != [] {
      AllComplementsUndefined(xs[..|xs| - 1]);
    }
  }

  /** No key occurs twice. */
  predicate Distinct(ks: seq<string>)
  {
    forall i, j :: 0 <= i < j < |ks| ==> ks[i] != ks[j]
  }

  /** A list without repeats has as many elements as its set. */
  lemma {:induction false} DistinctCard(ks: seq<string>)
    requires Distinct(ks)
    ensures |set k | k in ks| == |ks|
  {
    if ks != [] {
      var init := ks[..|ks| - 1];
      DistinctCard(init);
      assert (set k | k in ks) == (set k | k in init) + {ks[|ks| - 1]};
    }
  }

  /** The values of `m` at `ks`, in the order of `ks`. */
  function ValuesAt(ks: seq<string>, m: map<string, Url.Url>): (r: seq<Url.Url>)
    requires forall k :: k in ks ==> k in m
    ensures |r| == |ks|
    ensures forall i :: 0 <= i < |ks| ==> r[i] == m[ks[i]]
  {
    if ks == [] then [] else ValuesAt(ks[..|ks| - 1], m) + [m[ks[|ks| - 1]]]
  }

  class Index {
    var order: seq<string>                // the dict's keys, in insertion order
    var entries: map<string, Url.Url>     // `_index`
    var stats: map<Status, nat>           // `_stats`

    /** Each link is stored under its own `url()`, the key order lists each key once,
        and exactly the four terminal statuses have counters. */
    ghost predicate Valid()
      reads this
    {
      && (forall k :: k in entries ==> entries[k].key == k)
      && Distinct(order)
      && (forall k :: k in entries <==> k in order)
      && stats.Keys == Counted
    }

    /** `Index()`: empty, every counter 0. */
    constructor ()
      ensures order == [] && entries == map[]
      ensures stats == map[Found := 0, NotFound := 0, Ignored := 0, Redirection := 0]
      ensures Valid()
    {
      order := [];
      entries := map[];
      stats := map[Found := 0, NotFound := 0, Ignored := 0, Redirection := 0];
    }

    /** `len(index)`: the number of distinct keys. */
    function Len(): (r: nat)
      reads this
      requires Valid()
      ensures r == |entries.Keys|
    {
      DistinctCard(order);
      assert entries.Keys == set k | k in order;
      |order|
    }

    /** `iter(index)`: the stored links, in insertion order. */
    function Values(): (r: seq<Url.Url>)
      reads this
      requires Valid()
      ensures |r| == Len()
      ensures forall i :: 0 <= i < |r| ==> r[i] in entries.Values && Contains(r[i])
      ensures forall k :: k in entries ==> entries[k] in r
    {
      var r := ValuesAt(order, entries);
      assert forall k :: k in entries ==> exists i :: 0 <= i < |order| && k == order[i];
      r
    }

    /** `link in index`: some link with the same `url()` is stored. */
    predicate Contains(link: Url.Url)
      reads this
    {
      link.key in entries
    }

    /** `index[link]`: the stored link with the same `url()`; a missing key is a
        KeyError. */
    function Get(link: Url.Url): (r: Option<Url.Url>)
      reads this
      requires Valid()
      ensures r.Some? <==> Contains(link)
      ensures r.Some? ==> r.value.key == link.key && r.value in entries.Values
    {
      if link.key in entries then Some(entries[link.key]) else None
    }

    /** `put(link)`: store `link` unless its key is taken; the first link stored under
        a key stays. */
    method Put(link: Url.Url)
      requires Valid()
      modifies this
      ensures old(Contains(link)) ==> order == old(order) && entries == old(entries)
      ensures !old(Contains(link)) ==>
                order == old(order) + [link.key] && entries == old(entries)[link.key := link]
      ensures stats == old(stats)
      ensures Valid()
    {
      if link.key in entries {
        return;
      }
      order := order + [link.key];
      entries := entries[link.key := link];
      DistinctCard(order);
    }

    /** `all()`: the links whose status is not UNDEFINED. */
    function All(): (r: seq<Url.Url>)
      reads this, entries.Values
      requires Valid()
      ensures forall i :: 0 <= i < |r| ==> r[i] in entries.Values && r[i].status != Undefined
      ensures forall k :: k in entries && entries[k].status != Undefined ==> entries[k] in r
    {
      Filter(Values(), IsNot(Undefined))
    }

    /** `succeed()`, `failed()`, `ignored()`, `redirected()`, `undefined()`: the links
        with one status. */
    function WithStatus(st: Status): (r: seq<Url.Url>)
      reads this, entries.Values
      requires Valid()
      ensures forall i :: 0 <= i < |r| ==> r[i] in entries.Values && r[i].status == st
      ensures forall k :: k in entries && entries[k].status == st ==> entries[k] in r
    {
      Filter(Values(), Is(st))
    }

    /** `update(url, status, message)`: nothing happens unless a link with the same key is
        stored; otherwise the ARGUMENT gets the status and message, and the status's counter
        goes up by one. UNDEFINED has no counter: the argument is changed and then a
        KeyError is raised (`ok` false). */
    method Update(url: Url.Url, status: Status, message: string) returns (ok: bool)
      requires Valid()
      modifies this, url
      ensures order == old(order) && entries == old(entries) && Valid()
      ensures !old(Contains(url)) ==> ok && stats == old(stats) && unchanged(url)
      ensures old(Contains(url)) ==> url.status == status && url.message == Some(message)
      ensures old(Contains(url)) ==> (ok <==> status in Counted)
      ensures old(Contains(url)) && ok ==> status in old(stats) && stats == old(stats)[status := old(stats)[status] + 1]
      ensures old(Contains(url)) && !ok ==> stats == old(stats)
      ensures url.cached == old(url.cached) && url.error == old(url.error) && url.attempts == old(url.attempts)
      ensures url.referrers == old(url.referrers) && url.links == old(url.links)
    {
      if url.key !in entries {
        return true;
      }
      var counters := stats;
      url.status := status;
      url.message := Some(message);
      if status !in counters {
        return false;
      }
      stats := counters[status := counters[status] + 1];
      return true;
    }

    /** `get_stats()`. */
    function GetStats(): (r: map<Status, nat>)
      reads this
      requires Valid()
      ensures r.Keys == Counted
    {
      stats
    }
  }
}
