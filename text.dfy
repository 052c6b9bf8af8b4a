/** String helpers standing in for the Python `str` methods the source uses:
    `in`, `find`, `startswith`, `endswith`, `strip`, `rstrip`, `split`. */
module Text {

  /** `p` occurs in `s` at offset `k`. */
  predicate OccursAt(s: string, p: string, k: int)
  {
    0 <= k && k + |p| <= |s| && s[k..k + |p|] == p
  }

  /** An occurrence in `s[1..]` is an occurrence in `s` one place further on. */
  lemma OccursShift(s: string, p: string, k: int)
    requires s != [] && 0 <= k
    ensures OccursAt(s[1..], p, k) <==> OccursAt(s, p, k + 1)
  {
    if 0 <= k && k + 1 + |p| <= |s| {
      assert s[1..][k..k + |p|] == s[k + 1..k + 1 + |p|];
    }
  }

  /** Python's `p in s` for strings. */
  function Contains(s: string, p: string): (r: bool)
    ensures r <==> exists k :: OccursAt(s, p, k)
    decreases |s|
  {
    Find(s, p) >= 0
  }

  /** Python's `s.find(p)`: the first offset of `p` in `s`, or -1. */
  function Find(s: string, p: string): (r: int)
    ensures -1 <= r <= |s|
    ensures r == -1 ==> forall k :: !OccursAt(s, p, k)
    ensures r >= 0 ==> OccursAt(s, p, r) && forall k :: 0 <= k < r ==> !OccursAt(s, p, k)
    decreases |s|
  {
    if p <= s then 0
    else if |s| <= |p| then -1
    else
      var r := Find(s[1..], p);
      if r == -1 then
        assert forall k :: !OccursAt(s, p, k) by {
          forall k | 0 < k ensures !OccursAt(s, p, k) {
            OccursShift(s, p, k - 1);
          }
        }
        -1
      else
        assert forall k :: 0 <= k < r + 1 ==> !OccursAt(s, p, k) by {
          forall k | 0 < k < r + 1 ensures !OccursAt(s, p, k) {
            OccursShift(s, p, k - 1);
          }
        }
        OccursShift(s, p, r);
        r + 1
  }

  /** Python's `s.endswith(p)`. */
  predicate IsSuffix(p: string, s: string)
  {
    |p| <= |s| && s[|s| - |p|..] == p
  }

  /** The characters `str.isspace` accepts, which are also what `\s` and the
      argument-less `strip` and `split` treat as white space. */
  predicate IsSpace(c: char)
  {
    ('\t' <= c <= '\r') || ('\U{1C}' <= c <= ' ') || c == '\U{85}' || c == '\U{A0}'
    || c == '\U{1680}' || ('\U{2000}' <= c <= '\U{200A}') || c == '\U{2028}' || c == '\U{2029}'
    || c == '\U{202F}' || c == '\U{205F}' || c == '\U{3000}'
  }

  /** `s.lstrip(chars)`: drop the longest prefix whose characters satisfy `drop`. */
  function LStrip(s: string, drop: char -> bool): (r: string)
    ensures IsSuffix(r, s)
    ensures r == [] || !drop(r[0])
    ensures forall i :: 0 <= i < |s| - |r| ==> drop(s[i])
  {
    if s != [] && drop(s[0]) then LStrip(s[1..], drop) else s
  }

  /** `s.rstrip(chars)`: drop the longest suffix whose characters satisfy `drop`. */
  function RStrip(s: string, drop: char -> bool): (r: string)
    ensures r <= s
    ensures r == [] || !drop(r[|r| - 1])
    ensures forall i :: |r| <= i < |s| ==> drop(s[i])
  {
    if s != [] && drop(s[|s| - 1]) then RStrip(s[..|s| - 1], drop) else s
  }

  /** `rstrip` keeps a first character it would not drop. */
  lemma RStripKeepsFirst(s: string, drop: char -> bool)
    requires s != [] && !drop(s[0])
    ensures RStrip(s, drop) != [] && RStrip(s, drop)[0] == s[0]
  {
  }

  /** `s.strip(chars)`: both ends. */
  function Strip(s: string, drop: char -> bool): (r: string)
    ensures r == [] || (!drop(r[0]) && !drop(r[|r| - 1]))
  {
    RStrip(LStrip(s, drop), drop)
  }

  /** What `strip` leaves is a piece of the string it was given. */
  lemma StripWithin(s: string, drop: char -> bool)
    ensures exists k :: OccursAt(s, Strip(s, drop), k)
  {
    var l := LStrip(s, drop);
    var r := RStrip(l, drop);
    var k := |s| - |l|;
    assert Strip(s, drop) == r;
    assert s[k..k + |r|] == l[..|r|];
    assert OccursAt(s, r, k);
  }

  /** `s.lstrip(chars)` for a single character. */
  function LStripChar(s: string, c: char): string
  {
    LStrip(s, x => x == c)
  }

  /** `s.rstrip(chars)` for a single character. */
  function RStripChar(s: string, c: char): string
  {
    RStrip(s, x => x == c)
  }

  /** `s.strip()` with no argument. */
  function StripSpace(s: string): string
  {
    Strip(s, IsSpace)
  }

  /** The offset just after the last `c` in `s`, or 0 when `c` does not occur. */
  function AfterLast(s: string, c: char): (r: nat)
    ensures r <= |s|
    ensures r > 0 ==> s[r - 1] == c
    ensures forall i :: r <= i < |s| ==> s[i] != c
  {
    if s == [] then 0
    else if s[|s| - 1] == c then |s|
    else AfterLast(s[..|s| - 1], c)
  }

  /** Nothing but white space: `s.strip() == ""`. */
  predicate AllSpace(s: string)
  {
    forall i :: 0 <= i < |s| ==> IsSpace(s[i])
  }

  /** A maximal run of non-space characters, as `split()` yields it. */
  predicate IsWord(w: string)
  {
    w != [] && forall j :: 0 <= j < |w| ==> !IsSpace(w[j])
  }

  /** Python's `s.split()` with no argument: the maximal runs of non-space characters. */
  function Words(s: string): (r: seq<string>)
    ensures |r| <= |s|
    decreases |s|
  {
    var t := LStrip(s, IsSpace);
    if t == [] then []
    else [t[..WordEnd(t)]] + Words(t[WordEnd(t)..])
  }

  /** Every piece `split()` returns is a non-empty run of non-space characters. */
  lemma {:induction false} WordsAreWords(s: string)
    ensures forall i :: 0 <= i < |Words(s)| ==> IsWord(Words(s)[i])
    decreases |s|
  {
    var t := LStrip(s, IsSpace);
    if t != [] {
      var n := WordEnd(t);
      var w, rest := t[..n], Words(t[n..]);
      assert IsWord(w) by {
        forall j | 0 <= j < |w| ensures !IsSpace(w[j]) {
          assert w[j] == t[j];
        }
      }
      WordsAreWords(t[n..]);
      assert Words(s) == [w] + rest;
      forall i | 0 <= i < |Words(s)| ensures IsWord(Words(s)[i]) {
        if i > 0 {
          assert Words(s)[i] == rest[i - 1];
        }
      }
    }
  }

  /** `split()` finds no word exactly when `strip()` leaves nothing. */
  lemma WordsEmpty(s: string)
    ensures Words(s) == [] <==> AllSpace(s)
  {
    var t := LStrip(s, IsSpace);
    if t == [] {
      assert AllSpace(s);
    } else {
      assert !IsSpace(s[|s| - |t|]);
    }
  }

  /** The length of the run of non-space characters that `s` starts with. */
  function WordEnd(s: string): (n: nat)
    ensures n <= |s|
    ensures forall j :: 0 <= j < n ==> !IsSpace(s[j])
    ensures n < |s| ==> IsSpace(s[n])
    ensures s != [] && !IsSpace(s[0]) ==> n > 0
  {
    if s == [] || IsSpace(s[0]) then 0 else 1 + WordEnd(s[1..])
  }
}
