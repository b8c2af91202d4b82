/**
 * The handful of Python `str` operations the backend relies on, on `seq<char>`:
 * `isspace`, `strip()` / `strip(chars)`, ASCII `lower()` / `upper()`, the
 * substring test `pat in s`, `split(sep)` and `split(sep, 1)[-1]`.
 */
module Strings {
  import opened Wrappers

  /** Python's `str.isspace()` for one character: the characters `strip()` removes by default */
  predicate IsSpace(c: char) {
    || ('\t' <= c <= '\r')
    || ('\U{1C}' <= c <= '\U{1F}')
    || c == ' '
    || c == '\U{85}'
    || c == '\U{A0}'
    || c == '\U{1680}'
    || ('\U{2000}' <= c <= '\U{200A}')
    || c == '\U{2028}'
    || c == '\U{2029}'
    || c == '\U{202F}'
    || c == '\U{205F}'
    || c == '\U{3000}'
  }

  /** The one character `strip('"')` removes */
  predicate IsQuote(c: char) {
    c == '"'
  }

  ghost predicate All(s: string, p: char -> bool) {
    forall i :: 0 <= i < |s| ==> p(s[i])
  }

  /**
   * `r` is `s[lo..lo + |r|]`, everything before and after it is dropped, and `r`
   * neither starts nor ends with a dropped character.
   */
  ghost predicate TrimmedAt(s: string, r: string, lo: int, drop: char -> bool) {
    && 0 <= lo && lo + |r| <= |s|
    && r == s[lo..lo + |r|]
    && All(s[..lo], drop)
    && All(s[lo + |r|..], drop)
    && (r == [] || (!drop(r[0]) && !drop(r[|r| - 1])))
  }

  /** Reference meaning of stripping `drop` characters from both ends of `s` */
  ghost predicate Trimmed(s: string, r: string, drop: char -> bool) {
    exists lo :: TrimmedAt(s, r, lo, drop)
  }

  /** `s` without its leading characters satisfying `drop` */
  function TrimStart(s: string, drop: char -> bool): (r: string)
    ensures |r| <= |s| && r == s[|s| - |r|..]
    ensures All(s[..|s| - |r|], drop)
    ensures r == [] || !drop(r[0])
  {
    if s != [] && drop(s[0]) then
      var r := TrimStart(s[1..], drop);
      assert s[..|s| - |r|] == [s[0]] + s[1..][..|s| - 1 - |r|];
      r
    else
      s
  }

  /** `s` without its trailing characters satisfying `drop` */
  function TrimEnd(s: string, drop: char -> bool): (r: string)
    ensures |r| <= |s| && r == s[..|r|]
    ensures All(s[|r|..], drop)
    ensures r == [] || !drop(r[|r| - 1])
  {
    if s != [] && drop(s[|s| - 1]) then
      var r := TrimEnd(s[..|s| - 1], drop);
      assert s[|r|..] == s[..|s| - 1][|r|..] + [s[|s| - 1]];
      r
    else
      s
  }

  /** Python's `s.strip(chars)`, with `drop` telling which characters are in `chars` */
  function Strip(s: string, drop: char -> bool): string {
    TrimEnd(TrimStart(s, drop), drop)
  }

  /** Python's `s.strip()` */
  function StripSpace(s: string): string {
    Strip(s, IsSpace)
  }

  /** Strip computes exactly the reference meaning: existence and uniqueness together */
  lemma StripIsTrimmed(s: string, r: string, drop: char -> bool)
    ensures Trimmed(s, r, drop) <==> r == Strip(s, drop)
  {
    StripTrimmed(s, drop);
    if Trimmed(s, r, drop) {
      TrimmedIsStrip(s, r, drop);
    }
  }

  lemma StripTrimmed(s: string, drop: char -> bool)
    ensures Trimmed(s, Strip(s, drop), drop)
  {
    var t := TrimStart(s, drop);
    var u := TrimEnd(t, drop);
    var lo := |s| - |t|;
    assert s[lo..lo + |u|] == u;
    assert s[lo + |u|..] == t[|u|..];
    assert u == [] || !drop(u[0]) by {
      if u != [] { assert u[0] == t[0]; }
    }
    assert TrimmedAt(s, u, lo, drop);
  }

  lemma TrimmedIsStrip(s: string, r: string, drop: char -> bool)
    requires Trimmed(s, r, drop)
    ensures r == Strip(s, drop)
  {
    var lo :| TrimmedAt(s, r, lo, drop);
    var a, b := s[..lo], s[lo + |r|..];
    assert s == a + r + b;
    StripAround(a, r, b, drop);
  }

  /** A dropped prefix does not change what TrimStart keeps */
  lemma {:induction false} TrimStartSkips(a: string, x: string, drop: char -> bool)
    requires All(a, drop)
    ensures TrimStart(a + x, drop) == TrimStart(x, drop)
  {
    if a != [] {
      assert (a + x)[0] == a[0] && drop(a[0]);
      assert (a + x)[1..] == a[1..] + x;
      TrimStartSkips(a[1..], x, drop);
    } else {
      assert a + x == x;
    }
  }

  /** A dropped suffix does not change what TrimEnd keeps */
  lemma {:induction false} TrimEndSkips(x: string, b: string, drop: char -> bool)
    requires All(b, drop)
    ensures TrimEnd(x + b, drop) == TrimEnd(x, drop)
  {
    if b != [] {
      assert (x + b)[|x + b| - 1] == b[|b| - 1];
      assert (x + b)[..|x + b| - 1] == x + b[..|b| - 1];
      TrimEndSkips(x, b[..|b| - 1], drop);
    } else {
      assert x + b == x;
    }
  }

  /** A text that already has no dropped character at either end is left as it is */
  lemma StripKeeps(s: string, drop: char -> bool)
    requires s == [] || (!drop(s[0]) && !drop(s[|s| - 1]))
    ensures Strip(s, drop) == s
  {
    assert s[..0] == [] && s[|s|..] == [];
    assert TrimmedAt(s, s, 0, drop);
    TrimmedIsStrip(s, s, drop);
  }

  /** Dropped characters on either side of a kept text are all removed, however many there are */
  lemma {:induction false} StripAround(a: string, r: string, b: string, drop: char -> bool)
    requires All(a, drop) && All(b, drop)
    requires r == [] || (!drop(r[0]) && !drop(r[|r| - 1]))
    ensures Strip(a + r + b, drop) == r
  {
    AppendAssoc(a, r, b);
    TrimStartSkips(a, r + b, drop);
    KeptBeforeDropped(r, b, drop);
  }

  lemma AppendAssoc(a: string, r: string, b: string)
    ensures a + r + b == a + (r + b)
  {
  }

  /** A kept text followed by dropped characters comes back whole from both trims */
  lemma {:induction false} KeptBeforeDropped(r: string, b: string, drop: char -> bool)
    requires All(b, drop)
    requires r == [] || (!drop(r[0]) && !drop(r[|r| - 1]))
    ensures TrimEnd(TrimStart(r + b, drop), drop) == r
  {
    if r == [] {
      assert r + b == b + [];
      TrimStartSkips(b, [], drop);
    } else {
      assert (r + b)[0] == r[0];
      assert TrimStart(r + b, drop) == r + b;
      TrimEndSkips(r, b, drop);
    }
  }

  function LowerChar(c: char): char {
    if 'A' <= c <= 'Z' then (c as int + 32) as char else c
  }

  function UpperChar(c: char): char {
    if 'a' <= c <= 'z' then (c as int - 32) as char else c
  }

  /** Python's `s.lower()`, restricted to ASCII letters */
  function Lower(s: string): (r: string)
    ensures |r| == |s| && forall i :: 0 <= i < |s| ==> r[i] == LowerChar(s[i])
  {
    if s == [] then [] else [LowerChar(s[0])] + Lower(s[1..])
  }

  /** Python's `s.upper()`, restricted to ASCII letters */
  function Upper(s: string): (r: string)
    ensures |r| == |s| && forall i :: 0 <= i < |s| ==> r[i] == UpperChar(s[i])
  {
    if s == [] then [] else [UpperChar(s[0])] + Upper(s[1..])
  }

  /** Upper-casing commutes with taking a slice */
  lemma UpperSlice(s: string, k: nat, n: nat)
    requires k + n <= |s|
    ensures Upper(s)[k..k + n] == Upper(s[k..k + n])
  {
    var u, v := Upper(s)[k..k + n], Upper(s[k..k + n]);
    assert |u| == n == |v|;
    forall i | 0 <= i < n ensures u[i] == v[i] {
      calc {
        u[i];
        Upper(s)[k + i];
        UpperChar(s[k + i]);
        UpperChar(s[k..k + n][i]);
        v[i];
      }
    }
  }

  /** `pat` occurs in `s` starting at index `k` */
  ghost predicate OccursAt(s: string, pat: string, k: int) {
    0 <= k && k + |pat| <= |s| && s[k..k + |pat|] == pat
  }

  /** The leftmost occurrence of `pat` in `s` at or after `from` (Python's `s.find(pat, from)`) */
  function IndexOf(s: string, pat: string, from: nat): (r: Option<nat>)
    decreases |s| - from
    ensures r.Some? ==> from <= r.value && OccursAt(s, pat, r.value)
    ensures r.Some? ==> forall k :: from <= k < r.value ==> !OccursAt(s, pat, k)
    ensures r.None? ==> forall k :: from <= k ==> !OccursAt(s, pat, k)
  {
    if from + |pat| > |s| then None
    else if s[from..from + |pat|] == pat then Some(from)
    else IndexOf(s, pat, from + 1)
  }

  /** An occurrence with none before it is the one IndexOf finds */
  lemma {:induction false} IndexOfFirst(s: string, pat: string, from: nat, k: nat)
    requires from <= k && OccursAt(s, pat, k)
    requires forall j :: from <= j < k ==> !OccursAt(s, pat, j)
    ensures IndexOf(s, pat, from) == Some(k)
    decreases k - from
  {
    if from < k {
      assert !OccursAt(s, pat, from);
      IndexOfFirst(s, pat, from + 1, k);
    }
  }

  /** Python's substring test `pat in s` */
  predicate Contains(s: string, pat: string) {
    IndexOf(s, pat, 0).Some?
  }

  lemma ContainsMeaning(s: string, pat: string)
    ensures Contains(s, pat) <==> exists k :: OccursAt(s, pat, k)
  {
    if !Contains(s, pat) {
      forall k ensures !OccursAt(s, pat, k) {
        if k >= 0 { assert 0 <= k; }
      }
    }
  }

  lemma ContainsChar(s: string, c: char)
    ensures Contains(s, [c]) <==> c in s
  {
    ContainsMeaning(s, [c]);
    if c in s {
      var k :| 0 <= k < |s| && s[k] == c;
      assert s[k..k + 1] == [c];
      assert OccursAt(s, [c], k);
    }
    if Contains(s, [c]) {
      var k :| OccursAt(s, [c], k);
      assert s[k] == s[k..k + 1][0];
    }
  }

  /** Python's `sep.join(parts)` for a single-character separator; Split is its inverse */
  function Join(parts: seq<string>, sep: char): string {
    if |parts| == 0 then ""
    else if |parts| == 1 then parts[0]
    else parts[0] + [sep] + Join(parts[1..], sep)
  }

  /** A character missing from the joined text is missing from every part */
  lemma {:induction false} MissingFromJoin(parts: seq<string>, sep: char, c: char)
    requires c !in Join(parts, sep)
    ensures forall i :: 0 <= i < |parts| ==> c !in parts[i]
  {
    if |parts| > 1 {
      var rest := Join(parts[1..], sep);
      assert Join(parts, sep) == parts[0] + [sep] + rest;
      assert c !in rest by {
        forall k | 0 <= k < |rest| ensures rest[k] != c {
          assert rest[k] == Join(parts, sep)[|parts[0]| + 1 + k];
        }
      }
      assert c !in parts[0] by {
        forall k | 0 <= k < |parts[0]| ensures parts[0][k] != c {
          assert parts[0][k] == Join(parts, sep)[k];
        }
      }
      MissingFromJoin(parts[1..], sep, c);
      forall i | 1 <= i < |parts| ensures c !in parts[i] {
        assert parts[i] == parts[1..][i - 1];
      }
    }
  }

  /** Python's `s.split(sep)` for a single-character separator */
  function Split(s: string, sep: char): (r: seq<string>)
    decreases |s|
    ensures |r| >= 1
    ensures forall i :: 0 <= i < |r| ==> sep !in r[i]
    ensures Join(r, sep) == s
  {
    match IndexOf(s, [sep], 0)
    case None =>
      assert sep !in s by { ContainsChar(s, sep); }
      [s]
    case Some(k) =>
      assert s[k] == s[k..k + 1][0];
      assert sep !in s[..k] by {
        forall j | 0 <= j < k ensures s[..k][j] != sep {
          assert !OccursAt(s, [sep], j);
          assert s[j..j + 1] == [s[j]];
        }
      }
      var rest := Split(s[k + 1..], sep);
      assert s == s[..k] + [sep] + s[k + 1..];
      [s[..k]] + rest
  }

  /** Splitting a joined sequence of separator-free pieces gives the pieces back */
  lemma {:induction false} SplitJoin(parts: seq<string>, sep: char)
    requires |parts| >= 1
    requires forall i :: 0 <= i < |parts| ==> sep !in parts[i]
    ensures Split(Join(parts, sep), sep) == parts
  {
    var s := Join(parts, sep);
    if |parts| == 1 {
      assert !Contains(s, [sep]) by { ContainsChar(s, sep); }
    } else {
      var tail := Join(parts[1..], sep);
      var p := parts[0];
      assert s == p + [sep] + tail;
      assert s[|p|] == sep;
      assert s[|p|..|p| + 1] == [sep];
      assert OccursAt(s, [sep], |p|);
      forall j | 0 <= j < |p| ensures !OccursAt(s, [sep], j) {
        assert s[j..j + 1] == [p[j]];
      }
      IndexOfFirst(s, [sep], 0, |p|);
      assert s[..|p|] == p;
      assert s[|p| + 1..] == tail;
      SplitJoin(parts[1..], sep);
    }
  }

  /** Splitting at a first separator that follows a separator-free head */
  lemma SplitCons(head: string, rest: string, sep: char)
    requires sep !in head
    ensures Split(head + [sep] + rest, sep) == [head] + Split(rest, sep)
  {
    var s := head + [sep] + rest;
    assert s[|head|..|head| + 1] == [sep];
    forall j | 0 <= j < |head| ensures !OccursAt(s, [sep], j) {
      assert s[j..j + 1] == [head[j]];
    }
    IndexOfFirst(s, [sep], 0, |head|);
    assert s[..|head|] == head;
    assert s[|head| + 1..] == rest;
  }

  /** A text without the separator splits into itself alone */
  lemma SplitWithoutSeparator(s: string, sep: char)
    requires sep !in s
    ensures Split(s, sep) == [s]
  {
    SplitJoin([s], sep);
  }

  /** Python's `s.split(sep, 1)[-1]`: the text after the first `sep`, or all of `s` when there is none */
  function AfterFirst(s: string, sep: char): (r: string)
    ensures sep !in s ==> r == s
    ensures sep in s ==> |r| < |s| && r == s[|s| - |r|..]
    ensures sep in s ==> s[|s| - |r| - 1] == sep && sep !in s[..|s| - |r| - 1]
  {
    var parts := Split(s, sep);
    if |parts| == 1 then
      assert sep !in s by { assert Join(parts, sep) == parts[0]; }
      s
    else
      assert s == parts[0] + [sep] + Join(parts[1..], sep);
      Join(parts[1..], sep)
  }

  /** The split is on the first separator: what follows it is kept whole, later separators included */
  lemma AfterFirstSeparator(head: string, rest: string, sep: char)
    requires sep !in head
    ensures AfterFirst(head + [sep] + rest, sep) == rest
  {
    SplitCons(head, rest, sep);
    assert (head + [sep] + rest)[|head|] == sep;
    assert ([head] + Split(rest, sep))[1..] == Split(rest, sep);
  }
}
