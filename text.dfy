/**
  Character classes and string operations shared by the query engine, the
  indexer and the response generator.

  Python's `\s` (and `str.strip()`) is modelled by the whole `str.isspace()`
  set. Python's `\w`, `\d` and `str.lower()` are Unicode-aware; here they are
  modelled on ASCII only.
 */
module Text {
  import opened Wrappers

  /** `str.isspace()`: the characters `\s` matches in a `str` pattern. */
  predicate IsSpace(c: char) {
    var n := c as int;
    9 <= n <= 13 || 28 <= n <= 32 || n == 0x85 || n == 0xA0 || n == 0x1680 ||
    0x2000 <= n <= 0x200A || n == 0x2028 || n == 0x2029 || n == 0x202F ||
    n == 0x205F || n == 0x3000
  }

  /** `\d` on ASCII. */
  predicate IsDigit(c: char) {
    '0' <= c <= '9'
  }

  /** `\w` on ASCII: a letter, a digit or the underscore. */
  predicate IsWordChar(c: char) {
    'a' <= c <= 'z' || 'A' <= c <= 'Z' || IsDigit(c) || c == '_'
  }

  function LowerChar(c: char): char {
    if 'A' <= c <= 'Z' then (c as int + 32) as char else c
  }

  function UpperChar(c: char): char {
    if 'a' <= c <= 'z' then (c as int - 32) as char else c
  }

  /** `str.lower()` */
  function Lower(s: string): string {
    seq(|s|, i requires 0 <= i < |s| => LowerChar(s[i]))
  }

  /** `str.capitalize()`: the first character upper case, the rest lower case. */
  function Capitalize(s: string): (r: string)
    ensures |r| == |s|
    ensures Lower(r) == Lower(s)
    ensures s != [] ==> r[0] == UpperChar(s[0])
    ensures forall i | 1 <= i < |r| :: !IsUpper(r[i])
  {
    if s == [] then []
    else
      var r := [UpperChar(s[0])] + Lower(s[1..]);
      assert forall i | 1 <= i < |r| :: r[i] == LowerChar(s[i]);
      assert LowerChar(r[0]) == LowerChar(s[0]);
      r
  }

  predicate IsUpper(c: char) {
    'A' <= c <= 'Z'
  }

  predicate IsPrefix(p: string, s: string) {
    |p| <= |s| && s[..|p|] == p
  }

  /** `w` occurs in `s` starting at position `i`. */
  predicate ContainsAt(s: string, w: string, i: int) {
    0 <= i && i + |w| <= |s| && s[i..i + |w|] == w
  }

  /** Python's `w in s` on strings. */
  predicate Contains(s: string, w: string) {
    exists i | 0 <= i <= |s| - |w| :: ContainsAt(s, w, i)
  }

  /** A longer word's occurrence contains the occurrence of each of its prefixes. */
  lemma ContainsPrefixAt(s: string, w: string, p: string, i: int)
    requires ContainsAt(s, w, i) && IsPrefix(p, w)
    ensures ContainsAt(s, p, i) && Contains(s, p)
  {
    assert s[i..i + |p|] == w[..|p|];
  }

  /** An occurrence of `w` contains an occurrence of each piece of `w`. */
  lemma ContainsInfixAt(s: string, w: string, i: int, d: nat, p: string)
    requires ContainsAt(s, w, i) && d + |p| <= |w| && w[d..d + |p|] == p
    ensures ContainsAt(s, p, i + d) && Contains(s, p)
  {
    assert forall k | 0 <= k < |p| :: s[i + d + k] == s[i..i + |w|][d + k] == p[k];
    assert s[i + d..i + d + |p|] == p;
    assert ContainsAt(s, p, i + d);
  }

  /** Python's `sep.join(parts)`. */
  function Join(sep: string, parts: seq<string>): string
    decreases |parts|
  {
    if |parts| == 0 then ""
    else if |parts| == 1 then parts[0]
    else parts[0] + sep + Join(sep, parts[1..])
  }

  /** Python's `"".join(parts)`. */
  function Concat(parts: seq<string>): string
    decreases |parts|
  {
    if parts == [] then "" else parts[0] + Concat(parts[1..])
  }

  lemma {:induction false} ConcatSnoc(parts: seq<string>, x: string)
    ensures Concat(parts + [x]) == Concat(parts) + x
    decreases |parts|
  {
    if parts == [] {
      assert parts + [x] == [x];
    } else {
      assert (parts + [x])[1..] == parts[1..] + [x];
      ConcatSnoc(parts[1..], x);
    }
  }

  /** `[f(1, xs[0]), f(2, xs[1]), ...]`: one item per element, numbered from 1 as by `enumerate(xs, 1)`. */
  function MapNumbered(f: (nat, string) -> string, xs: seq<string>): (r: seq<string>)
    ensures |r| == |xs|
    decreases |xs|
  {
    if xs == [] then [] else MapNumbered(f, xs[..|xs| - 1]) + [f(|xs|, xs[|xs| - 1])]
  }

  lemma {:induction false} MapNumberedAt(f: (nat, string) -> string, xs: seq<string>)
    ensures forall k | 0 <= k < |xs| :: MapNumbered(f, xs)[k] == f(k + 1, xs[k])
    decreases |xs|
  {
    if xs != [] {
      var init := xs[..|xs| - 1];
      MapNumberedAt(f, init);
      assert forall k | 0 <= k < |init| :: init[k] == xs[k];
    }
  }

  /** `[f(xs[0]), f(xs[1]), ...]` */
  function MapStrings(f: string -> string, xs: seq<string>): (r: seq<string>)
    ensures |r| == |xs|
    decreases |xs|
  {
    if xs == [] then [] else MapStrings(f, xs[..|xs| - 1]) + [f(xs[|xs| - 1])]
  }

  lemma {:induction false} MapStringsAt(f: string -> string, xs: seq<string>)
    ensures forall k | 0 <= k < |xs| :: MapStrings(f, xs)[k] == f(xs[k])
    decreases |xs|
  {
    if xs != [] {
      var init := xs[..|xs| - 1];
      MapStringsAt(f, init);
      assert forall k | 0 <= k < |init| :: init[k] == xs[k];
    }
  }

  /** `str.lstrip()`: drops exactly the leading run of whitespace. */
  function StripLeft(s: string): (r: string)
    ensures |r| <= |s| && r == s[|s| - |r|..]
    ensures forall i | 0 <= i < |s| - |r| :: IsSpace(s[i])
    ensures r != [] ==> !IsSpace(r[0])
    decreases |s|
  {
    if s != [] && IsSpace(s[0]) then StripLeft(s[1..]) else s
  }

  /** `str.rstrip()`: drops exactly the trailing run of whitespace. */
  function StripRight(s: string): (r: string)
    ensures |r| <= |s| && r == s[..|r|]
    ensures forall i | |r| <= i < |s| :: IsSpace(s[i])
    ensures r != [] ==> !IsSpace(r[|r| - 1])
    decreases |s|
  {
    if s != [] && IsSpace(s[|s| - 1]) then StripRight(s[..|s| - 1]) else s
  }

  /** Python's slice `s[:k]`, for `k >= 0`: the longest prefix of at most `k` items. */
  function Take<T>(s: seq<T>, k: nat): (r: seq<T>)
    ensures |r| <= k && |r| <= |s| && r == s[..|r|]
    ensures |s| >= k ==> |r| == k
    ensures |s| <= k ==> r == s
  {
    if k < |s| then s[..k] else s
  }

  /** `str.strip()` */
  function Strip(s: string): string {
    StripRight(StripLeft(s))
  }

  /** `Strip(s)` is the slice of `s` between its leading and trailing whitespace runs. */
  lemma StripSlice(s: string) returns (lo: nat, hi: nat)
    ensures lo <= hi <= |s| && Strip(s) == s[lo..hi]
    ensures forall i | 0 <= i < lo :: IsSpace(s[i])
    ensures forall i | hi <= i < |s| :: IsSpace(s[i])
    ensures Strip(s) != [] ==> !IsSpace(Strip(s)[0]) && !IsSpace(Strip(s)[|Strip(s)| - 1])
  {
    var l := StripLeft(s);
    lo := |s| - |l|;
    hi := lo + |StripRight(l)|;
    assert Strip(s) == l[..hi - lo];
  }

  /** What is left after stripping starts and ends with a character that is not whitespace. */
  lemma StripEnds(s: string)
    ensures Strip(s) != [] ==> !IsSpace(Strip(s)[0]) && !IsSpace(Strip(s)[|Strip(s)| - 1])
  {
    var lo, hi := StripSlice(s);
  }

  lemma AppendAssoc<T>(a: seq<T>, b: seq<T>, c: seq<T>)
    ensures a + b + c == a + (b + c)
  {
  }

  lemma ConsAppend<T>(x: seq<T>, y: seq<T>)
    requires x != []
    ensures x + y == [x[0]] + (x[1..] + y)
  {
    assert x == [x[0]] + x[1..];
  }

  /** Python's `s.replace(pattern, replacement)`: every non-overlapping occurrence, left to right. */
  function Replace(s: string, pattern: string, replacement: string): string
    requires pattern != []
    decreases |s|
  {
    if |s| < |pattern| then s
    else if IsPrefix(pattern, s) then replacement + Replace(s[|pattern|..], pattern, replacement)
    else [s[0]] + Replace(s[1..], pattern, replacement)
  }

  function DigitChar(d: nat): (c: char)
    requires d < 10
    ensures IsDigit(c)
  {
    ('0' as int + d) as char
  }

  function DigitOf(c: char): (d: nat)
    requires IsDigit(c)
    ensures d < 10
  {
    c as int - '0' as int
  }

  /** The number a string of decimal digits denotes. */
  function DigitsValue(r: string): nat
    requires forall i | 0 <= i < |r| :: IsDigit(r[i])
    decreases |r|
  {
    if r == [] then 0 else 10 * DigitsValue(r[..|r| - 1]) + DigitOf(r[|r| - 1])
  }

  /** Python's `str(n)` for a natural number: its decimal digits, without leading zeros. */
  function NatToString(n: nat): (r: string)
    ensures r != [] && forall i | 0 <= i < |r| :: IsDigit(r[i])
    ensures DigitsValue(r) == n
    ensures |r| > 1 ==> r[0] != '0'
    decreases n
  {
    if n < 10 then [DigitChar(n)]
    else
      var init := NatToString(n / 10);
      var r := init + [DigitChar(n % 10)];
      assert r[..|r| - 1] == init;
      assert r[0] == init[0];
      r
  }

  /** Python truthiness of an optional string: present and non-empty. */
  predicate Truthy(o: Option<string>) {
    o.Some? && o.value != ""
  }
}
