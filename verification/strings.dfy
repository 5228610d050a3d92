/** The Python `str` operations the retrieval, ingestion, guardrail and answer
    code relies on: `isspace`, `strip`, `split()`, `lower`, the substring test
    `in`, `startswith`, `join` and `str(n)` for a non-negative int. Strings are
    sequences of characters; `lower` and `isupper` are modelled on ASCII only. */
module Strings {

  /** Python's `str.isspace()` for one character: the whitespace set that
      `str.split()` and `str.strip()` use. */
  predicate IsSpace(c: char) {
    c in Whitespace
  }

  const Whitespace: set<char> := {
    ' ', '\t', '\n', '\U{0B}', '\U{0C}', '\r', '\U{1C}', '\U{1D}', '\U{1E}', '\U{1F}',
    '\U{85}', '\U{A0}', '\U{1680}',
    '\U{2000}', '\U{2001}', '\U{2002}', '\U{2003}', '\U{2004}', '\U{2005}',
    '\U{2006}', '\U{2007}', '\U{2008}', '\U{2009}', '\U{200A}',
    '\U{2028}', '\U{2029}', '\U{202F}', '\U{205F}', '\U{3000}'}

  predicate AllSpace(s: string) {
    forall i :: 0 <= i < |s| ==> IsSpace(s[i])
  }

  predicate NoSpace(s: string) {
    forall i :: 0 <= i < |s| ==> !IsSpace(s[i])
  }

  function Min(a: int, b: int): int { if a <= b then a else b }

  function Max(a: int, b: int): int { if a >= b then a else b }

  function SetOf<T>(s: seq<T>): set<T> {
    set x | x in s
  }

  /** No element occurs twice. */
  predicate Distinct<T(==)>(s: seq<T>) {
    forall i, j :: 0 <= i < j < |s| ==> s[i] != s[j]
  }

  lemma SetOfAppend<T>(s: seq<T>, x: T)
    ensures SetOf(s + [x]) == SetOf(s) + {x}
  {
  }

  lemma SetOfConcat<T>(a: seq<T>, b: seq<T>)
    ensures SetOf(a + b) == SetOf(a) + SetOf(b)
  {
  }

  /** Number of whitespace characters at the front of `s`. */
  function LeadingSpaces(s: string): (n: nat)
    ensures n <= |s|
    ensures forall i :: 0 <= i < n ==> IsSpace(s[i])
    ensures n < |s| ==> !IsSpace(s[n])
  {
    if |s| == 0 || !IsSpace(s[0]) then 0 else 1 + LeadingSpaces(s[1..])
  }

  /** Number of whitespace characters at the end of `s`. */
  function TrailingSpaces(s: string): (n: nat)
    ensures n <= |s|
    ensures forall i :: |s| - n <= i < |s| ==> IsSpace(s[i])
    ensures n < |s| ==> !IsSpace(s[|s| - n - 1])
  {
    if |s| == 0 || !IsSpace(s[|s| - 1]) then 0
    else 1 + TrailingSpaces(s[..|s| - 1])
  }

  /** Python's `s.strip()`: `s` without its leading and trailing whitespace.
      The result is the middle of `s`, what was removed is whitespace, and the
      result neither starts nor ends with whitespace. */
  function Strip(s: string): (r: string)
    ensures |r| <= |s|
    ensures exists a :: 0 <= a <= |s| - |r| && s[a..a + |r|] == r
                        && AllSpace(s[..a]) && AllSpace(s[a + |r|..])
    ensures r == [] <==> AllSpace(s)
    ensures r != [] ==> !IsSpace(r[0]) && !IsSpace(r[|r| - 1])
  {
    var a := LeadingSpaces(s);
    var rest := s[a..];
    var t := TrailingSpaces(rest);
    StripShape(s, a, rest, t);
    rest[..|rest| - t]
  }

  /** The facts `Strip` promises, from what `LeadingSpaces` and
      `TrailingSpaces` say about the `a` leading and `t` trailing whitespace
      characters they count. */
  lemma StripShape(s: string, a: nat, rest: string, t: nat)
    requires a <= |s| && rest == s[a..] && t <= |rest|
    requires forall i :: 0 <= i < a ==> IsSpace(s[i])
    requires a < |s| ==> !IsSpace(s[a])
    requires forall i :: |rest| - t <= i < |rest| ==> IsSpace(rest[i])
    requires t < |rest| ==> !IsSpace(rest[|rest| - t - 1])
    ensures var r := rest[..|rest| - t];
            && (exists a :: 0 <= a <= |s| - |r| && s[a..a + |r|] == r
                            && AllSpace(s[..a]) && AllSpace(s[a + |r|..]))
            && (r == [] <==> AllSpace(s))
            && (r != [] ==> !IsSpace(r[0]) && !IsSpace(r[|r| - 1]))
  {
    var r := rest[..|rest| - t];
    var e := |s| - t;
    assert r == s[a..e];
    assert s[a..a + |r|] == r;
    forall i | 0 <= i < a
      ensures IsSpace(s[..a][i])
    {
      assert s[..a][i] == s[i];
    }
    var u := s[e..];
    forall i | 0 <= i < |u|
      ensures IsSpace(u[i])
    {
      assert u[i] == rest[|rest| - t + i];
    }
    if r == [] {
      assert s == s[..a] + u;
    } else {
      assert r[0] == s[a];
      assert r[|r| - 1] == rest[|rest| - t - 1];
    }
  }

  /** Stripping twice is stripping once. */
  lemma StripIdempotent(s: string)
    ensures Strip(Strip(s)) == Strip(s)
  {
    var r := Strip(s);
    var a := LeadingSpaces(r);
    if r != [] {
      assert a == 0;
      assert r[0..] == r;
      assert TrailingSpaces(r) == 0;
      assert r[..|r| - 0] == r;
    }
  }

  /** Python's `c.lower()` on ASCII letters. */
  function LowerChar(c: char): char {
    if 'A' <= c <= 'Z' then (c as int + 32) as char else c
  }

  /** Python's `s.lower()`, character by character (ASCII letters only). */
  function Lower(s: string): (r: string)
    ensures |r| == |s|
    ensures forall i :: 0 <= i < |s| ==> r[i] == LowerChar(s[i])
  {
    seq(|s|, i requires 0 <= i < |s| => LowerChar(s[i]))
  }

  lemma LowerConcat(a: string, b: string)
    ensures Lower(a + b) == Lower(a) + Lower(b)
  {
  }

  /** Python's `c.isupper()` for one character (ASCII letters only). */
  predicate IsUpper(c: char) {
    'A' <= c <= 'Z'
  }

  predicate StartsWith(s: string, prefix: string) {
    |prefix| <= |s| && s[..|prefix|] == prefix
  }

  predicate OccursAt(hay: string, needle: string, i: int) {
    0 <= i && i + |needle| <= |hay| && hay[i..i + |needle|] == needle
  }

  /** Python's `needle in hay` on strings: some position of `hay` starts a copy of `needle`. */
  function Contains(hay: string, needle: string): (r: bool)
    ensures r <==> exists i :: OccursAt(hay, needle, i)
    decreases |hay|
  {
    if StartsWith(hay, needle) then
      assert OccursAt(hay, needle, 0);
      true
    else if |hay| == 0 then
      false
    else
      var r := Contains(hay[1..], needle);
      assert r ==> exists i :: OccursAt(hay, needle, i) by {
        if r {
          var i :| OccursAt(hay[1..], needle, i);
          assert hay[1..][i..i + |needle|] == hay[i + 1..i + 1 + |needle|];
          assert OccursAt(hay, needle, i + 1);
        }
      }
      assert (exists i :: OccursAt(hay, needle, i)) ==> r by {
        if exists i :: OccursAt(hay, needle, i) {
          var i :| OccursAt(hay, needle, i);
          assert i != 0;
          assert hay[1..][i - 1..i - 1 + |needle|] == hay[i..i + |needle|];
          assert OccursAt(hay[1..], needle, i - 1);
        }
      }
      r
  }

  /** A substring of the middle part is a substring of the whole. */
  lemma ContainsInfix(a: string, b: string, c: string, needle: string)
    requires Contains(b, needle)
    ensures Contains(a + b + c, needle)
  {
    var i :| OccursAt(b, needle, i);
    assert (a + b + c)[|a| + i..|a| + i + |needle|] == b[i..i + |needle|];
    assert OccursAt(a + b + c, needle, |a| + i);
  }

  /** True if some word of `words` occurs in `hay` (Python's `any(w in hay for w in words)`). */
  function ContainsAny(hay: string, words: seq<string>): (r: bool)
    ensures r <==> exists j :: 0 <= j < |words| && Contains(hay, words[j])
  {
    if |words| == 0 then false
    else Contains(hay, words[0]) || ContainsAny(hay, words[1..])
  }

  /** Length of the run of non-whitespace characters that starts `s`. */
  function WordPrefix(s: string): (n: nat)
    ensures n <= |s|
    ensures NoSpace(s[..n])
    ensures n < |s| ==> IsSpace(s[n])
  {
    if |s| == 0 || IsSpace(s[0]) then 0 else 1 + WordPrefix(s[1..])
  }

  /** Python's `s.split()` with no separator: the maximal runs of
      non-whitespace characters, in order. */
  function Split(s: string): (words: seq<string>)
    ensures forall j :: 0 <= j < |words| ==> words[j] != [] && NoSpace(words[j])
    ensures words == [] <==> AllSpace(s)
    decreases |s|
  {
    if |s| == 0 then []
    else if IsSpace(s[0]) then
      var ws := Split(s[1..]);
      assert AllSpace(s[1..]) <==> AllSpace(s);
      ws
    else
      var n := WordPrefix(s);
      [s[..n]] + Split(s[n..])
  }

  /** The first whitespace position of `s` (or |s|) is unique. */
  lemma WordPrefixUnique(s: string, m: nat)
    requires m <= |s| && NoSpace(s[..m]) && (m < |s| ==> IsSpace(s[m]))
    ensures WordPrefix(s) == m
  {
    var n := WordPrefix(s);
    assert forall i :: 0 <= i < m ==> s[..m][i] == s[i];
    assert forall i :: 0 <= i < n ==> s[..n][i] == s[i];
  }

  /** A leading whitespace character contributes no word. */
  lemma SplitSpaceHead(s: string)
    requires |s| > 0 && IsSpace(s[0])
    ensures Split(s) == Split(s[1..])
  {
  }

  /** A leading run of `m` non-whitespace characters is the first word. */
  lemma SplitWordHead(s: string, m: nat)
    requires 0 < m <= |s| && NoSpace(s[..m]) && (m < |s| ==> IsSpace(s[m]))
    ensures Split(s) == [s[..m]] + Split(s[m..])
  {
    assert !IsSpace(s[..m][0]);
    WordPrefixUnique(s, m);
  }

  /** Splitting around one whitespace character splits each side separately. */
  lemma {:induction false} SplitAroundSpace(a: string, c: char, b: string)
    requires IsSpace(c)
    ensures Split(a + [c] + b) == Split(a) + Split(b)
    decreases |a|
  {
    var s := a + [c] + b;
    if |a| == 0 {
      assert s[1..] == b;
      SplitSpaceHead(s);
    } else if IsSpace(a[0]) {
      assert s[1..] == a[1..] + [c] + b;
      calc {
        Split(s);
        == { SplitSpaceHead(s); }
        Split(a[1..] + [c] + b);
        == { SplitAroundSpace(a[1..], c, b); }
        Split(a[1..]) + Split(b);
        == { SplitSpaceHead(a); }
        Split(a) + Split(b);
      }
    } else {
      var m := WordPrefix(a);
      assert s[..m] == a[..m];
      assert s[m..] == a[m..] + [c] + b;
      assert m < |s| && IsSpace(s[m]);
      calc {
        Split(s);
        == { SplitWordHead(s, m); }
        [a[..m]] + Split(a[m..] + [c] + b);
        == { SplitAroundSpace(a[m..], c, b); }
        [a[..m]] + (Split(a[m..]) + Split(b));
        ([a[..m]] + Split(a[m..])) + Split(b);
        == { SplitWordHead(a, m); }
        Split(a) + Split(b);
      }
    }
  }

  /** `set(text.lower().split())`: the distinct lowered words of `text`. */
  function WordSet(text: string): set<string> {
    SetOf(Split(Lower(text)))
  }

  /** Python's `sep.join(parts)`. */
  function Join(parts: seq<string>, sep: string): string {
    if |parts| == 0 then ""
    else if |parts| == 1 then parts[0]
    else parts[0] + sep + Join(parts[1..], sep)
  }

  /** Each joined part occurs in the joined string. */
  lemma {:induction false} JoinContainsParts(parts: seq<string>, sep: string, j: nat)
    requires j < |parts|
    ensures Contains(Join(parts, sep), parts[j])
    decreases |parts|
  {
    var s := Join(parts, sep);
    if |parts| == 1 {
      assert OccursAt(s, parts[0], 0);
    } else if j == 0 {
      assert s[..|parts[0]|] == parts[0];
      assert OccursAt(s, parts[0], 0);
    } else {
      JoinContainsParts(parts[1..], sep, j - 1);
      var t := Join(parts[1..], sep);
      var i :| OccursAt(t, parts[j], i);
      var off := |parts[0]| + |sep|;
      assert s == parts[0] + sep + t;
      assert s[off + i..off + i + |parts[j]|] == t[i..i + |parts[j]|];
      assert OccursAt(s, parts[j], off + i);
    }
  }

  /** A joined string starts with its first part. */
  lemma JoinStartsWith(parts: seq<string>, sep: string)
    requires |parts| > 0
    ensures StartsWith(Join(parts, sep), parts[0])
  {
    if |parts| > 1 {
      var s := Join(parts, sep);
      assert s == parts[0] + (sep + Join(parts[1..], sep));
    }
  }

  /** Consecutive parts appear next to each other, with one separator between them. */
  lemma {:induction false} JoinAdjacent(parts: seq<string>, sep: string, j: nat)
    requires j + 1 < |parts|
    ensures Contains(Join(parts, sep), parts[j] + sep + parts[j + 1])
    decreases |parts|
  {
    var s := Join(parts, sep);
    var t := Join(parts[1..], sep);
    assert s == parts[0] + sep + t;
    if j == 0 {
      JoinStartsWith(parts[1..], sep);
      var needle := parts[0] + sep + parts[1];
      assert s[..|needle|] == needle by {
        assert t[..|parts[1]|] == parts[1];
        assert s == needle + t[|parts[1]|..];
      }
      assert OccursAt(s, needle, 0);
    } else {
      JoinAdjacent(parts[1..], sep, j - 1);
      ContainsInfix(parts[0] + sep, t, [], parts[j] + sep + parts[j + 1]);
      assert parts[0] + sep + t + [] == s;
    }
  }

  function DigitChar(d: nat): char
    requires d < 10
  {
    ('0' as int + d) as char
  }

  predicate IsDigit(c: char) {
    '0' <= c <= '9'
  }

  /** Python's `str(n)` for a non-negative int: decimal digits, no leading zeros. */
  function Decimal(n: nat): (s: string)
    ensures |s| >= 1
    ensures forall i :: 0 <= i < |s| ==> IsDigit(s[i])
  {
    if n < 10 then [DigitChar(n)] else Decimal(n / 10) + [DigitChar(n % 10)]
  }

  /** Reads back a string of decimal digits. */
  function ParseDecimal(s: string): nat
    requires forall i :: 0 <= i < |s| ==> IsDigit(s[i])
  {
    if |s| == 0 then 0
    else
      assert IsDigit(s[|s| - 1]);
      ParseDecimal(s[..|s| - 1]) * 10 + (s[|s| - 1] as int - '0' as int)
  }

  /** Reading back the decimal rendering of n gives n. */
  lemma {:induction false} DecimalRoundTrip(n: nat)
    ensures ParseDecimal(Decimal(n)) == n
  {
    if n >= 10 {
      var s := Decimal(n);
      assert s[..|s| - 1] == Decimal(n / 10);
      DecimalRoundTrip(n / 10);
    }
  }

  lemma DecimalInjective(a: nat, b: nat)
    requires Decimal(a) == Decimal(b)
    ensures a == b
  {
    DecimalRoundTrip(a);
    DecimalRoundTrip(b);
  }

  /** A decimal rendering followed by a separator that is not a digit can be
      split back unambiguously: the numbers agree. */
  lemma DecimalThenSeparator(a: nat, b: nat, sep: char, x: string, y: string)
    requires !IsDigit(sep)
    requires Decimal(a) + [sep] + x == Decimal(b) + [sep] + y
    ensures a == b
  {
    var da, db := Decimal(a), Decimal(b);
    var s := da + [sep] + x;
    assert s[|da|] == sep;
    assert s[|db|] == sep;
    assert |da| == |db|;
    assert da == s[..|da|] == db;
    DecimalInjective(a, b);
  }
}
