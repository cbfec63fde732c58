/**
  The string operations of Python's `str` that the system relies on, for
  one-character separators and sets of strip characters: `split`, `join`,
  `split(sep, 1)`, `strip`, `rstrip`, `readlines`, ASCII `lower`,
  `replace` and the substring test `x in s`.
 */
module Text {
  import opened Wrappers

  /** Index of the first occurrence of `c` in `s`. */
  function FirstIndex(s: string, c: char): (i: nat)
    requires c in s
    ensures i < |s| && s[i] == c
    ensures c !in s[..i]
  {
    if s[0] == c then 0
    else
      assert s == [s[0]] + s[1..];
      1 + FirstIndex(s[1..], c)
  }

  /** Python's `sep.join(parts)`. */
  function Join(parts: seq<string>, sep: char): string
    requires |parts| >= 1
  {
    if |parts| == 1 then parts[0] else parts[0] + [sep] + Join(parts[1..], sep)
  }

  /** Python's `s.split(sep)`: never empty, no part holds `sep`, and joining restores `s`. */
  function Split(s: string, sep: char): (parts: seq<string>)
    ensures |parts| >= 1
    ensures forall i :: 0 <= i < |parts| ==> sep !in parts[i]
    ensures Join(parts, sep) == s
    decreases |s|
  {
    if sep !in s then [s]
    else
      var i := FirstIndex(s, sep);
      assert s == s[..i] + [sep] + s[i+1..];
      [s[..i]] + Split(s[i+1..], sep)
  }

  /** `Split` is the only separator-free decomposition of `s`, so it inverts `Join`. */
  lemma {:induction false} SplitJoin(parts: seq<string>, sep: char)
    requires |parts| >= 1
    requires forall i :: 0 <= i < |parts| ==> sep !in parts[i]
    ensures Split(Join(parts, sep), sep) == parts
    decreases |parts|
  {
    var s := Join(parts, sep);
    if |parts| == 1 {
    } else {
      var rest := Join(parts[1..], sep);
      assert s == parts[0] + [sep] + rest;
      assert s[|parts[0]|] == sep;
      assert sep in s;
      var i := FirstIndex(s, sep);
      assert s[..|parts[0]|] == parts[0];
      assert i == |parts[0]|;
      assert s[i+1..] == rest;
      SplitJoin(parts[1..], sep);
    }
  }

  /** The first two parts of a join, and what follows them. */
  lemma JoinFirstTwo(parts: seq<string>, sep: char)
    requires |parts| >= 2
    ensures |parts| == 2 ==> Join(parts, sep) == parts[0] + [sep] + parts[1]
    ensures |parts| > 2 ==> Join(parts, sep) == parts[0] + [sep] + parts[1] + [sep] + Join(parts[2..], sep)
  {
    assert parts[1..][1..] == parts[2..];
  }

  /** A string without the separator splits into itself alone. */
  lemma SplitCount(s: string, sep: char)
    ensures |Split(s, sep)| == 1 <==> sep !in s
  {
    if sep in s {
      var i := FirstIndex(s, sep);
      assert |Split(s, sep)| == 1 + |Split(s[i+1..], sep)|;
    }
  }

  /** Python's `s.split(sep, 1)[1]`: the text after the first `sep`; `None` stands for the `IndexError`. */
  function AfterFirst(s: string, sep: char): (r: Option<string>)
    ensures r.None? <==> sep !in s
    ensures r.Some? ==> exists p :: sep !in p && s == p + [sep] + r.value
  {
    if sep !in s then None
    else
      var i := FirstIndex(s, sep);
      assert s == s[..i] + [sep] + s[i+1..];
      Some(s[i+1..])
  }

  /** The text after the first separator is everything after a separator-free prefix, separators included. */
  lemma AfterFirstOfJoin(p: string, sep: char, x: string)
    requires sep !in p
    ensures AfterFirst(p + [sep] + x, sep) == Some(x)
  {
    var s := p + [sep] + x;
    assert s[|p|] == sep;
    var i := FirstIndex(s, sep);
    assert s[..|p|] == p;
    assert i == |p|;
    assert s[i+1..] == x;
  }

  /** Python's `s.rstrip(chars)`: the longest prefix of `s` not ending in one of `chars`. */
  function RStrip(s: string, chars: set<char>): (r: string)
    ensures r <= s
    ensures |r| == 0 || r[|r| - 1] !in chars
    ensures forall i :: |r| <= i < |s| ==> s[i] in chars
  {
    if |s| > 0 && s[|s| - 1] in chars then RStrip(s[..|s| - 1], chars) else s
  }

  /** Python's `s.lstrip(chars)`. */
  function LStrip(s: string, chars: set<char>): (r: string)
    ensures |r| <= |s| && r == s[|s| - |r|..]
    ensures |r| == 0 || r[0] !in chars
    ensures forall i :: 0 <= i < |s| - |r| ==> s[i] in chars
  {
    if |s| > 0 && s[0] in chars then LStrip(s[1..], chars) else s
  }

  /** Python's `s.strip(chars)`: neither end of the result is one of `chars`; `StripTrims` says what was cut. */
  function Strip(s: string, chars: set<char>): (r: string)
    ensures |r| <= |s|
    ensures |r| == 0 || (r[0] !in chars && r[|r| - 1] !in chars)
  {
    var t := RStrip(s, chars);
    var r := LStrip(t, chars);
    assert |r| > 0 ==> r[|r| - 1] == t[|t| - 1];
    r
  }

  /** `Strip` is a slice of its input with only `chars` cut from either end. */
  lemma StripTrims(s: string, chars: set<char>)
    ensures exists i, j ::
              && 0 <= i <= j <= |s| && Strip(s, chars) == s[i..j]
              && (forall k :: 0 <= k < i ==> s[k] in chars)
              && (forall k :: j <= k < |s| ==> s[k] in chars)
  {
    var i, j := StripBounds(s, chars);
  }

  /** The bounds of the slice `Strip` keeps. */
  lemma StripBounds(s: string, chars: set<char>) returns (i: nat, j: nat)
    ensures i <= j <= |s| && Strip(s, chars) == s[i..j]
    ensures forall k :: 0 <= k < i ==> s[k] in chars
    ensures forall k :: j <= k < |s| ==> s[k] in chars
  {
    var t := RStrip(s, chars);
    var r := LStrip(t, chars);
    i, j := |t| - |r|, |t|;
    assert t == s[..j];
    assert r == t[i..];
    assert r == s[i..j];
    forall k | 0 <= k < i
      ensures s[k] in chars
    {
      assert s[k] == t[k];
    }
  }

  /** Concatenation of a sequence of strings. */
  function Concat(xs: seq<string>): string
  {
    if |xs| == 0 then [] else xs[0] + Concat(xs[1..])
  }

  /** A line as `readlines` yields it: non-empty, with a `'\n'` at most as its last character. */
  predicate LineShaped(line: string)
  {
    |line| > 0 && '\n' !in line[..|line| - 1]
  }

  /** The line ends with a `'\n'`. */
  predicate EndsInNewline(line: string)
  {
    |line| > 0 && line[|line| - 1] == '\n'
  }

  /**
    Python's `f.readlines()` on the text `s`: lines keep their `'\n'`, every
    line but the last ends with one, and together they are exactly `s`.
   */
  function ReadLines(s: string): (lines: seq<string>)
    ensures Concat(lines) == s
    ensures forall i :: 0 <= i < |lines| ==> LineShaped(lines[i])
    ensures forall i :: 0 <= i < |lines| - 1 ==> EndsInNewline(lines[i])
    decreases |s|
  {
    if |s| == 0 then []
    else if '\n' !in s then
      assert s[..|s| - 1] <= s;
      [s]
    else
      var i := FirstIndex(s, '\n');
      var line := s[..i + 1];
      assert line[..|line| - 1] == s[..i];
      assert s == line + s[i + 1..];
      [line] + ReadLines(s[i + 1..])
  }

  /** ASCII lower-casing of one character. */
  function LowerChar(c: char): char
  {
    if 'A' <= c <= 'Z' then (c as int - 'A' as int + 'a' as int) as char else c
  }

  /** Python's `s.lower()`, restricted to ASCII letters. */
  function Lower(s: string): (r: string)
    ensures |r| == |s|
    ensures forall i :: 0 <= i < |s| ==> r[i] == LowerChar(s[i])
  {
    if |s| == 0 then [] else [LowerChar(s[0])] + Lower(s[1..])
  }

  /** Python's `s.replace(a, b)` for single characters. */
  function Replace(s: string, a: char, b: char): (r: string)
    ensures |r| == |s|
    ensures forall i :: 0 <= i < |s| ==> r[i] == (if s[i] == a then b else s[i])
  {
    if |s| == 0 then [] else [if s[0] == a then b else s[0]] + Replace(s[1..], a, b)
  }

  /** Python's `x in s` for two strings: `x` occurs as a contiguous slice of `s`. */
  predicate Substring(x: string, s: string)
  {
    x <= s || (|s| > 0 && Substring(x, s[1..]))
  }

  /** `f` applied to every element. */
  function MapSeq<A, B>(f: A -> B, xs: seq<A>): (ys: seq<B>)
    ensures |ys| == |xs|
    ensures forall i :: 0 <= i < |xs| ==> ys[i] == f(xs[i])
  {
    seq(|xs|, i requires 0 <= i < |xs| => f(xs[i]))
  }

  /** Mapping over a sequence with one more element in front. */
  lemma MapSeqPrepend<A, B>(f: A -> B, x: A, xs: seq<A>)
    ensures MapSeq(f, [x] + xs) == [f(x)] + MapSeq(f, xs)
  {
    var all := MapSeq(f, [x] + xs);
    forall i | 0 <= i < |all|
      ensures all[i] == ([f(x)] + MapSeq(f, xs))[i]
    {
      if i > 0 {
        assert ([x] + xs)[i] == xs[i - 1];
      }
    }
  }

  /** Mapping over a one-element sequence. */
  lemma MapSeqSingle<A, B>(f: A -> B, x: A)
    ensures MapSeq(f, [x]) == [f(x)]
  {
    assert MapSeq(f, [x])[0] == f(x);
  }
}
